/** Trades binned by size tier and taker side at several bar lengths at once
    (data/sources/binance_agg_trades.py). */
module AggBins {
  import opened GridMath

  const WHALE_USD := 100000.0

  const MID_USD := 1000.0

  datatype Trade = Trade(price: real, qty: real, ms: int, buyerMaker: bool)

  datatype Tier = Whale | Mid | Retail

  datatype Side = Buy | Sell

  /** The numeric columns of a bin row. */
  datatype Column = Qty(tier: Tier, side: Side) | Usd(tier: Tier, side: Side) | NTrades

  const COLUMNS: set<Column> :=
    {Qty(Whale, Buy), Qty(Whale, Sell), Qty(Mid, Buy), Qty(Mid, Sell), Qty(Retail, Buy), Qty(Retail, Sell),
     Usd(Whale, Buy), Usd(Whale, Sell), Usd(Mid, Buy), Usd(Mid, Sell), Usd(Retail, Buy), Usd(Retail, Sell), NTrades}

  type Bin = m: map<Column, real> | m.Keys == COLUMNS witness map c | c in COLUMNS :: 0.0

  lemma EveryColumn(c: Column)
    ensures c in COLUMNS
  {
    match c
    case NTrades => {}
    case Qty(Whale, Buy) => {}
    case Qty(Whale, Sell) => {}
    case Qty(Mid, Buy) => {}
    case Qty(Mid, Sell) => {}
    case Qty(Retail, Buy) => {}
    case Qty(Retail, Sell) => {}
    case Usd(Whale, Buy) => {}
    case Usd(Whale, Sell) => {}
    case Usd(Mid, Buy) => {}
    case Usd(Mid, Sell) => {}
    case Usd(Retail, Buy) => {}
    case Usd(Retail, Sell) => {}
  }

  function Notional(t: Trade): real { t.price * t.qty }

  function TierOf(t: Trade): Tier {
    if Notional(t) >= WHALE_USD then Whale else if Notional(t) >= MID_USD then Mid else Retail
  }

  /** The taker sold when the buyer was the maker. */
  function SideOf(t: Trade): Side { if t.buyerMaker then Sell else Buy }

  /** What a trade adds to a column. */
  function Value(t: Trade, c: Column): real {
    match c
    case Qty(tier, side) => if tier == TierOf(t) && side == SideOf(t) then t.qty else 0.0
    case Usd(tier, side) => if tier == TierOf(t) && side == SideOf(t) then Notional(t) else 0.0
    case NTrades => 1.0
  }

  function BinStart(t: Trade, secs: int): int
    requires secs > 0
  {
    FloorTo(t.ms / 1000, secs)
  }

  /** A trade of a hundred thousand dollars or more, of a thousand or more, of less. */
  predicate Sized(t: Trade, tier: Tier) {
    match tier
    case Whale => t.price * t.qty >= 100000.0
    case Mid => 1000.0 <= t.price * t.qty < 100000.0
    case Retail => t.price * t.qty < 1000.0
  }

  /** A trade adds its quantity and its price times quantity to the columns of one tier, by
      size, and of one side, the one the taker took; and one to the count. */
  lemma ValueIs(t: Trade, tier: Tier, side: Side)
    ensures var here := Sized(t, tier) && (side == Sell <==> t.buyerMaker);
      && Value(t, Qty(tier, side)) == (if here then t.qty else 0.0)
      && Value(t, Usd(tier, side)) == (if here then t.price * t.qty else 0.0)
      && Value(t, NTrades) == 1.0
  {}

  /** A bin starts on the grid of its length, at or before the trade's millisecond and less
      than a length before it. */
  lemma BinStartIs(t: Trade, secs: int)
    requires secs > 0
    ensures var b := BinStart(t, secs); OnGrid(b, secs) && b * 1000 <= t.ms < (b + secs) * 1000
  {
    FloorToIs(t.ms / 1000, secs);
    FloorOnGrid(t.ms / 1000, secs);
  }

  /** A column summed over the trades of bin b. */
  function Summed(trades: seq<Trade>, secs: int, b: int, c: Column): real
    requires secs > 0
  {
    if trades == [] then 0.0
    else
      var t := trades[|trades| - 1];
      Summed(trades[..|trades| - 1], secs, b, c) + if BinStart(t, secs) == b then Value(t, c) else 0.0
  }

  predicate IsBin(bin: Bin, trades: seq<Trade>, secs: int, b: int)
    requires secs > 0
  {
    forall c :: c in COLUMNS ==> bin[c] == Summed(trades, secs, b, c)
  }

  /** One bin for every start that has a trade, and no other. */
  ghost predicate Binned(bins: map<int, Bin>, trades: seq<Trade>, secs: int)
    requires secs > 0
  {
    && (forall t :: t in trades ==> BinStart(t, secs) in bins)
    && (forall b :: b in bins ==> exists t :: t in trades && BinStart(t, secs) == b)
    && (forall b :: b in bins ==> IsBin(bins[b], trades, secs, b))
  }

  // ---- a coarse bin is its fine bins ----

  /** The first k fine bins from b on. */
  function SummedRun(trades: seq<Trade>, fine: int, b: int, k: nat, c: Column): real
    requires fine > 0
  {
    if k == 0 then 0.0 else SummedRun(trades, fine, b, k - 1, c) + Summed(trades, fine, b + (k - 1) * fine, c)
  }

  /** Whether a trade falls into one of those bins. */
  predicate InRun(t: Trade, fine: int, b: int, k: nat)
    requires fine > 0
  {
    exists j :: 0 <= j < k && BinStart(t, fine) == StartOf(b, j, fine)
  }

  function StartOf(b: int, j: int, fine: int): int { b + j * fine }

  lemma StartsApart(b: int, i: int, j: int, fine: int)
    requires fine > 0 && i < j
    ensures StartOf(b, i, fine) < StartOf(b, j, fine)
  {
    ProductAtLeast(j - i, fine);
    assert (j - i) * fine == j * fine - i * fine;
  }

  lemma {:induction false} RunAddsTrade(trades: seq<Trade>, fine: int, b: int, k: nat, c: Column)
    requires fine > 0 && trades != []
    ensures var t := trades[|trades| - 1];
            SummedRun(trades, fine, b, k, c)
            == SummedRun(trades[..|trades| - 1], fine, b, k, c) + (if InRun(t, fine, b, k) then Value(t, c) else 0.0)
  {
    var t := trades[|trades| - 1];
    if k > 0 {
      RunAddsTrade(trades, fine, b, k - 1, c);
      if BinStart(t, fine) == StartOf(b, k - 1, fine) {
        forall j | 0 <= j < k - 1
          ensures BinStart(t, fine) != StartOf(b, j, fine)
        {
          StartsApart(b, j, k - 1, fine);
        }
        assert InRun(t, fine, b, k);
      } else {
        assert InRun(t, fine, b, k) ==> InRun(t, fine, b, k - 1);
      }
    }
  }

  lemma {:induction false} EmptyRun(fine: int, b: int, k: nat, c: Column)
    requires fine > 0
    ensures SummedRun([], fine, b, k, c) == 0.0
  {
    if k > 0 { EmptyRun(fine, b, k - 1, c); }
  }

  /** A trade lies in a coarse bin exactly when it lies in one of its k fine ones. */
  lemma CoarseIsRun(t: Trade, fine: int, k: nat, b: int)
    requires fine > 0 && k > 0 && OnGrid(b, fine * k) && fine * k > 0
    ensures BinStart(t, fine * k) == b <==> InRun(t, fine, b, k)
  {
    var s, coarse := t.ms / 1000, fine * k;
    var f := s / fine * fine;
    FloorToIs(s, coarse);
    FloorToIs(s, fine);
    FloorOnGrid(s, coarse);
    FloorOnGrid(s, fine);
    if BinStart(t, coarse) == b {
      var q := s - b;
      assert 0 <= q < coarse;
      var j := q / fine;
      BinWithin(b, s, fine, k);
    }
    if InRun(t, fine, b, k) {
      var j :| 0 <= j < k && BinStart(t, fine) == StartOf(b, j, fine);
      RunWithin(b, s, j, fine, k);
    }
  }

  lemma FineOfCoarse(b: int, fine: int, k: nat)
    requires fine > 0 && k > 0 && fine * k > 0 && OnGrid(b, fine * k)
    ensures OnGrid(b, fine)
  {
    Parts(b, fine * k);
    var q := b / (fine * k);
    assert q * (fine * k) == q * k * fine;
    QuotientUnique(b, fine, q * k, 0);
  }

  lemma BinWithin(b: int, s: int, fine: int, k: nat)
    requires fine > 0 && k > 0 && fine * k > 0 && OnGrid(b, fine * k) && b <= s < b + fine * k
    ensures exists j :: 0 <= j < k && s / fine * fine == StartOf(b, j, fine)
  {
    FineOfCoarse(b, fine, k);
    Parts(b, fine);
    var j := (s - b) / fine;
    Parts(s - b, fine);
    DivShift(s - b, b / fine, fine);
    assert s / fine == j + b / fine;
    assert (j + b / fine) * fine == j * fine + b / fine * fine;
    assert (j - k) * fine == j * fine - k * fine;
    if j >= k { ProductNonNegative(j - k, fine); }
    if j < 0 {
      ProductAtLeast(-j, fine);
    }
    assert s / fine * fine == StartOf(b, j, fine);
  }

  lemma RunWithin(b: int, s: int, j: int, fine: int, k: nat)
    requires fine > 0 && k > 0 && fine * k > 0 && OnGrid(b, fine * k) && 0 <= j < k
    requires s / fine * fine == StartOf(b, j, fine)
    ensures s / (fine * k) * (fine * k) == b
  {
    FloorOnGrid(s, fine);
    ProductNonNegative(j, fine);
    ProductNonNegative(k - 1 - j, fine);
    assert (k - 1 - j) * fine == k * fine - fine - j * fine;
    Parts(b, fine * k);
    QuotientUnique(s, fine * k, b / (fine * k), s - b);
  }

  /** Every column of a coarse bin is the sum of that column over its fine bins. */
  lemma {:induction false} CoarseIsFine(trades: seq<Trade>, fine: int, k: nat, b: int, c: Column)
    requires fine > 0 && k > 0 && fine * k > 0 && OnGrid(b, fine * k)
    ensures Summed(trades, fine * k, b, c) == SummedRun(trades, fine, b, k, c)
  {
    if trades == [] {
      EmptyRun(fine, b, k, c);
    } else {
      CoarseIsFine(trades[..|trades| - 1], fine, k, b, c);
      RunAddsTrade(trades, fine, b, k, c);
      CoarseIsRun(trades[|trades| - 1], fine, k, b);
    }
  }

  /** A stored column, zero where there is no bin. */
  function Stored(bins: map<int, Bin>, b: int, c: Column): real {
    if b in bins && c in bins[b] then bins[b][c] else 0.0
  }

  function StoredRun(bins: map<int, Bin>, fine: int, b: int, k: nat, c: Column): real {
    if k == 0 then 0.0 else StoredRun(bins, fine, b, k - 1, c) + Stored(bins, b + (k - 1) * fine, c)
  }

  lemma {:induction false} NoTrades(trades: seq<Trade>, secs: int, b: int, c: Column)
    requires secs > 0 && forall t :: t in trades ==> BinStart(t, secs) != b
    ensures Summed(trades, secs, b, c) == 0.0
  {
    if trades != [] {
      assert trades[|trades| - 1] in trades;
      NoTrades(trades[..|trades| - 1], secs, b, c);
    }
  }

  lemma StoredIsSummed(bins: map<int, Bin>, trades: seq<Trade>, secs: int, b: int, c: Column)
    requires secs > 0 && Binned(bins, trades, secs)
    ensures Stored(bins, b, c) == Summed(trades, secs, b, c)
  {
    EveryColumn(c);
    if b !in bins { NoTrades(trades, secs, b, c); }
  }

  lemma {:induction false} StoredRunIsSummed(bins: map<int, Bin>, trades: seq<Trade>, fine: int, b: int, k: nat, c: Column)
    requires fine > 0 && Binned(bins, trades, fine)
    ensures StoredRun(bins, fine, b, k, c) == SummedRun(trades, fine, b, k, c)
  {
    if k > 0 {
      StoredRunIsSummed(bins, trades, fine, b, k - 1, c);
      StoredIsSummed(bins, trades, fine, b + (k - 1) * fine, c);
    }
  }

  /** Nesting, on the tables themselves: in every tier, side and count a coarse row
      equals the sum of the fine rows it spans. */
  lemma TablesNest(coarse: map<int, Bin>, fines: map<int, Bin>, trades: seq<Trade>, fine: int, k: nat, b: int, c: Column)
    requires fine > 0 && k > 0 && fine * k > 0 && OnGrid(b, fine * k)
    requires Binned(coarse, trades, fine * k) && Binned(fines, trades, fine)
    ensures Stored(coarse, b, c) == StoredRun(fines, fine, b, k, c)
  {
    StoredIsSummed(coarse, trades, fine * k, b, c);
    StoredRunIsSummed(fines, trades, fine, b, k, c);
    CoarseIsFine(trades, fine, k, b, c);
  }

  // ---- the loops ----

  function NewBin(): Bin { map c | c in COLUMNS :: 0.0 }

  /** Three increments: the quantity and notional of the trade's slot, and the count. */
  function Bumped(bin: Bin, t: Trade): Bin
  {
    EveryColumn(Qty(TierOf(t), SideOf(t)));
    EveryColumn(Usd(TierOf(t), SideOf(t)));
    EveryColumn(NTrades);
    var q, u := Qty(TierOf(t), SideOf(t)), Usd(TierOf(t), SideOf(t));
    bin[q := bin[q] + t.qty][u := bin[u] + Notional(t)][NTrades := bin[NTrades] + 1.0]
  }

  lemma BumpedAdds(bin: Bin, t: Trade)
    ensures forall c :: c in COLUMNS ==> Bumped(bin, t)[c] == bin[c] + Value(t, c)
  {
    EveryColumn(Qty(TierOf(t), SideOf(t)));
    EveryColumn(Usd(TierOf(t), SideOf(t)));
    EveryColumn(NTrades);
  }

  function AddTrade(bins: map<int, Bin>, t: Trade, secs: int): map<int, Bin>
    requires secs > 0
  {
    var b := BinStart(t, secs);
    bins[b := Bumped(if b in bins then bins[b] else NewBin(), t)]
  }

  lemma SummedSnoc(trades: seq<Trade>, t: Trade, secs: int, b: int, c: Column)
    requires secs > 0
    ensures Summed(trades + [t], secs, b, c) == Summed(trades, secs, b, c) + if BinStart(t, secs) == b then Value(t, c) else 0.0
  {
    assert (trades + [t])[..|trades|] == trades;
  }

  lemma BinAfter(bins: map<int, Bin>, trades: seq<Trade>, t: Trade, secs: int, k: int)
    requires secs > 0 && Binned(bins, trades, secs) && (k in bins || k == BinStart(t, secs))
    ensures IsBin(AddTrade(bins, t, secs)[k], trades + [t], secs, k)
  {
    var b := BinStart(t, secs);
    BumpedAdds(if b in bins then bins[b] else NewBin(), t);
    forall c | c in COLUMNS
      ensures AddTrade(bins, t, secs)[k][c] == Summed(trades + [t], secs, k, c)
    {
      SummedSnoc(trades, t, secs, k, c);
      StoredIsSummed(bins, trades, secs, k, c);
    }
  }

  lemma AddTradeBins(bins: map<int, Bin>, trades: seq<Trade>, t: Trade, secs: int)
    requires secs > 0 && Binned(bins, trades, secs)
    ensures Binned(AddTrade(bins, t, secs), trades + [t], secs)
  {
    var all, after, b := trades + [t], AddTrade(bins, t, secs), BinStart(t, secs);
    forall k | k in after
      ensures IsBin(after[k], all, secs, k)
      ensures exists u :: u in all && BinStart(u, secs) == k
    {
      BinAfter(bins, trades, t, secs, k);
      if k == b {
        assert t in all;
      } else {
        var u :| u in trades && BinStart(u, secs) == k;
        assert u in all;
      }
    }
  }

  ghost predicate BinnedAt(out: map<int, map<int, Bin>>, s: int, trades: seq<Trade>) {
    s > 0 && s in out && Binned(out[s], trades, s)
  }

  predicate Distinct(s: seq<int>) { forall i, j :: 0 <= i < j < |s| ==> s[i] != s[j] }

  /** Add one trade at every bar length. */
  method AddToAll(before: map<int, map<int, Bin>>, t: Trade, lengths: seq<int>) returns (out: map<int, map<int, Bin>>)
    requires Distinct(lengths) && forall n :: 0 <= n < |lengths| ==> lengths[n] > 0 && lengths[n] in before
    ensures out.Keys == before.Keys
    ensures forall n :: 0 <= n < |lengths| ==> out[lengths[n]] == AddTrade(before[lengths[n]], t, lengths[n])
  {
    out := before;
    for n := 0 to |lengths|
      invariant out.Keys == before.Keys
      invariant forall m :: 0 <= m < n ==> out[lengths[m]] == AddTrade(before[lengths[m]], t, lengths[m])
      invariant forall m :: n <= m < |lengths| ==> out[lengths[m]] == before[lengths[m]]
    {
      var s := lengths[n];
      out := out[s := AddTrade(out[s], t, s)];
    }
  }

  /** One pass over the trades, all bar lengths at once. */
  method ParseAndAggregate(trades: seq<Trade>, lengths: seq<int>) returns (out: map<int, map<int, Bin>>)
    requires Distinct(lengths) && forall n :: 0 <= n < |lengths| ==> lengths[n] > 0
    ensures out.Keys == set s | s in lengths
    ensures forall n :: 0 <= n < |lengths| ==> BinnedAt(out, lengths[n], trades)
  {
    out := map s | s in lengths :: map[];
    for i := 0 to |trades|
      invariant out.Keys == set s | s in lengths
      invariant forall n :: 0 <= n < |lengths| ==> BinnedAt(out, lengths[n], trades[..i])
    {
      assert trades[..i + 1] == trades[..i] + [trades[i]];
      ghost var before := out;
      out := AddToAll(out, trades[i], lengths);
      forall n | 0 <= n < |lengths|
        ensures BinnedAt(out, lengths[n], trades[..i + 1])
      {
        assert BinnedAt(before, lengths[n], trades[..i]);
        AddTradeBins(before[lengths[n]], trades[..i], trades[i], lengths[n]);
      }
    }
    assert trades[..|trades|] == trades;
  }
}
