/** One-second klines folded into bars (data/sources/binance_klines_5s.py), rows in
    any order. */
module Resample {
  import opened GridMath
  import opened Prelude

  /** What a bar adds up. */
  datatype Amounts = Amounts(volume: real, quote: real, buy: real, quoteBuy: real, trades: int)

  datatype Second = Second(ts: int, open: real, high: real, low: real, close: real, amounts: Amounts)

  datatype Bar = Bar(openTs: int, open: real, high: real, low: real, closeTs: int, close: real, amounts: Amounts)

  /** Archive stamps came in four units; the decade tells which. */
  function ToSeconds(t: int): int {
    if t >= 100000000000000000 then t / 1000000000
    else if t >= 100000000000000 then t / 1000000
    else if t >= 100000000000 then t / 1000
    else t
  }

  /** Any moment from 1973 to 5138 reads as its second in all four units. */
  lemma UnitsAgree(s: int, sub: int)
    requires 100000000 <= s < 100000000000
    ensures ToSeconds(s) == s
    ensures 0 <= sub < 1000 ==> ToSeconds(s * 1000 + sub) == s
    ensures 0 <= sub < 1000000 ==> ToSeconds(s * 1000000 + sub) == s
    ensures 0 <= sub < 1000000000 ==> ToSeconds(s * 1000000000 + sub) == s
  {
    assert 0 <= sub < 1000 ==> (s * 1000 + sub) / 1000 == s;
    assert 0 <= sub < 1000000 ==> (s * 1000000 + sub) / 1000000 == s;
    assert 0 <= sub < 1000000000 ==> (s * 1000000000 + sub) / 1000000000 == s;
  }

  function BinOf(ts: int, secs: int): int
    requires secs > 0
  {
    FloorTo(ts, secs)
  }

  function Plus(a: Amounts, b: Amounts): Amounts {
    Amounts(a.volume + b.volume, a.quote + b.quote, a.buy + b.buy, a.quoteBuy + b.quoteBuy, a.trades + b.trades)
  }

  const NOTHING := Amounts(0.0, 0.0, 0.0, 0.0, 0)

  /** The amounts of all rows of bin b. */
  function Summed(rows: seq<Second>, secs: int, b: int): Amounts
    requires secs > 0
  {
    if rows == [] then NOTHING
    else
      var r := rows[|rows| - 1];
      Plus(Summed(rows[..|rows| - 1], secs, b), if BinOf(r.ts, secs) == b then r.amounts else NOTHING)
  }

  predicate In(rows: seq<Second>, secs: int, b: int, r: Second)
    requires secs > 0
  {
    r in rows && BinOf(r.ts, secs) == b
  }

  /** The bar of bin b said without an order: the earliest row's open, the highest
      high, the lowest low, the latest row's close, and the sums. */
  ghost predicate IsBar(bar: Bar, rows: seq<Second>, secs: int, b: int)
    requires secs > 0
  {
    && (exists r :: In(rows, secs, b, r) && r.ts == bar.openTs && r.open == bar.open)
    && (exists r :: In(rows, secs, b, r) && r.ts == bar.closeTs && r.close == bar.close)
    && (exists r :: In(rows, secs, b, r) && r.high == bar.high)
    && (exists r :: In(rows, secs, b, r) && r.low == bar.low)
    && (forall r :: In(rows, secs, b, r) ==> bar.openTs <= r.ts <= bar.closeTs && bar.low <= r.low && r.high <= bar.high)
    && bar.amounts == Summed(rows, secs, b)
  }

  ghost predicate Resampled(bars: map<int, Bar>, rows: seq<Second>, secs: int)
    requires secs > 0
  {
    && (forall r :: r in rows ==> BinOf(r.ts, secs) in bars)
    && (forall b :: b in bars ==> IsBar(bars[b], rows, secs, b))
  }

  /** No two rows bear the same second. */
  predicate DistinctStamps(rows: seq<Second>) { forall i, j :: 0 <= i < j < |rows| ==> rows[i].ts != rows[j].ts }

  // ---- sums do not depend on the order ----

  /** The rows without the i-th. */
  function Without(rows: seq<Second>, i: nat): seq<Second>
    requires i < |rows|
  {
    rows[..i] + rows[i + 1..]
  }

  lemma WithoutLast(rows: seq<Second>)
    requires rows != []
    ensures Without(rows, |rows| - 1) == rows[..|rows| - 1]
  {}

  lemma WithoutEarlier(rows: seq<Second>, i: nat)
    requires i < |rows| - 1
    ensures var rest := Without(rows, i); |rest| == |rows| - 1 && rest[|rest| - 1] == rows[|rows| - 1] && rest[..|rest| - 1] == Without(rows[..|rows| - 1], i)
  {}

  lemma {:induction false} SummedWithout(rows: seq<Second>, i: nat, secs: int, b: int)
    requires secs > 0 && i < |rows|
    ensures Summed(rows, secs, b) == Plus(Summed(Without(rows, i), secs, b), if BinOf(rows[i].ts, secs) == b then rows[i].amounts else NOTHING)
    decreases |rows|
  {
    if i == |rows| - 1 {
      WithoutLast(rows);
    } else {
      SummedWithout(rows[..|rows| - 1], i, secs, b);
      WithoutEarlier(rows, i);
    }
  }

  lemma MultisetWithout(rows: seq<Second>, i: nat)
    requires i < |rows|
    ensures multiset(Without(rows, i)) == multiset(rows) - multiset{rows[i]}
  {
    assert rows == rows[..i] + [rows[i]] + rows[i + 1..];
  }

  /** Where a permutation has the last row, and what is left without it. */
  lemma LastElsewhere(rows: seq<Second>, other: seq<Second>) returns (i: nat)
    requires rows != [] && multiset(rows) == multiset(other)
    ensures i < |other| && other[i] == rows[|rows| - 1] && multiset(rows[..|rows| - 1]) == multiset(Without(other, i))
  {
    assert rows[|rows| - 1] in multiset(other);
    i :| 0 <= i < |other| && other[i] == rows[|rows| - 1];
    MultisetWithout(rows, |rows| - 1);
    WithoutLast(rows);
    MultisetWithout(other, i);
  }

  lemma {:induction false} SummedAnyOrder(rows: seq<Second>, other: seq<Second>, secs: int, b: int)
    requires secs > 0 && multiset(rows) == multiset(other)
    ensures Summed(rows, secs, b) == Summed(other, secs, b)
    decreases |rows|
  {
    assert |rows| == |multiset(rows)| == |multiset(other)| == |other|;
    if rows != [] {
      var n := |rows| - 1;
      var i := LastElsewhere(rows, other);
      SummedAnyOrder(rows[..n], Without(other, i), secs, b);
      SummedWithout(other, i, secs, b);
    }
  }

  lemma SameRow(rows: seq<Second>, p: Second, q: Second)
    requires DistinctStamps(rows) && p in rows && q in rows && p.ts == q.ts
    ensures p == q
  {
    var i :| 0 <= i < |rows| && rows[i] == p;
    var j :| 0 <= j < |rows| && rows[j] == q;
    assert i == j;
  }

  lemma SameMembers(rows: seq<Second>, other: seq<Second>)
    requires multiset(rows) == multiset(other)
    ensures forall r :: r in rows <==> r in other
  {
    forall r
      ensures r in rows <==> r in other
    {
      assert r in rows <==> r in multiset(rows);
      assert r in other <==> r in multiset(other);
    }
  }

  /** One bin's bar is fixed by its rows as a multiset. */
  lemma BarUnique(p: Bar, q: Bar, rows: seq<Second>, other: seq<Second>, secs: int, b: int)
    requires secs > 0 && multiset(rows) == multiset(other) && DistinctStamps(rows)
    requires IsBar(p, rows, secs, b) && IsBar(q, other, secs, b)
    ensures p == q
  {
    SameMembers(rows, other);
    SummedAnyOrder(rows, other, secs, b);
    assert forall r :: In(rows, secs, b, r) <==> In(other, secs, b, r);
    var o1 :| In(rows, secs, b, o1) && o1.ts == p.openTs && o1.open == p.open;
    var o2 :| In(other, secs, b, o2) && o2.ts == q.openTs && o2.open == q.open;
    SameRow(rows, o1, o2);
    var c1 :| In(rows, secs, b, c1) && c1.ts == p.closeTs && c1.close == p.close;
    var c2 :| In(other, secs, b, c2) && c2.ts == q.closeTs && c2.close == q.close;
    SameRow(rows, c1, c2);
  }

  lemma BinHasRow(bars: map<int, Bar>, rows: seq<Second>, secs: int, b: int)
    requires secs > 0 && Resampled(bars, rows, secs)
    ensures b in bars <==> exists r :: In(rows, secs, b, r)
  {}

  lemma SameBins(bars: map<int, Bar>, others: map<int, Bar>, rows: seq<Second>, other: seq<Second>, secs: int, b: int)
    requires secs > 0 && multiset(rows) == multiset(other)
    requires Resampled(bars, rows, secs) && Resampled(others, other, secs)
    ensures b in bars <==> b in others
  {
    SameMembers(rows, other);
    BinHasRow(bars, rows, secs, b);
    BinHasRow(others, other, secs, b);
    assert forall r :: In(rows, secs, b, r) <==> In(other, secs, b, r);
  }

  ghost predicate SameEntry(bars: map<int, Bar>, others: map<int, Bar>, b: int) {
    if b in bars then b in others && others[b] == bars[b] else b !in others
  }

  lemma SameEntries(bars: map<int, Bar>, others: map<int, Bar>)
    requires forall b :: SameEntry(bars, others, b)
    ensures bars == others
  {
    forall b
      ensures b in bars <==> b in others
      ensures b in bars ==> others[b] == bars[b]
    {
      assert SameEntry(bars, others, b);
    }
  }

  lemma BinAgrees(bars: map<int, Bar>, others: map<int, Bar>, rows: seq<Second>, other: seq<Second>, secs: int, b: int)
    requires secs > 0 && multiset(rows) == multiset(other) && DistinctStamps(rows)
    requires Resampled(bars, rows, secs) && Resampled(others, other, secs)
    ensures SameEntry(bars, others, b)
  {
    SameBins(bars, others, rows, other, secs, b);
    if b in bars { BarUnique(bars[b], others[b], rows, other, secs, b); }
  }

  /** With distinct stamps the bars do not depend on the order of the file. */
  lemma OrderFree(bars: map<int, Bar>, others: map<int, Bar>, rows: seq<Second>, other: seq<Second>, secs: int)
    requires secs > 0 && multiset(rows) == multiset(other) && DistinctStamps(rows)
    requires Resampled(bars, rows, secs) && Resampled(others, other, secs)
    ensures bars == others
  {
    forall b
      ensures SameEntry(bars, others, b)
    {
      BinAgrees(bars, others, rows, other, secs, b);
    }
    SameEntries(bars, others);
  }

  // ---- the loop ----

  function Started(r: Second): Bar { Bar(r.ts, r.open, r.high, r.low, r.ts, r.close, r.amounts) }

  function Merged(c: Bar, r: Second): Bar {
    var first := if r.ts <= c.openTs then c.(openTs := r.ts, open := r.open) else c;
    var last := if r.ts >= c.closeTs then first.(closeTs := r.ts, close := r.close) else first;
    last.(high := if r.high > c.high then r.high else c.high, low := if r.low < c.low then r.low else c.low,
            amounts := Plus(c.amounts, r.amounts))
  }

  lemma NoneSummed(rows: seq<Second>, secs: int, b: int)
    requires secs > 0 && forall r :: !In(rows, secs, b, r)
    ensures Summed(rows, secs, b) == NOTHING
  {
    if rows != [] {
      var init, last := rows[..|rows| - 1], rows[|rows| - 1];
      assert !In(rows, secs, b, last);
      forall r
        ensures !In(init, secs, b, r)
      {
        assert !In(rows, secs, b, r);
      }
      NoneSummed(init, secs, b);
    }
  }

  lemma StartIsBar(rows: seq<Second>, r: Second, secs: int)
    requires secs > 0 && forall q :: !In(rows, secs, BinOf(r.ts, secs), q)
    ensures IsBar(Started(r), rows + [r], secs, BinOf(r.ts, secs))
  {
    var b, all := BinOf(r.ts, secs), rows + [r];
    NoneSummed(rows, secs, b);
    assert all[..|rows|] == rows && all[|rows|] == r;
    assert In(all, secs, b, r);
    forall q | In(all, secs, b, q)
      ensures q == r
    {
      assert !In(rows, secs, b, q);
    }
  }

  lemma MergeIsBar(c: Bar, rows: seq<Second>, r: Second, secs: int)
    requires secs > 0 && IsBar(c, rows, secs, BinOf(r.ts, secs))
    ensures IsBar(Merged(c, r), rows + [r], secs, BinOf(r.ts, secs))
  {
    var b, all := BinOf(r.ts, secs), rows + [r];
    assert all[..|rows|] == rows && all[|rows|] == r;
    assert In(all, secs, b, r);
    forall q
      ensures In(all, secs, b, q) <==> In(rows, secs, b, q) || q == r
    {}
    assert Merged(c, r).amounts == Summed(all, secs, b);
  }

  lemma OtherBinKept(c: Bar, rows: seq<Second>, r: Second, secs: int, b: int)
    requires secs > 0 && b != BinOf(r.ts, secs) && IsBar(c, rows, secs, b)
    ensures IsBar(c, rows + [r], secs, b)
  {
    var all := rows + [r];
    assert all[..|rows|] == rows && all[|rows|] == r;
    forall q
      ensures In(all, secs, b, q) <==> In(rows, secs, b, q)
    {}
    assert Summed(all, secs, b) == Plus(Summed(rows, secs, b), NOTHING);
  }

  /** Stream the rows once. */
  method ParseAndResample(rows: seq<Second>, secs: int) returns (bars: map<int, Bar>)
    requires secs > 0
    ensures Resampled(bars, rows, secs)
  {
    bars := map[];
    for i := 0 to |rows|
      invariant Resampled(bars, rows[..i], secs)
    {
      assert rows[..i + 1] == rows[..i] + [rows[i]];
      var b := BinOf(rows[i].ts, secs);
      forall k | k in bars && k != b
        ensures IsBar(bars[k], rows[..i + 1], secs, k)
      {
        OtherBinKept(bars[k], rows[..i], rows[i], secs, k);
      }
      if b !in bars {
        forall q
          ensures !In(rows[..i], secs, b, q)
        {}
        StartIsBar(rows[..i], rows[i], secs);
        bars := bars[b := Started(rows[i])];
      } else {
        MergeIsBar(bars[b], rows[..i], rows[i], secs);
        bars := bars[b := Merged(bars[b], rows[i])];
      }
    }
    assert rows[..|rows|] == rows;
  }

  /** With a repeated stamp the later of the two lines wins, so the order shows. */
  lemma RepeatedStampShowsOrder(p: Second, q: Second)
    requires p.ts == q.ts
    ensures Merged(Started(p), q).open == q.open && Merged(Started(p), q).close == q.close
    ensures p.close != q.close ==> Merged(Started(p), q).close != Merged(Started(q), p).close
  {}
}
