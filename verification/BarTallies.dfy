/** What a bar of the flow chart adds up to, said of the rows it is made of and not of the
    loop that adds them (dashboard/market.py `_fold`). */
module BarTallies {
  import opened BarFolds
  import opened GridMath
  import opened Prelude

  /** The bar that starts at b holds the stamp t: on the table's own timeframe the stamp
      itself, on a coarser one every stamp of its length. */
  predicate Spans(f: Frame, b: int, t: int)
    requires f.secs > 0
  {
    if f.secs == f.native then t == b else OnGrid(b, f.secs) && b <= t < b + f.secs
  }

  lemma SpansIsKey(f: Frame, b: int, t: int)
    requires f.secs > 0
    ensures Spans(f, b, t) <==> Key(f, t) == b
  {
    FloorToIs(t, f.secs);
    FloorOnGrid(t, f.secs);
    if f.secs != f.native && Spans(f, b, t) {
      var a := Key(f, t);
      if a < b { GridNext(a, b, f.secs); }
      if b < a { GridNext(b, a, f.secs); }
    }
  }

  predicate TwoSided(r: Row) { r.buy.Some? && r.sell.Some? }

  /** The spot table has the stamp with both sides. */
  predicate SpotAt(spot: Option<map<int, SpotRow>>, t: int) {
    spot.Some? && t in spot.value && spot.value[t].buy.Some? && spot.value[t].sell.Some?
  }

  /** The indices of a bar's rows, and of those among them with a spot row. */
  function RowsOf(rows: seq<Row>, f: Frame, b: int): set<nat>
    requires f.secs > 0
  {
    set i: nat | i < |rows| && Spans(f, b, rows[i].time)
  }

  function SpotsOf(rows: seq<Row>, spot: Option<map<int, SpotRow>>, f: Frame, b: int): set<nat>
    requires f.secs > 0
  {
    set i: nat | i < |rows| && Spans(f, b, rows[i].time) && SpotAt(spot, rows[i].time)
  }

  /** Bought less sold, over the bar's rows that have both. */
  function PerpSum(rows: seq<Row>, f: Frame, b: int): real
    requires f.secs > 0
  {
    if rows == [] then 0.0
    else
      var r := rows[|rows| - 1];
      PerpSum(rows[..|rows| - 1], f, b) + if Spans(f, b, r.time) && TwoSided(r) then r.buy.value - r.sell.value else 0.0
  }

  function SpotSum(rows: seq<Row>, spot: Option<map<int, SpotRow>>, f: Frame, b: int): real
    requires f.secs > 0
  {
    if rows == [] then 0.0
    else
      var t := rows[|rows| - 1].time;
      SpotSum(rows[..|rows| - 1], spot, f, b)
      + if Spans(f, b, t) && SpotAt(spot, t) then spot.value[t].buy.value - spot.value[t].sell.value else 0.0
  }

  predicate Indexes(s: set<nat>, n: nat) { forall i :: i in s ==> i < n }

  ghost predicate LastOf(s: set<nat>, i: nat) { i in s && forall j :: j in s ==> j <= i }

  /** The count, the sum, whether no row lacks a side, and the last close. */
  ghost predicate PerpSide(rows: seq<Row>, s: set<nat>, sum: real, c: Tally)
    requires Indexes(s, |rows|)
  {
    && c.n == |s| && c.perp == sum && (c.perpOk <==> forall i :: i in s ==> TwoSided(rows[i]))
    && if s == {} then c.perpClose == None else forall i: nat :: LastOf(s, i) ==> c.perpClose == rows[i].close
  }

  ghost predicate SpotSide(rows: seq<Row>, spot: Option<map<int, SpotRow>>, s: set<nat>, sum: real, c: Tally)
    requires Indexes(s, |rows|) && forall i :: i in s ==> SpotAt(spot, rows[i].time)
  {
    && c.nSpot == |s| && c.spot == sum
    && if s == {} then c.spotClose == None else forall i: nat :: LastOf(s, i) ==> SpotAt(spot, rows[i].time) && c.spotClose == spot.value[rows[i].time].close
  }

  ghost predicate IsTally(rows: seq<Row>, spot: Option<map<int, SpotRow>>, f: Frame, c: Tally)
    requires f.secs > 0
  {
    && PerpSide(rows, RowsOf(rows, f, c.time), PerpSum(rows, f, c.time), c)
    && SpotSide(rows, spot, SpotsOf(rows, spot, f, c.time), SpotSum(rows, spot, f, c.time), c)
  }

  lemma RowsOfSnoc(init: seq<Row>, r: Row, f: Frame, b: int)
    requires f.secs > 0
    ensures RowsOf(init + [r], f, b) == RowsOf(init, f, b) + if Spans(f, b, r.time) then {|init|} else {}
    ensures PerpSum(init + [r], f, b) == PerpSum(init, f, b) + if Spans(f, b, r.time) && TwoSided(r) then r.buy.value - r.sell.value else 0.0
  {
    assert (init + [r])[..|init|] == init;
  }

  lemma SpotsOfSnoc(init: seq<Row>, r: Row, spot: Option<map<int, SpotRow>>, f: Frame, b: int)
    requires f.secs > 0
    ensures var joins := Spans(f, b, r.time) && SpotAt(spot, r.time);
      && SpotsOf(init + [r], spot, f, b) == SpotsOf(init, spot, f, b) + (if joins then {|init|} else {})
      && SpotSum(init + [r], spot, f, b)
         == SpotSum(init, spot, f, b) + if joins then spot.value[r.time].buy.value - spot.value[r.time].sell.value else 0.0
  {
    assert (init + [r])[..|init|] == init;
  }

  lemma LastIsNew(s: set<nat>, n: nat)
    requires Indexes(s, n)
    ensures forall i: nat :: LastOf(s + {n}, i) ==> i == n
  {
    forall i: nat | LastOf(s + {n}, i)
      ensures i == n
    {
      assert n in s + {n};
    }
  }

  lemma PerpJoins(init: seq<Row>, r: Row, s: set<nat>, sum: real, c: Tally)
    requires Indexes(s, |init|) && PerpSide(init, s, sum, c)
    ensures PerpSide(init + [r], s + {|init|}, sum + if TwoSided(r) then r.buy.value - r.sell.value else 0.0, AbsorbPerp(c, r))
  {
    LastIsNew(s, |init|);
    assert (init + [r])[|init|] == r;
    assert |init| in s + {|init|} && forall i :: i in s ==> i in s + {|init|} && (init + [r])[i] == init[i];
  }

  lemma SpotJoins(init: seq<Row>, r: Row, spot: Option<map<int, SpotRow>>, s: set<nat>, sum: real, c: Tally)
    requires Indexes(s, |init|) && (forall i :: i in s ==> SpotAt(spot, init[i].time)) && SpotSide(init, spot, s, sum, c)
    ensures if SpotAt(spot, r.time)
            then SpotSide(init + [r], spot, s + {|init|}, sum + (spot.value[r.time].buy.value - spot.value[r.time].sell.value), AbsorbSpot(c, r.time, spot))
            else SpotSide(init + [r], spot, s, sum, AbsorbSpot(c, r.time, spot))
  {
    LastIsNew(s, |init|);
    assert (init + [r])[|init|] == r && |init| in s + {|init|};
    forall i: nat | LastOf(s, i)
      ensures (init + [r])[i] == init[i]
    {}
  }

  /** The spot side does not see the perp columns, nor the other way round. */
  lemma SidesApart(rows: seq<Row>, spot: Option<map<int, SpotRow>>, s: set<nat>, u: set<nat>, sum: real, both: real, c: Tally, r: Row, t: int)
    requires Indexes(s, |rows|) && Indexes(u, |rows|) && forall i :: i in u ==> SpotAt(spot, rows[i].time)
    ensures PerpSide(rows, s, sum, AbsorbSpot(c, t, spot)) <==> PerpSide(rows, s, sum, c)
    ensures SpotSide(rows, spot, u, both, AbsorbPerp(c, r)) <==> SpotSide(rows, spot, u, both, c)
  {}

  lemma StaysOut(init: seq<Row>, r: Row, spot: Option<map<int, SpotRow>>, s: set<nat>, u: set<nat>, sum: real, both: real, c: Tally)
    requires Indexes(s, |init|) && Indexes(u, |init|) && forall i :: i in u ==> SpotAt(spot, init[i].time)
    requires PerpSide(init, s, sum, c) && SpotSide(init, spot, u, both, c)
    ensures PerpSide(init + [r], s, sum, c) && SpotSide(init + [r], spot, u, both, c)
  {
    assert forall i :: i in s ==> (init + [r])[i] == init[i];
    forall i: nat | LastOf(s, i) || LastOf(u, i)
      ensures (init + [r])[i] == init[i]
    {}
  }

  lemma Joins(init: seq<Row>, r: Row, spot: Option<map<int, SpotRow>>, f: Frame, c: Tally)
    requires f.secs > 0 && IsTally(init, spot, f, c) && Spans(f, c.time, r.time)
    ensures IsTally(init + [r], spot, f, Absorb(c, r, spot))
  {
    var b, rows := c.time, init + [r];
    var s, u := RowsOf(init, f, b), SpotsOf(init, spot, f, b);
    RowsOfSnoc(init, r, f, b);
    SpotsOfSnoc(init, r, spot, f, b);
    PerpJoins(init, r, s, PerpSum(init, f, b), c);
    SidesApart(init, spot, {}, u, 0.0, SpotSum(init, spot, f, b), c, r, 0);
    SpotJoins(init, r, spot, u, SpotSum(init, spot, f, b), AbsorbPerp(c, r));
    SidesApart(rows, spot, RowsOf(rows, f, b), {}, PerpSum(rows, f, b), 0.0, AbsorbPerp(c, r), r, r.time);
  }

  /** The rows of one bar, wherever they stand, add up to its tally. */
  lemma {:induction false} GroupIsTally(rows: seq<Row>, spot: Option<map<int, SpotRow>>, f: Frame, b: int)
    requires f.secs > 0
    ensures Group(rows, spot, f, b).time == b && IsTally(rows, spot, f, Group(rows, spot, f, b))
  {
    if rows != [] {
      var init, r := rows[..|rows| - 1], rows[|rows| - 1];
      var c := Group(init, spot, f, b);
      RowsSnoc(rows);
      GroupIsTally(init, spot, f, b);
      SpansIsKey(f, b, r.time);
      if Spans(f, b, r.time) {
        Joins(init, r, spot, f, c);
      } else {
        RowsOfSnoc(init, r, f, b);
        SpotsOfSnoc(init, r, spot, f, b);
        StaysOut(init, r, spot, RowsOf(init, f, b), SpotsOf(init, spot, f, b), PerpSum(init, f, b), SpotSum(init, spot, f, b), c);
      }
    }
  }

  lemma {:induction false} NoEmptyBar(rows: seq<Row>, spot: Option<map<int, SpotRow>>, f: Frame, k: nat)
    requires f.secs > 0 && k < |Fold(rows, spot, f)|
    ensures Fold(rows, spot, f)[k].n > 0
  {
    if rows != [] {
      var init := rows[..|rows| - 1];
      if k < |Fold(init, spot, f)| { NoEmptyBar(init, spot, f, k); }
    }
  }

  /** Every bar of the fold has rows, and is their tally. */
  lemma TallyIs(rows: seq<Row>, spot: Option<map<int, SpotRow>>, f: Frame, k: nat)
    requires f.secs > 0 && Ordered(rows) && k < |Fold(rows, spot, f)|
    ensures var c := Fold(rows, spot, f)[k]; c.n > 0 && IsTally(rows, spot, f, c)
  {
    FoldGroups(rows, spot, f);
    NoEmptyBar(rows, spot, f, k);
    GroupIsTally(rows, spot, f, Fold(rows, spot, f)[k].time);
  }

  /** Every row that a finished bar can hold is in one bar of the fold. */
  lemma RowHasBar(rows: seq<Row>, spot: Option<map<int, SpotRow>>, f: Frame, i: nat)
    requires f.secs > 0 && Ordered(rows) && i < |rows|
    ensures exists k :: 0 <= k < |Fold(rows, spot, f)| && Spans(f, Fold(rows, spot, f)[k].time, rows[i].time)
  {
    FoldGroups(rows, spot, f);
    var b := Key(f, rows[i].time);
    SpansIsKey(f, b, rows[i].time);
    assert HasBar(Fold(rows, spot, f), b);
  }
}
