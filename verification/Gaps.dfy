/** Missing stretches of a time series on a cadence grid: the windows that
    data/sources/binance.py and health.py find, what they cover and how many
    stamps they count. */
module Gaps {
  import opened GridMath
  import opened Prelude
  import opened SortedSets

  type Window = (int, int)

  predicate AllOnGrid(ts: seq<int>, cadence: int)
    requires cadence > 0
  {
    forall i :: 0 <= i < |ts| ==> OnGrid(ts[i], cadence)
  }

  predicate Inside(w: Window, x: int) { w.0 <= x <= w.1 }

  predicate Covered(gaps: seq<Window>, x: int) {
    exists k :: 0 <= k < |gaps| && Inside(gaps[k], x)
  }

  /** Windows in order, none empty, none touching the next. */
  predicate Disjoint(gaps: seq<Window>) {
    && (forall k :: 0 <= k < |gaps| ==> gaps[k].0 <= gaps[k].1)
    && (forall j, k :: 0 <= j < k < |gaps| ==> gaps[j].1 < gaps[k].0)
  }

  // ---- interior windows ----

  /** One window per pair of neighbours more than a cadence apart. */
  function Interior(ts: seq<int>, cadence: int): (gaps: seq<Window>) {
    if |ts| <= 1 then []
    else
      var n := |ts|;
      var before := Interior(ts[..n - 1], cadence);
      if ts[n - 1] - ts[n - 2] > cadence then before + [(ts[n - 2] + cadence, ts[n - 1] - cadence)] else before
  }

  lemma DisjointSnoc(gaps: seq<Window>, w: Window)
    requires Disjoint(gaps) && w.0 <= w.1 && forall k :: 0 <= k < |gaps| ==> gaps[k].1 < w.0
    ensures Disjoint(gaps + [w])
  {
  }

  predicate StartsOnGrid(gaps: seq<Window>, cadence: int)
    requires cadence > 0
  {
    forall k :: 0 <= k < |gaps| ==> OnGrid(gaps[k].0, cadence)
  }

  predicate Between(gaps: seq<Window>, lo: int, hi: int) {
    forall k :: 0 <= k < |gaps| ==> lo < gaps[k].0 && gaps[k].1 < hi
  }

  lemma {:induction false} InteriorShape(ts: seq<int>, cadence: int)
    requires cadence > 0 && Increasing(ts) && AllOnGrid(ts, cadence) && ts != []
    ensures Disjoint(Interior(ts, cadence)) && StartsOnGrid(Interior(ts, cadence), cadence)
    ensures Between(Interior(ts, cadence), ts[0], ts[|ts| - 1])
  {
    var n := |ts|;
    if n > 1 {
      var init, a, b := ts[..n - 1], ts[n - 2], ts[n - 1];
      InteriorShape(init, cadence);
      if b - a > cadence {
        GridStep(a, b, cadence);
        GridShift(a, cadence);
        GridShift(b, cadence);
        GridStep(a + cadence, b, cadence);
        DisjointSnoc(Interior(init, cadence), (a + cadence, b - cadence));
      }
    }
  }

  /** Exactly the absent grid stamps between the first and the last. */
  lemma {:induction false} InteriorExact(ts: seq<int>, cadence: int, x: int)
    requires cadence > 0 && Increasing(ts) && AllOnGrid(ts, cadence) && ts != [] && OnGrid(x, cadence)
    ensures Covered(Interior(ts, cadence), x) <==> ts[0] < x < ts[|ts| - 1] && x !in ts
  {
    if |ts| > 1 {
      InteriorExact(ts[..|ts| - 1], cadence, x);
      InteriorGrows(ts, cadence, x);
      AbsentGrows(ts, cadence, x);
    }
  }

  /** The grid stamps strictly between two neighbours. */
  lemma HoleExact(a: int, b: int, x: int, cadence: int)
    requires cadence > 0 && OnGrid(a, cadence) && OnGrid(b, cadence) && OnGrid(x, cadence) && a < b
    ensures a < x < b <==> b - a > cadence && Inside((a + cadence, b - cadence), x)
  {
    if a < x { GridNext(a, x, cadence); }
    if x < b { GridNext(x, b, cadence); }
  }

  lemma InitBelow(ts: seq<int>, x: int)
    requires Increasing(ts) && |ts| > 1 && x in ts[..|ts| - 1]
    ensures ts[0] <= x <= ts[|ts| - 2] < ts[|ts| - 1]
  {
    var k :| 0 <= k < |ts| - 1 && ts[k] == x;
  }

  /** What the last stamp adds to the stamps present and absent. */
  lemma AbsentGrows(ts: seq<int>, cadence: int, x: int)
    requires cadence > 0 && Increasing(ts) && AllOnGrid(ts, cadence) && |ts| > 1 && OnGrid(x, cadence)
    ensures var n := |ts|;
      (ts[0] < x < ts[n - 1] && x !in ts)
      <==> (ts[0] < x < ts[n - 2] && x !in ts[..n - 1])
           || (ts[n - 1] - ts[n - 2] > cadence && Inside((ts[n - 2] + cadence, ts[n - 1] - cadence), x))
  {
    var n := |ts|;
    InSnoc(ts, x);
    HoleExact(ts[n - 2], ts[n - 1], x, cadence);
    assert ts[..n - 1][n - 2] == ts[n - 2];
    if x in ts[..n - 1] { InitBelow(ts, x); }
  }

  lemma InteriorGrows(ts: seq<int>, cadence: int, x: int)
    requires |ts| > 1
    ensures var n := |ts|;
      Covered(Interior(ts, cadence), x)
      <==> Covered(Interior(ts[..n - 1], cadence), x)
           || (ts[n - 1] - ts[n - 2] > cadence && Inside((ts[n - 2] + cadence, ts[n - 1] - cadence), x))
  {
    var n := |ts|;
    var w := (ts[n - 2] + cadence, ts[n - 1] - cadence);
    CoveredConcat(Interior(ts[..n - 1], cadence), [w], x);
    CoveredOne(w, x);
  }

  // ---- _find_gaps ----

  /** The stamps _find_gaps asks to be filled: interior holes always; the tail
      when the last stamp is more than a cadence old; the head when the first
      stamp is more than a cadence above the floor. */
  predicate ToFill(ts: seq<int>, cadence: int, now: int, floor: Option<int>, x: int) {
    if ts == [] then floor.Some? && floor.value < now && floor.value <= x <= now
    else
      || (ts[0] < x < ts[|ts| - 1] && x !in ts)
      || (ts[|ts| - 1] < x <= now && now - ts[|ts| - 1] > cadence)
      || (floor.Some? && floor.value <= x < ts[0] && ts[0] - floor.value > cadence)
  }

  function TailWindow(ts: seq<int>, cadence: int, now: int): seq<Window>
    requires ts != []
  {
    var last := ts[|ts| - 1];
    if now - last > cadence then [(last + cadence, now)] else []
  }

  function HeadWindow(ts: seq<int>, cadence: int, floor: Option<int>): seq<Window>
    requires ts != []
  {
    if floor.Some? && ts[0] - floor.value > cadence then [(floor.value, ts[0] - cadence)] else []
  }

  function AllGaps(ts: seq<int>, cadence: int, now: int, floor: Option<int>): seq<Window> {
    if ts == [] then (if floor.Some? && floor.value < now then [(floor.value, now)] else [])
    else HeadWindow(ts, cadence, floor) + Interior(ts, cadence) + TailWindow(ts, cadence, now)
  }

  lemma CoveredConcat(a: seq<Window>, b: seq<Window>, x: int)
    ensures Covered(a + b, x) <==> Covered(a, x) || Covered(b, x)
  {
    if Covered(a, x) {
      var k :| 0 <= k < |a| && Inside(a[k], x);
      assert (a + b)[k] == a[k];
    }
    if Covered(b, x) {
      var k :| 0 <= k < |b| && Inside(b[k], x);
      assert (a + b)[|a| + k] == b[k];
    }
  }

  lemma CoveredOne(w: Window, x: int)
    ensures Covered([w], x) <==> Inside(w, x)
  {
    if Inside(w, x) { assert Inside([w][0], x); }
  }

  /** The windows cover exactly the stamps to fill, in order and apart. */
  lemma GapsExact(ts: seq<int>, cadence: int, now: int, floor: Option<int>, x: int)
    requires cadence > 0 && Increasing(ts) && AllOnGrid(ts, cadence) && OnGrid(x, cadence)
    requires floor.Some? ==> OnGrid(floor.value, cadence)
    ensures Covered(AllGaps(ts, cadence, now, floor), x) <==> ToFill(ts, cadence, now, floor, x)
  {
    if ts == [] {
      if floor.Some? { CoveredOne((floor.value, now), x); }
    } else {
      var last := ts[|ts| - 1];
      var head, middle, tail := HeadWindow(ts, cadence, floor), Interior(ts, cadence), TailWindow(ts, cadence, now);
      CoveredConcat(head + middle, tail, x);
      CoveredConcat(head, middle, x);
      InteriorExact(ts, cadence, x);
      CoveredOne((last + cadence, now), x);
      if last < x { GridStep(last, x, cadence); }
      if floor.Some? { CoveredOne((floor.value, ts[0] - cadence), x); }
      if x < ts[0] { GridStep(x, ts[0], cadence); }
    }
  }

  predicate EndBefore(gaps: seq<Window>, at: int) { forall k :: 0 <= k < |gaps| ==> gaps[k].1 < at }

  predicate StartAfter(gaps: seq<Window>, at: int) { forall k :: 0 <= k < |gaps| ==> at < gaps[k].0 }

  lemma HeadShape(ts: seq<int>, cadence: int, floor: Option<int>)
    requires cadence > 0 && ts != [] && (floor.Some? ==> OnGrid(floor.value, cadence))
    ensures var head := HeadWindow(ts, cadence, floor);
      Disjoint(head) && StartsOnGrid(head, cadence) && EndBefore(head, ts[0])
  {
  }

  lemma HeadAndInteriorShape(ts: seq<int>, cadence: int, floor: Option<int>)
    requires cadence > 0 && Increasing(ts) && AllOnGrid(ts, cadence) && ts != []
    requires floor.Some? ==> OnGrid(floor.value, cadence)
    ensures var gaps := HeadWindow(ts, cadence, floor) + Interior(ts, cadence);
      Disjoint(gaps) && StartsOnGrid(gaps, cadence) && EndBefore(gaps, ts[|ts| - 1])
  {
    var head, middle := HeadWindow(ts, cadence, floor), Interior(ts, cadence);
    HeadShape(ts, cadence, floor);
    InteriorShape(ts, cadence);
    DisjointConcat(head, middle, ts[0]);
    StartsConcat(head, middle, cadence);
  }

  lemma GapsDisjoint(ts: seq<int>, cadence: int, now: int, floor: Option<int>)
    requires cadence > 0 && Increasing(ts) && AllOnGrid(ts, cadence)
    requires floor.Some? ==> OnGrid(floor.value, cadence)
    ensures Disjoint(AllGaps(ts, cadence, now, floor)) && StartsOnGrid(AllGaps(ts, cadence, now, floor), cadence)
  {
    if ts != [] {
      HeadAndInteriorShape(ts, cadence, floor);
      WithTail(HeadWindow(ts, cadence, floor) + Interior(ts, cadence), ts, cadence, now);
    }
  }

  lemma WithTail(gaps: seq<Window>, ts: seq<int>, cadence: int, now: int)
    requires cadence > 0 && ts != [] && OnGrid(ts[|ts| - 1], cadence)
    requires Disjoint(gaps) && StartsOnGrid(gaps, cadence) && EndBefore(gaps, ts[|ts| - 1])
    ensures Disjoint(gaps + TailWindow(ts, cadence, now)) && StartsOnGrid(gaps + TailWindow(ts, cadence, now), cadence)
  {
    var last := ts[|ts| - 1];
    if now - last > cadence { TailShape(gaps, last, now, cadence); } else { assert gaps + [] == gaps; }
  }

  lemma TailShape(gaps: seq<Window>, last: int, now: int, cadence: int)
    requires cadence > 0 && Disjoint(gaps) && StartsOnGrid(gaps, cadence) && EndBefore(gaps, last)
    requires OnGrid(last, cadence) && now - last > cadence
    ensures Disjoint(gaps + [(last + cadence, now)]) && StartsOnGrid(gaps + [(last + cadence, now)], cadence)
  {
    GridShift(last, cadence);
    DisjointSnoc(gaps, (last + cadence, now));
    StartsConcat(gaps, [(last + cadence, now)], cadence);
  }

  lemma StartsConcat(a: seq<Window>, b: seq<Window>, cadence: int)
    requires cadence > 0 && StartsOnGrid(a, cadence) && StartsOnGrid(b, cadence)
    ensures StartsOnGrid(a + b, cadence)
  {
  }

  lemma DisjointConcat(a: seq<Window>, b: seq<Window>, at: int)
    requires Disjoint(a) && Disjoint(b)
    requires EndBefore(a, at) && StartAfter(b, at)
    ensures Disjoint(a + b)
  {
  }

  /** A one-bar hole right at the floor is never reported. */
  lemma OneBarHeadIsSilent(first: int, cadence: int, now: int)
    requires cadence > 0 && OnGrid(first, cadence)
    ensures !Covered(AllGaps([first], cadence, now, Some(first - cadence)), first - cadence)
  {
    GridShift(first, cadence);
    GapsExact([first], cadence, now, Some(first - cadence), first - cadence);
  }

  lemma InteriorSnoc(ts: seq<int>, cadence: int, i: nat)
    requires i < |ts|
    ensures Interior(ts[..i + 1], cadence)
         == Interior(ts[..i], cadence)
            + (if i > 0 && ts[i] - ts[i - 1] > cadence then [(ts[i - 1] + cadence, ts[i] - cadence)] else [])
  {
    assert ts[..i + 1][..i] == ts[..i];
  }

  /** The query and its three additions, in the order of the source; the final
      sort puts the head window, added last, first. */
  method FindGaps(ts: seq<int>, cadence: int, now: int, floor: Option<int>) returns (gaps: seq<Window>)
    requires Increasing(ts)
    ensures gaps == AllGaps(ts, cadence, now, floor)
  {
    gaps := [];
    for i := 0 to |ts|
      invariant gaps == Interior(ts[..i], cadence)
    {
      InteriorSnoc(ts, cadence, i);
      if i > 0 && ts[i] - ts[i - 1] > cadence {
        gaps := gaps + [(ts[i - 1] + cadence, ts[i] - cadence)];
      }
    }
    if |ts| == 0 {
      if floor.Some? && floor.value < now { gaps := [(floor.value, now)]; }
      return;
    }
    assert ts[..|ts|] == ts;
    var last := ts[|ts| - 1];
    if now - last > cadence { gaps := gaps + [(last + cadence, now)]; }
    if floor.Some? && ts[0] - floor.value > cadence { gaps := [(floor.value, ts[0] - cadence)] + gaps; }
  }

  // ---- counting ----

  function CountIn(w: Window, cadence: int): int
    requires cadence > 0
  {
    (w.1 - w.0) / cadence + 1
  }

  function MissingCount(gaps: seq<Window>, cadence: int): int
    requires cadence > 0
  {
    if gaps == [] then 0 else MissingCount(gaps[..|gaps| - 1], cadence) + CountIn(gaps[|gaps| - 1], cadence)
  }

  /** The grid stamps from a to b. */
  function GridPoints(a: int, b: int, cadence: int): (s: set<int>)
    requires cadence > 0
    decreases b - a
  {
    if b < a then {} else {a} + GridPoints(a + cadence, b, cadence)
  }

  lemma {:induction false} GridPointIff(a: int, b: int, cadence: int, x: int)
    requires cadence > 0 && OnGrid(a, cadence)
    ensures x in GridPoints(a, b, cadence) <==> a <= x <= b && OnGrid(x, cadence)
    decreases b - a
  {
    if a <= b {
      GridShift(a, cadence);
      GridPointIff(a + cadence, b, cadence, x);
      if a < x && OnGrid(x, cadence) { GridNext(a, x, cadence); }
    }
  }

  lemma CountStep(a: int, b: int, cadence: int)
    requires cadence > 0 && a <= b
    ensures CountIn((a, b), cadence) == (if a + cadence <= b then CountIn((a + cadence, b), cadence) else 0) + 1
  {
    if a + cadence <= b { DivStep(b - a, cadence); } else { QuotientUnique(b - a, cadence, 0, b - a); }
  }

  lemma {:induction false} GridPointsCounted(a: int, b: int, cadence: int)
    requires cadence > 0 && OnGrid(a, cadence) && a <= b
    ensures |GridPoints(a, b, cadence)| == CountIn((a, b), cadence)
    decreases b - a
  {
    GridShift(a, cadence);
    GridPointIff(a + cadence, b, cadence, a);
    CountStep(a, b, cadence);
    if a + cadence <= b { GridPointsCounted(a + cadence, b, cadence); }
  }

  lemma GridPointsExact(a: int, b: int, cadence: int)
    requires cadence > 0 && OnGrid(a, cadence)
    ensures forall x :: x in GridPoints(a, b, cadence) <==> a <= x <= b && OnGrid(x, cadence)
    ensures a <= b ==> |GridPoints(a, b, cadence)| == CountIn((a, b), cadence)
  {
    forall x
      ensures x in GridPoints(a, b, cadence) <==> a <= x <= b && OnGrid(x, cadence)
    {
      GridPointIff(a, b, cadence, x);
    }
    if a <= b { GridPointsCounted(a, b, cadence); }
  }

  function MissingSet(gaps: seq<Window>, cadence: int): set<int>
    requires cadence > 0
  {
    if gaps == [] then {}
    else MissingSet(gaps[..|gaps| - 1], cadence) + GridPoints(gaps[|gaps| - 1].0, gaps[|gaps| - 1].1, cadence)
  }

  lemma {:induction false} MissingSetExact(gaps: seq<Window>, cadence: int)
    requires cadence > 0 && StartsOnGrid(gaps, cadence)
    ensures forall x :: x in MissingSet(gaps, cadence) <==> Covered(gaps, x) && OnGrid(x, cadence)
  {
    if gaps != [] {
      var init, w := gaps[..|gaps| - 1], gaps[|gaps| - 1];
      MissingSetExact(init, cadence);
      GridPointsExact(w.0, w.1, cadence);
      assert gaps == init + [w];
      forall x
        ensures Covered(gaps, x) <==> Covered(init, x) || Inside(w, x)
      {
        CoveredConcat(init, [w], x);
        CoveredOne(w, x);
      }
    }
  }

  lemma LastApart(gaps: seq<Window>, cadence: int)
    requires cadence > 0 && Disjoint(gaps) && StartsOnGrid(gaps, cadence) && gaps != []
    ensures MissingSet(gaps[..|gaps| - 1], cadence) !! GridPoints(gaps[|gaps| - 1].0, gaps[|gaps| - 1].1, cadence)
  {
    var init, w := gaps[..|gaps| - 1], gaps[|gaps| - 1];
    MissingSetExact(init, cadence);
    GridPointsExact(w.0, w.1, cadence);
    forall x | x in MissingSet(init, cadence)
      ensures x !in GridPoints(w.0, w.1, cadence)
    {
      var k :| 0 <= k < |init| && Inside(init[k], x);
      assert init[k] == gaps[k];
    }
  }

  lemma DisjointSize(s: set<int>, t: set<int>)
    requires s !! t
    ensures |s + t| == |s| + |t|
  {}

  /** _missing_count is the number of grid stamps the windows cover. */
  lemma {:induction false} MissingCountExact(gaps: seq<Window>, cadence: int)
    requires cadence > 0 && Disjoint(gaps) && StartsOnGrid(gaps, cadence)
    ensures |MissingSet(gaps, cadence)| == MissingCount(gaps, cadence)
  {
    if gaps != [] {
      var init, w := gaps[..|gaps| - 1], gaps[|gaps| - 1];
      MissingCountExact(init, cadence);
      GridPointsExact(w.0, w.1, cadence);
      LastApart(gaps, cadence);
      DisjointSize(MissingSet(init, cadence), GridPoints(w.0, w.1, cadence));
    }
  }
}
