/** The continuity check of health.py: every stamp between the first and the
    last row of a table is stored, missing and fillable, or missing inside a
    window known to have no source. */
module RowAccounting {
  import opened GridMath
  import opened Gaps
  import opened SortedSets

  /** A gap is unfillable when one known window contains all of it. */
  predicate IsUnfillable(gap: Window, known: seq<Window>) {
    exists k :: 0 <= k < |known| && known[k].0 <= gap.0 && gap.1 <= known[k].1
  }

  ghost predicate AllInside(gap: Window, w: Window) { forall x :: Inside(gap, x) ==> Inside(w, x) }

  /** ... that is, when every stamp of it lies in that same window. */
  lemma UnfillableIff(gap: Window, known: seq<Window>)
    requires gap.0 <= gap.1
    ensures IsUnfillable(gap, known) <==> exists k :: 0 <= k < |known| && AllInside(gap, known[k])
  {
    assert Inside(gap, gap.0) && Inside(gap, gap.1);
    forall k | 0 <= k < |known|
      ensures AllInside(gap, known[k]) <==> known[k].0 <= gap.0 && gap.1 <= known[k].1
    {
      if AllInside(gap, known[k]) { assert Inside(known[k], gap.0) && Inside(known[k], gap.1); }
    }
  }

  function Fillable(gaps: seq<Window>, known: seq<Window>): seq<Window> {
    if gaps == [] then []
    else
      var before, last := Fillable(gaps[..|gaps| - 1], known), gaps[|gaps| - 1];
      if IsUnfillable(last, known) then before else before + [last]
  }

  function UnfillableRows(gaps: seq<Window>, known: seq<Window>, cadence: int): int
    requires cadence > 0
  {
    if gaps == [] then 0
    else UnfillableRows(gaps[..|gaps| - 1], known, cadence)
         + (if IsUnfillable(gaps[|gaps| - 1], known) then CountIn(gaps[|gaps| - 1], cadence) else 0)
  }

  function Expected(ts: seq<int>, cadence: int): int
    requires cadence > 0 && ts != []
  {
    (ts[|ts| - 1] - ts[0]) / cadence + 1
  }

  /** However the known windows split the gaps, no row is counted twice or lost. */
  lemma {:induction false} SplitKeepsCount(gaps: seq<Window>, known: seq<Window>, cadence: int)
    requires cadence > 0
    ensures MissingCount(Fillable(gaps, known), cadence) + UnfillableRows(gaps, known, cadence) == MissingCount(gaps, cadence)
  {
    if gaps != [] {
      var init := gaps[..|gaps| - 1];
      SplitKeepsCount(init, known, cadence);
      assert (Fillable(init, known) + [gaps[|gaps| - 1]])[..|Fillable(init, known)|] == Fillable(init, known);
    }
  }

  /** From one stamp to the next: the step between them is the gap plus one. */
  lemma StepAccounts(a: int, b: int, first: int, cadence: int)
    requires cadence > 0 && OnGrid(a, cadence) && OnGrid(b, cadence) && OnGrid(first, cadence) && first <= a < b
    ensures (b - first) / cadence - (a - first) / cadence
         == 1 + (if b - a > cadence then CountIn((a + cadence, b - cadence), cadence) else 0)
  {
    GridStep(a, b, cadence);
    var d := (b - a) / cadence;
    DivShift(a - first, d, cadence);
    assert b - first == a - first + d * cadence;
    if b - a > cadence {
      DivShift(b - a, -2, cadence);
      assert b - cadence - (a + cadence) == b - a + -2 * cadence;
    } else {
      QuotientUnique(b - a, cadence, 1, 0);
    }
  }

  lemma InteriorCountGrows(ts: seq<int>, cadence: int)
    requires cadence > 0 && |ts| > 1
    ensures var a, b := ts[|ts| - 2], ts[|ts| - 1];
      MissingCount(Interior(ts, cadence), cadence)
        == MissingCount(Interior(ts[..|ts| - 1], cadence), cadence)
           + (if b - a > cadence then CountIn((a + cadence, b - cadence), cadence) else 0)
  {
    var before, a, b := Interior(ts[..|ts| - 1], cadence), ts[|ts| - 2], ts[|ts| - 1];
    assert (before + [(a + cadence, b - cadence)])[..|before|] == before;
  }

  lemma ExpectedGrows(ts: seq<int>, cadence: int)
    requires cadence > 0 && Increasing(ts) && AllOnGrid(ts, cadence) && |ts| > 1
    ensures var a, b := ts[|ts| - 2], ts[|ts| - 1];
      Expected(ts, cadence) == Expected(ts[..|ts| - 1], cadence) + 1
                               + (if b - a > cadence then CountIn((a + cadence, b - cadence), cadence) else 0)
  {
    StepAccounts(ts[|ts| - 2], ts[|ts| - 1], ts[0], cadence);
  }

  lemma {:induction false} InteriorAccounts(ts: seq<int>, cadence: int)
    requires cadence > 0 && Increasing(ts) && AllOnGrid(ts, cadence) && ts != []
    ensures |ts| + MissingCount(Interior(ts, cadence), cadence) == Expected(ts, cadence)
  {
    if |ts| > 1 {
      InteriorAccounts(ts[..|ts| - 1], cadence);
      InteriorCountGrows(ts, cadence);
      ExpectedGrows(ts, cadence);
    }
  }

  /** stored + fillable missing + unfillable missing = expected */
  lemma RowsAccountedFor(ts: seq<int>, known: seq<Window>, cadence: int)
    requires cadence > 0 && Increasing(ts) && AllOnGrid(ts, cadence) && ts != []
    ensures var gaps := Interior(ts, cadence);
      |ts| + MissingCount(Fillable(gaps, known), cadence) + UnfillableRows(gaps, known, cadence) == Expected(ts, cadence)
  {
    InteriorAccounts(ts, cadence);
    SplitKeepsCount(Interior(ts, cadence), known, cadence);
  }

  /** Nothing is missing exactly when the stored rows are all that is expected. */
  lemma NoGapsIff(ts: seq<int>, cadence: int)
    requires cadence > 0 && Increasing(ts) && AllOnGrid(ts, cadence) && ts != []
    ensures Interior(ts, cadence) == [] <==> |ts| == Expected(ts, cadence)
  {
    InteriorAccounts(ts, cadence);
    InteriorShape(ts, cadence);
    MissingCountExact(Interior(ts, cadence), cadence);
    var gaps := Interior(ts, cadence);
    if gaps != [] {
      MissingSetExact(gaps, cadence);
      assert Covered(gaps, gaps[0].0) by { assert Inside(gaps[0], gaps[0].0); }
      assert gaps[0].0 in MissingSet(gaps, cadence);
    }
  }

  /** The classification loop. */
  method Classify(ts: seq<int>, known: seq<Window>, cadence: int) returns (fillable: seq<Window>, unfillableRows: int)
    requires cadence > 0 && Increasing(ts)
    ensures fillable == Fillable(Interior(ts, cadence), known)
    ensures unfillableRows == UnfillableRows(Interior(ts, cadence), known, cadence)
    ensures ts != [] && AllOnGrid(ts, cadence) ==>
      |ts| + MissingCount(fillable, cadence) + unfillableRows == Expected(ts, cadence)
  {
    var gaps := Interior(ts, cadence);
    fillable, unfillableRows := [], 0;
    for k := 0 to |gaps|
      invariant fillable == Fillable(gaps[..k], known) && unfillableRows == UnfillableRows(gaps[..k], known, cadence)
    {
      assert gaps[..k + 1][..k] == gaps[..k];
      if IsUnfillable(gaps[k], known) {
        unfillableRows := unfillableRows + (gaps[k].1 - gaps[k].0) / cadence + 1;
      } else {
        fillable := fillable + [gaps[k]];
      }
    }
    assert gaps[..|gaps|] == gaps;
    if ts != [] && AllOnGrid(ts, cadence) { RowsAccountedFor(ts, known, cadence); }
  }
}
