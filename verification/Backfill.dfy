/** Filling the windows of a kline table from a venue that answers range queries
    oldest first, at most a page at a time (data/sources/binance.py). */
module Backfill {
  import opened GridMath
  import opened Gaps
  import opened Prelude
  import opened SortedSets

  const PAGE_LIMIT := 1000

  datatype Kline = Kline(open: real, high: real, low: real, close: real, volume: real, trades: int)

  datatype Bar = Bar(ts: int, row: Kline)

  predicate Ascending(bars: seq<Bar>) {
    forall i, j :: 0 <= i < j < |bars| ==> bars[i].ts < bars[j].ts
  }

  // ---- the venue ----

  function InRange(src: seq<Bar>, a: int, b: int): seq<Bar> {
    if src == [] then []
    else
      var init, last := InRange(src[..|src| - 1], a, b), src[|src| - 1];
      if a <= last.ts <= b then init + [last] else init
  }

  lemma {:induction false} InRangeExact(src: seq<Bar>, a: int, b: int)
    requires Ascending(src)
    ensures Ascending(InRange(src, a, b))
    ensures forall x :: x in InRange(src, a, b) <==> x in src && a <= x.ts <= b
  {
    if src != [] {
      var init := src[..|src| - 1];
      InRangeExact(init, a, b);
      assert src == init + [src[|src| - 1]];
      forall k | 0 <= k < |InRange(init, a, b)|
        ensures InRange(init, a, b)[k].ts < src[|src| - 1].ts
      {
        assert InRange(init, a, b)[k] in init;
      }
    }
  }

  /** A query [a, b] returns the oldest rows of the range, up to the limit. */
  function Fetch(src: seq<Bar>, a: int, b: int, limit: nat): seq<Bar> {
    var all := InRange(src, a, b);
    if |all| <= limit then all else all[..limit]
  }

  /** A page holds every row of the range up to its last one, and the whole
      range when it is not full. */
  lemma FetchExact(src: seq<Bar>, a: int, b: int, limit: nat)
    requires Ascending(src) && limit > 0
    ensures var page := Fetch(src, a, b, limit);
      && Ascending(page)
      && (forall x :: x in page ==> x in src && a <= x.ts <= b)
      && (|page| < limit ==> forall x :: x in src && a <= x.ts <= b ==> x in page)
      && (page != [] ==> forall x :: x in src && a <= x.ts <= page[|page| - 1].ts ==> x in page)
  {
    InRangeExact(src, a, b);
    var all, page := InRange(src, a, b), Fetch(src, a, b, limit);
    assert forall k :: 0 <= k < |page| ==> page[k] == all[k] && all[k] in all;
    if page != [] {
      forall x | x in src && a <= x.ts <= page[|page| - 1].ts
        ensures x in page
      {
        assert x in all;
        var i :| 0 <= i < |all| && all[i] == x;
        assert i < |page| && page[i] == x;
      }
    }
  }

  // ---- counting the venue's rows ----

  function RowsIn(src: seq<Bar>, a: int, b: int): set<Bar> { set x | x in src && a <= x.ts <= b }

  function RowsCovered(src: seq<Bar>, gaps: seq<Window>): set<Bar> { set x | x in src && Covered(gaps, x.ts) }

  lemma Elements(init: seq<Bar>, last: Bar)
    ensures (set x | x in init + [last]) == (set x | x in init) + {last}
  {}

  lemma {:induction false} PageSize(page: seq<Bar>)
    requires Ascending(page)
    ensures |set x | x in page| == |page|
  {
    if page != [] {
      var init, last := page[..|page| - 1], page[|page| - 1];
      PageSize(init);
      Elements(init, last);
      assert page == init + [last];
      assert last !in init;
    }
  }

  lemma Smaller(s: set<Bar>, t: set<Bar>)
    requires s <= t
    ensures |s| <= |t|
  {
    assert t == s + (t - s);
  }

  lemma PageAdds(src: seq<Bar>, w: Window, cursor: int, page: seq<Bar>, to: int)
    requires Ascending(page) && w.0 <= cursor && cursor - 1 <= to
    requires forall x :: x in page ==> x in src && cursor <= x.ts <= to
    ensures |RowsIn(src, w.0, cursor - 1)| + |page| <= |RowsIn(src, w.0, to)|
    ensures (forall x :: x in src && cursor <= x.ts <= to ==> x in page) ==>
      |RowsIn(src, w.0, cursor - 1)| + |page| == |RowsIn(src, w.0, to)|
  {
    var before, all := RowsIn(src, w.0, cursor - 1), RowsIn(src, w.0, to);
    var rows := set x | x in page;
    PageSize(page);
    assert |before + rows| == |before| + |rows|;
    Smaller(before + rows, all);
    if forall x :: x in src && cursor <= x.ts <= to ==> x in page { assert all == before + rows; }
  }

  /** A page adds its rows to those before it, and on a grid there are no others up to the
      next cursor. */
  lemma PageCounted(src: seq<Bar>, cadence: int, w: Window, cursor: int, limit: nat, page: seq<Bar>)
    requires Ascending(src) && cadence > 0 && limit > 0 && w.0 <= cursor <= w.1 && page == Fetch(src, cursor, w.1, limit)
    ensures page != [] ==>
      var to := Min(page[|page| - 1].ts + cadence - 1, w.1);
      && |RowsIn(src, w.0, cursor - 1)| + |page| <= |RowsIn(src, w.0, to)|
      && (GridVenue(src, cadence) ==> |RowsIn(src, w.0, cursor - 1)| + |page| == |RowsIn(src, w.0, to)|)
    ensures |page| < limit ==> |RowsIn(src, w.0, cursor - 1)| + |page| == |RowsIn(src, w.0, w.1)|
  {
    FetchExact(src, cursor, w.1, limit);
    if page != [] {
      var next := page[|page| - 1].ts + cadence;
      forall x | x in page
        ensures x.ts <= Min(next - 1, w.1)
      {
        PageStampBound(page, x);
      }
      assert page[|page| - 1] in page;
      if GridVenue(src, cadence) { NoRowSkipped(src, page, cursor, cadence, next); }
      PageAdds(src, w, cursor, page, Min(next - 1, w.1));
    }
    if |page| < limit { PageAdds(src, w, cursor, page, w.1); }
  }

  function RowsToFill(src: seq<Bar>, ts: seq<int>, cadence: int, now: int, floor: Option<int>): set<Bar> {
    set x | x in src && ToFill(ts, cadence, now, floor, x.ts)
  }

  /** Windows that do not touch share no row. */
  lemma WindowCounted(src: seq<Bar>, gaps: seq<Window>, k: nat)
    requires k < |gaps| && Disjoint(gaps)
    ensures |RowsCovered(src, gaps[..k + 1])| == |RowsCovered(src, gaps[..k])| + |RowsIn(src, gaps[k].0, gaps[k].1)|
  {
    var before, own, all := RowsCovered(src, gaps[..k]), RowsIn(src, gaps[k].0, gaps[k].1), RowsCovered(src, gaps[..k + 1]);
    assert gaps[..k + 1] == gaps[..k] + [gaps[k]];
    forall x | x in src
      ensures x in all <==> x in before || x in own
      ensures !(x in before && x in own)
    {
      CoveredConcat(gaps[..k], [gaps[k]], x.ts);
      CoveredOne(gaps[k], x.ts);
      if x in before {
        var j :| 0 <= j < k && Inside(gaps[..k][j], x.ts);
        assert gaps[j].1 < gaps[k].0;
      }
    }
    assert all == before + own && before !! own;
  }

  ghost predicate AllClear(gaps: seq<Window>, down: set<int>) { forall k :: 0 <= k < |gaps| ==> Clear(gaps[k], down) }

  function Min(x: int, y: int): int { if x <= y then x else y }

  // ---- the table ----

  ghost predicate SameAt(a: map<int, Kline>, b: map<int, Kline>, x: int) {
    if x in a then x in b && b[x] == a[x] else x !in b
  }

  ghost predicate Holds(rows: map<int, Kline>, bar: Bar) { bar.ts in rows && rows[bar.ts] == bar.row }

  /** No request from inside the window fails. */
  ghost predicate Clear(w: Window, down: set<int>) { forall x :: x in down ==> !Inside(w, x) }

  /** The stamp lies in a window where no request fails, whatever fails in others. */
  ghost predicate Served(gaps: seq<Window>, down: set<int>, x: int) {
    exists k :: 0 <= k < |gaps| && Inside(gaps[k], x) && Clear(gaps[k], down)
  }

  class Table {
    var rows: map<int, Kline>

    constructor ()
      ensures rows == map[]
    {
      rows := map[];
    }

    /** SELECT the stamps in order. */
    method SortedStamps() returns (ts: seq<int>)
      ensures Increasing(ts)
      ensures forall x :: x in ts <==> x in rows
    {
      ts := Listed(rows.Keys);
    }

    /** INSERT OR REPLACE each row of a page. */
    method Upsert(page: seq<Bar>)
      requires Ascending(page)
      modifies this
      ensures forall k :: 0 <= k < |page| ==> Holds(rows, page[k])
      ensures forall x :: SameAt(old(rows), rows, x) || exists k :: 0 <= k < |page| && page[k].ts == x
    {
      for i := 0 to |page|
        invariant forall k :: 0 <= k < i ==> Holds(rows, page[k])
        invariant forall x :: SameAt(old(rows), rows, x) || exists k :: 0 <= k < i && page[k].ts == x
      {
        ghost var before := rows;
        rows := rows[page[i].ts := page[i].row];
        forall x
          ensures SameAt(old(rows), rows, x) || exists k :: 0 <= k < i + 1 && page[k].ts == x
        {
          assert SameAt(old(rows), before, x) || exists k :: 0 <= k < i && page[k].ts == x;
          if x == page[i].ts { assert page[i].ts == x; } else { assert SameAt(before, rows, x); }
        }
      }
    }

    /** Fetch one page and store it. The rows of the range are then stored up to
        the page's last stamp, or all of them when the page is not full. */
    method PullPage(src: seq<Bar>, cursor: int, end: int, limit: nat) returns (page: seq<Bar>)
      requires Ascending(src) && limit > 0
      modifies this
      ensures page == Fetch(src, cursor, end, limit)
      ensures Patched(old(rows), rows, src, (cursor, end))
      ensures forall b :: b in src && cursor <= b.ts <= Reach(page, end, limit) ==> Holds(rows, b)
    {
      page := Fetch(src, cursor, end, limit);
      FetchExact(src, cursor, end, limit);
      ghost var before := rows;
      Upsert(page);
      UpsertPatches(src, before, rows, page, (cursor, end));
    }

    /** Walk one window page by page. A request at a stamp in down fails and ends
        the window. Returns the number of rows written. */
    method FillGap(src: seq<Bar>, cadence: int, w: Window, limit: nat, down: set<int>) returns (written: nat)
      requires Ascending(src) && cadence > 0 && limit > 0
      modifies this
      ensures Patched(old(rows), rows, src, w)
      ensures Clear(w, down) && GridVenue(src, cadence) ==> HeldBelow(rows, src, w, w.1 + 1)
      ensures written <= |RowsIn(src, w.0, w.1)|
      ensures Clear(w, down) && GridVenue(src, cadence) ==> written == |RowsIn(src, w.0, w.1)|
    {
      written := 0;
      var cursor := w.0;
      assert RowsIn(src, w.0, w.0 - 1) == {};
      assert w.1 < w.0 ==> RowsIn(src, w.0, w.1) == {};
      ghost var upto := cursor;
      ghost var clean := Clear(w, down) && GridVenue(src, cadence);
      while cursor <= w.1
        invariant w.0 <= cursor && upto == cursor
        invariant Patched(old(rows), rows, src, w)
        invariant clean ==> HeldBelow(rows, src, w, upto)
        invariant written <= |RowsIn(src, w.0, Min(cursor - 1, w.1))|
        invariant clean ==> written == |RowsIn(src, w.0, Min(cursor - 1, w.1))|
        decreases w.1 - cursor
      {
        Smaller(RowsIn(src, w.0, cursor - 1), RowsIn(src, w.0, w.1));
        if cursor in down {
          assert Inside(w, cursor);
          break;
        }
        ghost var before := rows;
        var page := PullPage(src, cursor, w.1, limit);
        PageCounted(src, cadence, w, cursor, limit, page);
        PatchedTwice(old(rows), before, rows, src, w, (cursor, w.1));
        if clean { PageAdvances(src, before, rows, cadence, w, cursor, limit); }
        if page == [] {
          upto := w.1 + 1;
          break;
        }
        written := written + |page|;
        var next := page[|page| - 1].ts + cadence;
        PageAhead(src, cursor, w.1, limit);
        if next <= cursor { break; }
        cursor := next;
        upto := next;
        if |page| < limit {
          upto := if next <= w.1 then w.1 + 1 else next;
          break;
        }
      }
    }

    /** Every window in turn: a window in which nothing fails is filled, whatever
        happens in the others. */
    method FillAll(src: seq<Bar>, cadence: int, gaps: seq<Window>, limit: nat, down: set<int>) returns (written: nat)
      requires Ascending(src) && cadence > 0 && limit > 0
      modifies this
      ensures forall x :: !Covered(gaps, x) ==> SameAt(old(rows), rows, x)
      ensures forall x :: SameAt(old(rows), rows, x) || (x in rows && Bar(x, rows[x]) in src)
      ensures GridVenue(src, cadence) ==> forall b :: b in src && Served(gaps, down, b.ts) ==> Holds(rows, b)
      ensures Disjoint(gaps) ==> written <= |RowsCovered(src, gaps)|
      ensures Disjoint(gaps) && GridVenue(src, cadence) && AllClear(gaps, down) ==> written == |RowsCovered(src, gaps)|
    {
      written := 0;
      for k := 0 to |gaps|
        invariant forall x :: SameAt(old(rows), rows, x) || (x in rows && Bar(x, rows[x]) in src)
        invariant forall x :: SameAt(old(rows), rows, x) || Covered(gaps[..k], x)
        invariant GridVenue(src, cadence) ==> forall j :: 0 <= j < k && Clear(gaps[j], down) ==> HeldBelow(rows, src, gaps[j], gaps[j].1 + 1)
        invariant Disjoint(gaps) ==> written <= |RowsCovered(src, gaps[..k])|
        invariant Disjoint(gaps) && GridVenue(src, cadence) && AllClear(gaps, down) ==> written == |RowsCovered(src, gaps[..k])|
      {
        ghost var before := rows;
        var n := FillGap(src, cadence, gaps[k], limit, down);
        written := written + n;
        assert gaps[..k + 1] == gaps[..k] + [gaps[k]];
        forall x
          ensures Covered(gaps[..k + 1], x) <==> Covered(gaps[..k], x) || Inside(gaps[k], x)
        {
          CoveredConcat(gaps[..k], [gaps[k]], x);
          CoveredOne(gaps[k], x);
        }
        StillHeld(src, before, rows, gaps[k]);
        if Disjoint(gaps) { WindowCounted(src, gaps, k); }
      }
      assert gaps[..|gaps|] == gaps;
    }

    /** Detect the gaps and fill them (backfill_klines_1m, _1h and _interval); ts is the
        table's stamps as they were found. The number returned is that of the venue's rows
        that were to be filled, or less when a request failed. */
    method BackfillKlines(src: seq<Bar>, cadence: int, now: int, floor: Option<int>, down: set<int>)
      returns (written: nat, ghost ts: seq<int>)
      requires Ascending(src) && cadence > 0
      modifies this
      ensures Increasing(ts) && forall x :: x in ts <==> x in old(rows)
      ensures forall x :: SameAt(old(rows), rows, x) || (x in rows && Bar(x, rows[x]) in src)
      ensures OnOneGrid(ts, cadence, floor) ==>
        forall x :: OnGrid(x, cadence) && !ToFill(ts, cadence, now, floor, x) ==> SameAt(old(rows), rows, x)
      ensures GridVenue(src, cadence) ==>
        forall b :: b in src && Served(AllGaps(ts, cadence, now, floor), down, b.ts) ==> Holds(rows, b)
      ensures OnOneGrid(ts, cadence, floor) && GridVenue(src, cadence) && down == {} ==>
        forall b :: b in src && ToFill(ts, cadence, now, floor, b.ts) ==> Holds(rows, b)
      ensures OnOneGrid(ts, cadence, floor) && GridVenue(src, cadence) ==> written <= |RowsToFill(src, ts, cadence, now, floor)|
      ensures OnOneGrid(ts, cadence, floor) && GridVenue(src, cadence) && down == {} ==>
        written == |RowsToFill(src, ts, cadence, now, floor)|
    {
      var stamps := SortedStamps();
      ts := stamps;
      var gaps := FindGaps(stamps, cadence, now, floor);
      written := FillAll(src, cadence, gaps, PAGE_LIMIT, down);
      if OnOneGrid(ts, cadence, floor) {
        forall x | OnGrid(x, cadence)
          ensures Covered(gaps, x) <==> ToFill(ts, cadence, now, floor, x)
        {
          GapsExact(stamps, cadence, now, floor, x);
        }
        GapsDisjoint(stamps, cadence, now, floor);
        if GridVenue(src, cadence) { assert RowsCovered(src, gaps) == RowsToFill(src, ts, cadence, now, floor); }
      }
    }
  }

  ghost predicate OnOneGrid(ts: seq<int>, cadence: int, floor: Option<int>)
    requires cadence > 0
  {
    AllOnGrid(ts, cadence) && (floor.Some? ==> OnGrid(floor.value, cadence))
  }

  ghost predicate GridVenue(src: seq<Bar>, cadence: int)
    requires cadence > 0
  {
    forall b :: b in src ==> OnGrid(b.ts, cadence)
  }

  /** Outside the window nothing changed; inside, each row is as it was or as the
      venue has it, and none was lost. */
  ghost predicate Patched(before: map<int, Kline>, rows: map<int, Kline>, src: seq<Bar>, w: Window) {
    && (forall x :: !Inside(w, x) ==> SameAt(before, rows, x))
    && (forall x :: SameAt(before, rows, x) || (x in rows && Bar(x, rows[x]) in src))
  }

  ghost predicate HeldBelow(rows: map<int, Kline>, src: seq<Bar>, w: Window, upto: int) {
    forall b :: b in src && w.0 <= b.ts < upto && b.ts <= w.1 ==> Holds(rows, b)
  }

  lemma PageAhead(src: seq<Bar>, cursor: int, end: int, limit: nat)
    requires Ascending(src) && limit > 0
    ensures var page := Fetch(src, cursor, end, limit); page != [] ==> cursor <= page[|page| - 1].ts
  {
    FetchExact(src, cursor, end, limit);
    var page := Fetch(src, cursor, end, limit);
    if page != [] { assert page[|page| - 1] in page; }
  }

  /** One stored page moves the held stretch to the next cursor, or to the end of
      the window when the page was not full. */
  lemma PageAdvances(src: seq<Bar>, before: map<int, Kline>, rows: map<int, Kline>, cadence: int, w: Window, cursor: int, limit: nat)
    requires Ascending(src) && cadence > 0 && limit > 0 && GridVenue(src, cadence) && w.0 <= cursor
    requires HeldBelow(before, src, w, cursor) && Patched(before, rows, src, (cursor, w.1))
    requires forall b :: b in src && cursor <= b.ts <= Reach(Fetch(src, cursor, w.1, limit), w.1, limit) ==> Holds(rows, b)
    ensures var page := Fetch(src, cursor, w.1, limit);
      && (|page| < limit ==> HeldBelow(rows, src, w, w.1 + 1))
      && (page != [] ==> HeldBelow(rows, src, w, page[|page| - 1].ts + cadence))
  {
    var page := Fetch(src, cursor, w.1, limit);
    StillHeld(src, before, rows, (cursor, w.1));
    FetchExact(src, cursor, w.1, limit);
    if page != [] {
      var next := page[|page| - 1].ts + cadence;
      NoRowSkipped(src, page, cursor, cadence, next);
      forall b | b in src && w.0 <= b.ts < next && b.ts <= w.1
        ensures Holds(rows, b)
      {
        if cursor <= b.ts { PageStampBound(page, b); }
      }
    }
  }

  lemma PageStampBound(page: seq<Bar>, b: Bar)
    requires Ascending(page) && b in page
    ensures b.ts <= page[|page| - 1].ts
  {
  }

  function Reach(page: seq<Bar>, end: int, limit: nat): int {
    if |page| < limit || page == [] then end else page[|page| - 1].ts
  }

  lemma PatchedTwice(a: map<int, Kline>, b: map<int, Kline>, c: map<int, Kline>, src: seq<Bar>, w: Window, v: Window)
    requires Patched(a, b, src, w) && Patched(b, c, src, v) && w.0 <= v.0 && v.1 <= w.1
    ensures Patched(a, c, src, w)
  {
    forall x
      ensures SameAt(a, c, x) || (x in c && Bar(x, c[x]) in src)
      ensures !Inside(w, x) ==> SameAt(a, c, x)
    {
      assert SameAt(b, c, x) || (x in c && Bar(x, c[x]) in src);
      assert SameAt(a, b, x) || (x in b && Bar(x, b[x]) in src);
    }
  }

  /** A stored venue row stays stored: a patch can only write it again. */
  lemma StillHeld(src: seq<Bar>, before: map<int, Kline>, rows: map<int, Kline>, w: Window)
    requires Ascending(src) && Patched(before, rows, src, w)
    ensures forall b :: b in src && Holds(before, b) ==> Holds(rows, b)
  {
    forall b | b in src && Holds(before, b)
      ensures Holds(rows, b)
    {
      assert SameAt(before, rows, b.ts) || (b.ts in rows && Bar(b.ts, rows[b.ts]) in src);
    }
  }

  /** Storing a page of the venue patches the range it was asked for. */
  lemma UpsertPatches(src: seq<Bar>, before: map<int, Kline>, rows: map<int, Kline>, page: seq<Bar>, w: Window)
    requires forall k :: 0 <= k < |page| ==> page[k] in src && Inside(w, page[k].ts) && Holds(rows, page[k])
    requires forall x :: SameAt(before, rows, x) || exists k :: 0 <= k < |page| && page[k].ts == x
    ensures Patched(before, rows, src, w)
    ensures forall b :: b in page ==> Holds(rows, b)
  {
    forall x
      ensures SameAt(before, rows, x) || (x in rows && Bar(x, rows[x]) in src && Inside(w, x))
    {
      if !SameAt(before, rows, x) {
        var k :| 0 <= k < |page| && page[k].ts == x;
        assert Bar(x, rows[x]) == page[k];
      }
    }
  }

  /** A stamp that is stored is never one to fill, so on a grid the backfill
      leaves every stored row as it is. */
  lemma StoredIsNotToFill(ts: seq<int>, cadence: int, now: int, floor: Option<int>, x: int)
    requires cadence > 0 && Increasing(ts) && x in ts
    ensures !ToFill(ts, cadence, now, floor, x)
  {
    var i :| 0 <= i < |ts| && ts[i] == x;
  }

  /** With the venue on the grid, no row lies between a page's last stamp and the
      next cursor. */
  lemma NoRowSkipped(src: seq<Bar>, page: seq<Bar>, cursor: int, cadence: int, next: int)
    requires cadence > 0 && page != [] && next == page[|page| - 1].ts + cadence
    requires GridVenue(src, cadence) && forall b :: b in page ==> b in src
    requires forall b :: b in src && cursor <= b.ts <= page[|page| - 1].ts ==> b in page
    ensures forall b :: b in src && cursor <= b.ts < next ==> b in page
  {
    var last := page[|page| - 1];
    forall b | b in src && cursor <= b.ts < next
      ensures b in page
    {
      assert last in page;
      if last.ts < b.ts { GridStep(last.ts, b.ts, cadence); }
    }
  }
}
