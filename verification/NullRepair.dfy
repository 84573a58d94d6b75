/** Re-fetching the bars whose taker volumes are null (data/sources/binance.py
    `repair_null_taker_volumes`): only those rows are touched. */
module NullRepair {
  import opened Backfill
  import opened Gaps
  import opened GridMath
  import opened SortedSets

  const CADENCE := 3600

  /** A stored bar; `takers` when its taker volumes are present. */
  datatype Row = Row(kline: Kline, takers: bool)

  function Nulls(rows: map<int, Row>): set<int> { set x | x in rows && !rows[x].takers }

  // ---- the ranges ----

  /** The last range reaches to t. */
  function Stretched(r: seq<Window>, t: int): seq<Window>
    requires r != []
  {
    r[..|r| - 1] + [(r[|r| - 1].0, t)]
  }

  /** Runs of null stamps, each within a cadence of the one before. */
  function Ranges(ts: seq<int>, cadence: int): (r: seq<Window>)
    ensures ts != [] ==> r != [] && r[|r| - 1].1 == ts[|ts| - 1]
  {
    if ts == [] then []
    else
      var t, before := ts[|ts| - 1], Ranges(ts[..|ts| - 1], cadence);
      if |ts| > 1 && t - ts[|ts| - 2] <= cadence then Stretched(before, t) else before + [(t, t)]
  }

  lemma StretchShape(r: seq<Window>, t: int, cadence: int)
    requires cadence > 0 && r != [] && Disjoint(r) && StartsOnGrid(r, cadence) && r[|r| - 1].1 < t
    ensures Disjoint(Stretched(r, t)) && StartsOnGrid(Stretched(r, t), cadence)
  {}

  lemma AppendShape(r: seq<Window>, t: int, cadence: int)
    requires cadence > 0 && Disjoint(r) && StartsOnGrid(r, cadence) && OnGrid(t, cadence)
    requires r != [] ==> r[|r| - 1].1 < t
    ensures Disjoint(r + [(t, t)]) && StartsOnGrid(r + [(t, t)], cadence)
  {
    forall k | 0 <= k < |r|
      ensures r[k].1 < t
    {
      if k < |r| - 1 { assert r[k].1 < r[|r| - 1].0 <= r[|r| - 1].1; }
    }
  }

  lemma StretchCovers(r: seq<Window>, prev: int, t: int, cadence: int, x: int)
    requires cadence > 0 && r != [] && Disjoint(r) && r[|r| - 1].1 == prev < t <= prev + cadence
    requires OnGrid(prev, cadence) && OnGrid(t, cadence) && OnGrid(x, cadence)
    ensures Covered(Stretched(r, t), x) <==> Covered(r, x) || x == t
  {
    var head, last := r[..|r| - 1], r[|r| - 1];
    assert r == head + [last];
    CoveredConcat(head, [last], x);
    CoveredConcat(head, [(last.0, t)], x);
    CoveredOne(last, x);
    CoveredOne((last.0, t), x);
    if prev < x { GridStep(prev, x, cadence); }
  }

  lemma {:induction false} RangesShape(ts: seq<int>, cadence: int)
    requires cadence > 0 && Increasing(ts) && AllOnGrid(ts, cadence)
    ensures Disjoint(Ranges(ts, cadence)) && StartsOnGrid(Ranges(ts, cadence), cadence)
  {
    if ts != [] {
      var init, t := ts[..|ts| - 1], ts[|ts| - 1];
      RangesShape(init, cadence);
      if |ts| > 1 {
        assert init[|init| - 1] == ts[|ts| - 2] < t;
        StretchShape(Ranges(init, cadence), t, cadence);
      }
      AppendShape(Ranges(init, cadence), t, cadence);
    }
  }

  /** The grid stamps the ranges cover are exactly the null ones: no filled bar is
      fetched again. */
  lemma {:induction false} RangesExact(ts: seq<int>, cadence: int, x: int)
    requires cadence > 0 && Increasing(ts) && AllOnGrid(ts, cadence) && OnGrid(x, cadence)
    ensures Covered(Ranges(ts, cadence), x) <==> x in ts
  {
    if ts != [] {
      var init, t := ts[..|ts| - 1], ts[|ts| - 1];
      var before := Ranges(init, cadence);
      RangesExact(init, cadence, x);
      RangesShape(init, cadence);
      assert x in ts <==> x in init || x == t by { assert ts == init + [t]; }
      if |ts| > 1 && t - ts[|ts| - 2] <= cadence {
        assert init[|init| - 1] == ts[|ts| - 2];
        StretchCovers(before, ts[|ts| - 2], t, cadence, x);
      } else {
        CoveredConcat(before, [(t, t)], x);
        CoveredOne((t, t), x);
      }
    }
  }

  lemma RangesCount(ts: seq<int>, cadence: int, s: set<int>)
    requires cadence > 0 && Increasing(ts) && AllOnGrid(ts, cadence) && forall x :: x in ts <==> x in s
    ensures MissingCount(Ranges(ts, cadence), cadence) == |s|
  {
    var r := Ranges(ts, cadence);
    RangesShape(ts, cadence);
    MissingCountExact(r, cadence);
    MissingSetExact(r, cadence);
    forall x
      ensures x in MissingSet(r, cadence) <==> x in s
    {
      if x in s {
        assert x in ts;
        RangesExact(ts, cadence, x);
      }
      if x in MissingSet(r, cadence) { RangesExact(ts, cadence, x); }
    }
    assert MissingSet(r, cadence) == s;
  }

  // ---- what a repair may do ----

  /** No row came or went; a changed row was null and now is the venue's bar. */
  ghost predicate Touched(before: map<int, Row>, rows: map<int, Row>, src: seq<Bar>) {
    && rows.Keys == before.Keys
    && forall x :: x in before ==> rows[x] == before[x] || (!before[x].takers && rows[x].takers && Bar(x, rows[x].kline) in src)
  }

  ghost predicate Cleared(rows: map<int, Row>, b: Bar) { b.ts in rows ==> rows[b.ts].takers }

  lemma TouchedTwice(a: map<int, Row>, b: map<int, Row>, c: map<int, Row>, src: seq<Bar>)
    requires Touched(a, b, src) && Touched(b, c, src)
    ensures Touched(a, c, src)
    ensures forall bar :: Cleared(b, bar) ==> Cleared(c, bar)
  {
    forall x | x in a
      ensures c[x] == a[x] || (!a[x].takers && c[x].takers && Bar(x, c[x].kline) in src)
    {
      assert x in b && x in c;
      assert c[x] == b[x] || !b[x].takers;
    }
  }

  ghost predicate ClearedBelow(rows: map<int, Row>, src: seq<Bar>, w: Window, upto: int) {
    forall b :: b in src && w.0 <= b.ts < upto && b.ts <= w.1 ==> Cleared(rows, b)
  }

  /** A page clears its stretch, up to the next cursor or the end of the window. */
  lemma PageClears(src: seq<Bar>, rows: map<int, Row>, w: Window, cursor: int, limit: nat, cadence: int)
    requires Ascending(src) && limit > 0 && cadence > 0 && w.0 <= cursor && GridVenue(src, cadence)
    requires ClearedBelow(rows, src, w, cursor)
    requires forall b :: b in Fetch(src, cursor, w.1, limit) ==> Cleared(rows, b)
    ensures var page := Fetch(src, cursor, w.1, limit);
            && (|page| < limit ==> ClearedBelow(rows, src, w, w.1 + 1))
            && (page != [] ==> ClearedBelow(rows, src, w, page[|page| - 1].ts + cadence))
  {
    var page := Fetch(src, cursor, w.1, limit);
    FetchExact(src, cursor, w.1, limit);
    if page != [] { NoRowSkipped(src, page, cursor, cadence, page[|page| - 1].ts + cadence); }
  }

  ghost predicate HourlyNulls(rows: map<int, Row>) { forall x :: x in rows && !rows[x].takers ==> x % 3600 == 0 }

  /** No null row appears, so the rows filled are the nulls that went. */
  lemma FilledCount(before: map<int, Row>, rows: map<int, Row>, src: seq<Bar>)
    requires Touched(before, rows, src)
    ensures |set x | x in before && !before[x].takers && rows[x].takers| == |Nulls(before)| - |Nulls(rows)|
  {
    var filled := set x | x in before && !before[x].takers && rows[x].takers;
    forall x
      ensures x in Nulls(before) <==> x in filled || x in Nulls(rows)
    {
      if x in rows { assert x in before && (rows[x] == before[x] || !before[x].takers); }
    }
    assert Nulls(before) == filled + Nulls(rows);
  }

  lemma ServedCleared(rows: map<int, Row>, src: seq<Bar>, ranges: seq<Window>, down: set<int>)
    requires forall j :: 0 <= j < |ranges| && Clear(ranges[j], down) ==> ClearedBelow(rows, src, ranges[j], ranges[j].1 + 1)
    ensures forall b :: b in src && Served(ranges, down, b.ts) ==> Cleared(rows, b)
  {
    forall b | b in src && Served(ranges, down, b.ts)
      ensures Cleared(rows, b)
    {
      var j :| 0 <= j < |ranges| && Inside(ranges[j], b.ts) && Clear(ranges[j], down);
      assert ClearedBelow(rows, src, ranges[j], ranges[j].1 + 1);
    }
  }

  class Table {
    var rows: map<int, Row>

    constructor (rows: map<int, Row>)
      ensures this.rows == rows
    {
      this.rows := rows;
    }

    /** UPDATE ... WHERE timestamp = ? AND volume_buy IS NULL, for each bar. */
    method UpdateNulls(src: seq<Bar>, page: seq<Bar>)
      requires forall b :: b in page ==> b in src
      modifies this
      ensures Touched(old(rows), rows, src)
      ensures forall b :: b in page ==> Cleared(rows, b)
    {
      for i := 0 to |page|
        invariant Touched(old(rows), rows, src)
        invariant forall k :: 0 <= k < i ==> Cleared(rows, page[k])
      {
        assert page[i] in page;
        var t := page[i].ts;
        if t in rows && !rows[t].takers { rows := rows[t := Row(page[i].row, true)]; }
      }
    }

    method FillRange(src: seq<Bar>, w: Window, cadence: int, limit: nat, down: set<int>)
      requires Ascending(src) && cadence > 0 && limit > 0
      modifies this
      ensures Touched(old(rows), rows, src)
      ensures Clear(w, down) && GridVenue(src, cadence) ==> ClearedBelow(rows, src, w, w.1 + 1)
    {
      var cursor := w.0;
      ghost var clean := Clear(w, down) && GridVenue(src, cadence);
      ghost var upto := cursor;
      while cursor <= w.1
        invariant w.0 <= cursor == upto && Touched(old(rows), rows, src)
        invariant clean ==> ClearedBelow(rows, src, w, upto)
        decreases w.1 - cursor
      {
        if cursor in down {
          assert Inside(w, cursor);
          break;
        }
        ghost var before := rows;
        var page := Fetch(src, cursor, w.1, limit);
        FetchExact(src, cursor, w.1, limit);
        UpdateNulls(src, page);
        TouchedTwice(old(rows), before, rows, src);
        if clean { PageClears(src, rows, w, cursor, limit, cadence); }
        if page == [] {
          upto := w.1 + 1;
          break;
        }
        var next := page[|page| - 1].ts + cadence;
        PageAhead(src, cursor, w.1, limit);
        if next <= cursor { break; }
        cursor, upto := next, next;
        if |page| < limit {
          upto := if next <= w.1 then w.1 + 1 else next;
          break;
        }
      }
    }

    /** The null stamps in order and their ranges. */
    method FindNullRanges(cadence: int) returns (ts: seq<int>, ranges: seq<Window>)
      ensures Increasing(ts) && forall x :: x in ts <==> x in rows && !rows[x].takers
      ensures ranges == Ranges(ts, cadence)
    {
      ts := Listed(Nulls(rows));
      if ts == [] { return ts, []; }
      var start, prev := ts[0], ts[0];
      ranges := [];
      assert ts[..1] == [ts[0]] && ts[..1][..0] == [];
      for i := 1 to |ts|
        invariant prev == ts[i - 1] && Ranges(ts[..i], cadence) == ranges + [(start, prev)]
      {
        assert ts[..i + 1][..i] == ts[..i];
        if ts[i] - prev <= cadence {
          prev := ts[i];
        } else {
          ranges := ranges + [(start, prev)];
          start, prev := ts[i], ts[i];
        }
      }
      assert ts[..|ts|] == ts;
      ranges := ranges + [(start, prev)];
    }

    /** The whole repair: only null rows change, each into the venue's bar; every null
        row the venue has is filled if no request in its range fails; and on the hourly
        grid the number reported is the number of rows filled. */
    method Repair(src: seq<Bar>, down: set<int>) returns (filled: int, ghost ranges: seq<Window>)
      requires Ascending(src)
      modifies this
      ensures Touched(old(rows), rows, src)
      ensures HourlyNulls(old(rows)) ==> filled == |set x | x in old(rows) && !old(rows)[x].takers && rows[x].takers|
      ensures HourlyNulls(old(rows)) ==> forall x :: x % 3600 == 0 ==> (Covered(ranges, x) <==> x in old(rows) && !old(rows)[x].takers)
      ensures GridVenue(src, CADENCE) ==> forall b :: b in src && Served(ranges, down, b.ts) ==> Cleared(rows, b)
      ensures HourlyNulls(old(rows)) && down == {} && GridVenue(src, CADENCE) ==> forall b :: b in src ==> Cleared(rows, b)
    {
      var ts, runs := FindNullRanges(CADENCE);
      ranges := runs;
      assert forall i :: 0 <= i < |ts| ==> ts[i] in ts;
      ghost var onGrid := HourlyNulls(rows);
      if onGrid { RangesCount(ts, CADENCE, Nulls(rows)); }
      var expected := MissingCount(runs, CADENCE);
      for k := 0 to |runs|
        invariant Touched(old(rows), rows, src)
        invariant GridVenue(src, CADENCE) ==> forall j :: 0 <= j < k && Clear(runs[j], down) ==> ClearedBelow(rows, src, runs[j], runs[j].1 + 1)
      {
        ghost var before := rows;
        FillRange(src, runs[k], CADENCE, PAGE_LIMIT, down);
        TouchedTwice(old(rows), before, rows, src);
      }
      if GridVenue(src, CADENCE) { ServedCleared(rows, src, runs, down); }
      if onGrid {
        forall x | OnGrid(x, CADENCE)
          ensures Covered(runs, x) <==> x in Nulls(old(rows))
        {
          RangesExact(ts, CADENCE, x);
        }
      }
      FilledCount(old(rows), rows, src);
      filled := expected - |Nulls(rows)|;
    }
  }
}
