/** Forward page walks of the hourly feeds (data/sources/coinbase.py,
    data/sources/binance_quarterly.py, fetch_coinalyze.py): each page spans a
    whole number of steps and the next one starts a step after it ends. */
module PageWalk {
  import opened GridMath
  import opened Prelude
  import opened Gaps
  import opened SortedSets
  import opened Backfill

  const HOUR := 3600
  const DAY := 86400
  const COINBASE_MAX_CANDLES := 300
  const QUARTERLY_MAX_LIMIT := 1500

  function Min(x: int, y: int): int { if x < y then x else y }
  function Max(x: int, y: int): int { if x < y then y else x }

  // ---- what a walk asks for ----

  /** Some page of the walk from start to end contains x. */
  predicate Asked(start: int, end: int, span: nat, step: int, x: int)
    requires step > 0
    decreases end - start
  {
    if start > end then false
    else
      var stop := Min(start + span, end);
      start <= x <= stop || Asked(stop + step, end, span, step, x)
  }

  lemma {:induction false} AskedWithin(start: int, end: int, span: nat, step: int, x: int)
    requires step > 0 && Asked(start, end, span, step, x)
    ensures start <= x <= end
    decreases end - start
  {
    var stop := Min(start + span, end);
    if !(start <= x <= stop) { AskedWithin(stop + step, end, span, step, x); }
  }

  /** A walk that starts on the grid asks for every grid stamp of its range. */
  lemma {:induction false} AlignedWalkAsksAll(start: int, end: int, span: nat, step: int, x: int)
    requires step > 0 && OnGrid(span, step) && OnGrid(start, step) && OnGrid(x, step) && start <= x <= end
    ensures Asked(start, end, span, step, x)
    decreases end - start
  {
    var stop := Min(start + span, end);
    if stop < x {
      GridSum(start, span, step);
      GridStep(stop, x, step);
      GridShift(stop, step);
      AlignedWalkAsksAll(stop + step, end, span, step, x);
    }
  }

  lemma GridSum(x: int, y: int, step: int)
    requires step > 0 && OnGrid(x, step) && OnGrid(y, step)
    ensures OnGrid(x + y, step)
  {
    Parts(y, step);
    DivShift(x, y / step, step);
  }

  /** The grid stamp that falls between the first page of an unaligned walk and
      the second. */
  function FirstMiss(start: int, span: nat, step: int): int
    requires step > 0
  {
    start / step * step + span + step
  }

  lemma FirstMissIsMissed(start: int, end: int, span: nat, step: int)
    requires step > 0 && OnGrid(span, step) && !OnGrid(start, step)
    ensures OnGrid(FirstMiss(start, span, step), step)
    ensures start + span < FirstMiss(start, span, step) < start + span + step
    ensures !Asked(start, end, span, step, FirstMiss(start, span, step))
  {
    var b := FirstMiss(start, span, step);
    FloorOnGrid(start, step);
    GridSum(start / step * step, span, step);
    GridShift(start / step * step + span, step);
    assert start / step * step != start;
    if Asked(start, end, span, step, b) {
      var stop := Min(start + span, end);
      if stop < end { AskedWithin(stop + step, end, span, step, b); }
    }
  }

  /** Every grid stamp of the range is asked for exactly when the walk starts on
      the grid or ends before the first stamp it would miss. */
  lemma WalkCompleteIff(start: int, end: int, span: nat, step: int)
    requires step > 0 && OnGrid(span, step)
    ensures (forall x :: OnGrid(x, step) && start <= x <= end ==> Asked(start, end, span, step, x))
      <==> OnGrid(start, step) || end < FirstMiss(start, span, step)
  {
    if OnGrid(start, step) {
      forall x | OnGrid(x, step) && start <= x <= end
        ensures Asked(start, end, span, step, x)
      {
        AlignedWalkAsksAll(start, end, span, step, x);
      }
    } else {
      FirstMissIsMissed(start, end, span, step);
      var b := FirstMiss(start, span, step);
      if end < b {
        forall x | OnGrid(x, step) && start <= x <= end
          ensures Asked(start, end, span, step, x)
        {
          OnePageHoldsIt(start, span, step, x);
        }
      }
    }
  }

  /** No grid stamp below the first miss lies past the first page. */
  lemma OnePageHoldsIt(start: int, span: nat, step: int, x: int)
    requires step > 0 && OnGrid(span, step) && !OnGrid(start, step) && OnGrid(x, step)
    requires start <= x < FirstMiss(start, span, step)
    ensures x <= start + span
  {
    FirstMissIsMissed(start, x, span, step);
    GridStep(x, FirstMiss(start, span, step), step);
    FloorOnGrid(start, step);
  }

  // ---- how many stamps a page can hold ----

  /** Grid rows of a range number at most the whole steps in it plus one. */
  lemma {:induction false} GridRowsBounded(bars: seq<Bar>, a: int, b: int, step: int)
    requires step > 0 && Ascending(bars) && a <= b
    requires forall k :: 0 <= k < |bars| ==> OnGrid(bars[k].ts, step) && a <= bars[k].ts <= b
    ensures |bars| <= (b - a) / step + 1
  {
    if |bars| <= 1 {
      Parts(b - a, step);
      DivMonotone(0, b - a, step);
    } else {
      var last := bars[|bars| - 1].ts;
      var init := bars[..|bars| - 1];
      GridStep(bars[|bars| - 2].ts, last, step);
      GridRowsBounded(init, a, last - step, step);
      DivStep(last - a, step);
      DivMonotone(last - a, b - a, step);
    }
  }

  /** A limit of one more than the bound never cuts a page. */
  lemma LimitNeverTruncates(src: seq<Bar>, a: int, b: int, step: int, limit: nat)
    requires step > 0 && Ascending(src) && GridVenue(src, step) && a <= b && limit >= (b - a) / step + 1
    ensures Fetch(src, a, b, limit) == InRange(src, a, b)
  {
    InRangeExact(src, a, b);
    var rows := InRange(src, a, b);
    forall k | 0 <= k < |rows|
      ensures OnGrid(rows[k].ts, step) && a <= rows[k].ts <= b
    {
      assert rows[k] in rows;
    }
    GridRowsBounded(rows, a, b, step);
  }

  // ---- the walks ----

  /** Rows outside the walk's pages are untouched, and every grid row of the
      venue that was asked for is stored. */
  ghost predicate Walked(before: map<int, Kline>, rows: map<int, Kline>, src: seq<Bar>, start: int, end: int, span: nat, step: int)
    requires step > 0
  {
    && (forall x :: !Asked(start, end, span, step, x) ==> SameAt(before, rows, x))
    && (forall x :: SameAt(before, rows, x) || (x in rows && Bar(x, rows[x]) in src))
    && (forall b :: b in src && OnGrid(b.ts, step) && Asked(start, end, span, step, b.ts) ==> Holds(rows, b))
  }

  lemma WalkedPatches(before: map<int, Kline>, rows: map<int, Kline>, src: seq<Bar>, w: Window, span: nat, step: int)
    requires step > 0 && Walked(before, rows, src, w.0, w.1, span, step)
    ensures Patched(before, rows, src, w)
  {
    forall x | !Inside(w, x)
      ensures SameAt(before, rows, x)
    {
      if Asked(w.0, w.1, span, step, x) { AskedWithin(w.0, w.1, span, step, x); }
    }
  }

  /** Rows that are not on an exact step boundary are dropped. */
  function Boundaries(bars: seq<Bar>, step: int): seq<Bar>
    requires step > 0
  {
    if bars == [] then []
    else
      var init, last := Boundaries(bars[..|bars| - 1], step), bars[|bars| - 1];
      if OnGrid(last.ts, step) then init + [last] else init
  }

  lemma {:induction false} BoundariesExact(bars: seq<Bar>, step: int)
    requires step > 0 && Ascending(bars)
    ensures Ascending(Boundaries(bars, step))
    ensures forall x :: x in Boundaries(bars, step) <==> x in bars && OnGrid(x.ts, step)
  {
    if bars != [] {
      var init, last := bars[..|bars| - 1], bars[|bars| - 1];
      BoundariesExact(init, step);
      assert bars == init + [last];
      forall k | 0 <= k < |Boundaries(init, step)|
        ensures Boundaries(init, step)[k].ts < last.ts
      {
        assert Boundaries(init, step)[k] in init;
      }
    }
  }

  ghost predicate InPage(page: seq<Bar>, x: int) { exists k :: 0 <= k < |page| && page[k].ts == x }

  /** Store the rows of one page. */
  method StorePage(t: Table, page: seq<Bar>, src: seq<Bar>, w: Window)
    requires Ascending(page) && forall b :: b in page ==> b in src && Inside(w, b.ts)
    modifies t
    ensures Patched(old(t.rows), t.rows, src, w)
    ensures forall b :: b in page ==> Holds(t.rows, b)
    ensures forall x :: SameAt(old(t.rows), t.rows, x) || InPage(page, x)
  {
    ghost var before := t.rows;
    t.Upsert(page);
    forall x
      ensures SameAt(before, t.rows, x) || InPage(page, x)
    {}
    assert forall k :: 0 <= k < |page| ==> page[k] in page;
    UpsertPatches(src, before, t.rows, page, w);
  }

  lemma OffGridKept(before: map<int, Kline>, rows: map<int, Kline>, page: seq<Bar>, step: int)
    requires step > 0 && forall b :: b in page ==> OnGrid(b.ts, step)
    requires forall x :: SameAt(before, rows, x) || InPage(page, x)
    ensures forall x :: !OnGrid(x, step) ==> SameAt(before, rows, x)
  {
    forall k | 0 <= k < |page|
      ensures OnGrid(page[k].ts, step)
    {
      assert page[k] in page;
    }
  }

  /** The rows of [cursor, stop], off-boundary ones dropped when asked to. */
  method FetchPage(src: seq<Bar>, cursor: int, stop: int, step: int, dropOffGrid: bool) returns (page: seq<Bar>)
    requires step > 0 && Ascending(src)
    ensures Ascending(page)
    ensures forall b :: b in page <==> b in src && cursor <= b.ts <= stop && (dropOffGrid ==> OnGrid(b.ts, step))
  {
    page := InRange(src, cursor, stop);
    InRangeExact(src, cursor, stop);
    if dropOffGrid {
      BoundariesExact(page, step);
      page := Boundaries(page, step);
    }
  }

  /** Coinbase's _pull, and with dropOffGrid false the chunks of fetch_liquidations. */
  method Pull(t: Table, src: seq<Bar>, start: int, end: int, span: nat, step: int, dropOffGrid: bool)
    requires step > 0 && Ascending(src)
    modifies t
    ensures Walked(old(t.rows), t.rows, src, start, end, span, step)
    ensures if dropOffGrid then forall x :: !OnGrid(x, step) ==> SameAt(old(t.rows), t.rows, x)
            else forall b :: b in src && Asked(start, end, span, step, b.ts) ==> Holds(t.rows, b)
  {
    var cursor := start;
    while cursor <= end
      invariant forall x :: Asked(cursor, end, span, step, x) ==> Asked(start, end, span, step, x)
      invariant forall x :: !Asked(start, end, span, step, x) ==> SameAt(old(t.rows), t.rows, x)
      invariant forall x :: SameAt(old(t.rows), t.rows, x) || (x in t.rows && Bar(x, t.rows[x]) in src)
      invariant forall b | b in src && (dropOffGrid ==> OnGrid(b.ts, step)) ::
        Asked(start, end, span, step, b.ts) ==> Asked(cursor, end, span, step, b.ts) || Holds(t.rows, b)
      invariant dropOffGrid ==> forall x :: !OnGrid(x, step) ==> SameAt(old(t.rows), t.rows, x)
      decreases end - cursor
    {
      var stop := Min(cursor + span, end);
      ghost var before := t.rows;
      var page := FetchPage(src, cursor, stop, step, dropOffGrid);
      StorePage(t, page, src, (cursor, stop));
      StillHeld(src, before, t.rows, (cursor, stop));
      if dropOffGrid { OffGridKept(before, t.rows, page, step); }
      cursor := stop + step;
    }
  }

  /** SELECT MAX(timestamp) */
  method LastStamp(t: Table) returns (last: Option<int>)
    ensures last == None ==> t.rows == map[]
    ensures last.Some? ==> last.value in t.rows && forall x :: x in t.rows ==> x <= last.value
  {
    var ts := t.SortedStamps();
    if |ts| == 0 {
      assert forall x :: x !in t.rows;
      return None;
    }
    assert ts[|ts| - 1] in ts;
    return Some(ts[|ts| - 1]);
  }

  // ---- coinbase ----

  /** The earlier of the trailing window and the bar after the last stored one. */
  function RefreshStart(last: Option<int>, now: int, hours: int): int {
    match last
    case None => now - hours * HOUR
    case Some(l) => Min(now - hours * HOUR, l + HOUR)
  }

  /** What a refresh is for: the trailing hours up to now, and all that follows the last
      stored bar. */
  predicate Refreshed(last: Option<int>, now: int, hours: int, x: int) {
    x <= now && (now - hours * 3600 <= x || (last.Some? && last.value + 3600 <= x))
  }

  /** A start off the grid is always within one page of now. */
  lemma RefreshWalkComplete(last: Option<int>, now: int, hours: int, bars: int)
    requires 0 <= hours < bars && (last.Some? ==> OnGrid(last.value, HOUR))
    ensures OnGrid(RefreshStart(last, now, hours), HOUR) || now < FirstMiss(RefreshStart(last, now, hours), (bars - 1) * HOUR, HOUR)
  {
    FloorOnGrid(RefreshStart(last, now, hours), HOUR);
    if last.Some? { GridShift(last.value, HOUR); }
  }

  /** A trailing window as long as a page misses the newest boundary whenever now
      is not on the hour and no older bar makes the start aligned. */
  lemma FullPageWindowMisses(now: int)
    requires !OnGrid(now, HOUR)
    ensures var start := RefreshStart(None, now, COINBASE_MAX_CANDLES);
      var newest := now / HOUR * HOUR;
      start <= newest <= now && !Asked(start, now, (COINBASE_MAX_CANDLES - 1) * HOUR, HOUR, newest)
  {
    var start := RefreshStart(None, now, COINBASE_MAX_CANDLES);
    DivShift(now, -COINBASE_MAX_CANDLES, HOUR);
    assert start == now + -COINBASE_MAX_CANDLES * HOUR;
    FirstMissIsMissed(start, now, (COINBASE_MAX_CANDLES - 1) * HOUR, HOUR);
  }

  /** After one refresh every hour boundary the venue holds, from the window or
      the bar after the last stored one up to now, is stored, however long the
      feed was down. */
  method RefreshAsset(t: Table, src: seq<Bar>, now: int, hours: int) returns (ghost last: Option<int>)
    requires Ascending(src)
    modifies t
    ensures last.Some? ==> last.value in old(t.rows) && forall x :: x in old(t.rows) ==> x <= last.value
    ensures last == None ==> old(t.rows) == map[]
    ensures Walked(old(t.rows), t.rows, src, RefreshStart(last, now, hours), now, 299 * 3600, HOUR)
    ensures forall x :: !Refreshed(last, now, hours, x) || !OnGrid(x, HOUR) ==> SameAt(old(t.rows), t.rows, x)
    ensures 0 <= hours < 300 && (last.Some? ==> OnGrid(last.value, HOUR)) ==>
      forall b :: b in src && OnGrid(b.ts, HOUR) && Refreshed(last, now, hours, b.ts) ==> Holds(t.rows, b)
  {
    var newest := LastStamp(t);
    last := newest;
    var start := now - hours * HOUR;
    if newest.Some? { start := Min(start, newest.value + HOUR); }
    Pull(t, src, start, now, (COINBASE_MAX_CANDLES - 1) * HOUR, HOUR, true);
    if 0 <= hours < COINBASE_MAX_CANDLES && (last.Some? ==> OnGrid(last.value, HOUR)) {
      RefreshWalkComplete(last, now, hours, COINBASE_MAX_CANDLES);
      HourMultiple(COINBASE_MAX_CANDLES - 1);
      WalkCompleteIff(start, now, (COINBASE_MAX_CANDLES - 1) * HOUR, HOUR);
    }
    forall x | !Refreshed(last, now, hours, x)
      ensures SameAt(old(t.rows), t.rows, x)
    {
      if Asked(start, now, (COINBASE_MAX_CANDLES - 1) * HOUR, HOUR, x) { AskedWithin(start, now, (COINBASE_MAX_CANDLES - 1) * HOUR, HOUR, x); }
    }
  }

  lemma HourMultiple(n: int)
    ensures OnGrid(n * HOUR, HOUR)
  {
    QuotientUnique(n * HOUR, HOUR, n, 0);
  }

  /** Every boundary after the last stored bar is in the refreshed range. */
  lemma OutageInRange(last: int, now: int, hours: int, x: int)
    requires OnGrid(last, HOUR) && OnGrid(x, HOUR) && last < x <= now
    ensures RefreshStart(Some(last), now, hours) <= x
  {
    GridStep(last, x, HOUR);
  }

  // ---- binance_quarterly ----

  function QuarterlyLimit(cursor: int, stop: int): int { Min(QUARTERLY_MAX_LIMIT, (stop - cursor) / HOUR + 2) }

  /** A page's limit is that of the venue, or one or two more than the hours it spans. */
  lemma QuarterlyLimitIs(cursor: int, stop: int)
    requires cursor <= stop
    ensures var n := QuarterlyLimit(cursor, stop);
      n <= 1500 && (n < 1500 ==> (n - 2) * 3600 <= stop - cursor < (n - 1) * 3600)
    ensures QuarterlyLimit(cursor, stop) == 1500 ==> 1498 * 3600 <= stop - cursor
  {}

  /** The small limit is enough for any page the walk asks for. */
  lemma QuarterlyLimitSuffices(src: seq<Bar>, cursor: int, stop: int)
    requires Ascending(src) && GridVenue(src, HOUR) && cursor <= stop <= cursor + (QUARTERLY_MAX_LIMIT - 1) * HOUR
    ensures QuarterlyLimit(cursor, stop) >= 1
    ensures Fetch(src, cursor, stop, QuarterlyLimit(cursor, stop)) == InRange(src, cursor, stop)
  {
    DivMonotone(stop - cursor, (QUARTERLY_MAX_LIMIT - 1) * HOUR, HOUR);
    DivMonotone(0, stop - cursor, HOUR);
    LimitNeverTruncates(src, cursor, stop, HOUR, QuarterlyLimit(cursor, stop));
  }

  /** One request of the series, with its explicit limit. */
  method QuarterlyPage(src: seq<Bar>, cursor: int, stop: int) returns (page: seq<Bar>)
    requires Ascending(src) && cursor <= stop <= cursor + (QUARTERLY_MAX_LIMIT - 1) * HOUR
    ensures Ascending(page) && forall b :: b in page ==> b in src && cursor <= b.ts <= stop && OnGrid(b.ts, HOUR)
    ensures GridVenue(src, HOUR) ==> forall b :: b in src && cursor <= b.ts <= stop ==> b in page
  {
    DivMonotone(0, stop - cursor, HOUR);
    var rows := Fetch(src, cursor, stop, QuarterlyLimit(cursor, stop));
    FetchExact(src, cursor, stop, QuarterlyLimit(cursor, stop));
    BoundariesExact(rows, HOUR);
    page := Boundaries(rows, HOUR);
    if GridVenue(src, HOUR) {
      QuarterlyLimitSuffices(src, cursor, stop);
      InRangeExact(src, cursor, stop);
    }
  }

  /** refresh_series: the same walk, each page under an explicit limit. */
  method RefreshSeries(t: Table, src: seq<Bar>, now: int, hours: int) returns (ghost last: Option<int>)
    requires Ascending(src)
    modifies t
    ensures last.Some? ==> last.value in old(t.rows) && forall x :: x in old(t.rows) ==> x <= last.value
    ensures last == None ==> old(t.rows) == map[]
    ensures Patched(old(t.rows), t.rows, src, (RefreshStart(last, now, hours), now))
    ensures forall x :: !Refreshed(last, now, hours, x) || !OnGrid(x, HOUR) ==> SameAt(old(t.rows), t.rows, x)
    ensures GridVenue(src, HOUR) && 0 <= hours < 1500 && (last.Some? ==> OnGrid(last.value, HOUR)) ==>
      forall b :: b in src && Refreshed(last, now, hours, b.ts) ==> Holds(t.rows, b)
  {
    var newest := LastStamp(t);
    last := newest;
    var start := now - hours * HOUR;
    if newest.Some? { start := Min(start, newest.value + HOUR); }
    var span := (QUARTERLY_MAX_LIMIT - 1) * HOUR;
    var cursor := start;
    while cursor <= now
      invariant start <= cursor
      invariant Patched(old(t.rows), t.rows, src, (start, now))
      invariant forall x :: !OnGrid(x, HOUR) ==> SameAt(old(t.rows), t.rows, x)
      invariant GridVenue(src, HOUR) ==>
        forall b | b in src :: Asked(start, now, span, HOUR, b.ts) ==> Asked(cursor, now, span, HOUR, b.ts) || Holds(t.rows, b)
      decreases now - cursor
    {
      var stop := Min(cursor + span, now);
      ghost var before := t.rows;
      var page := QuarterlyPage(src, cursor, stop);
      StorePage(t, page, src, (cursor, stop));
      StillHeld(src, before, t.rows, (cursor, stop));
      PatchedTwice(old(t.rows), before, t.rows, src, (start, now), (cursor, stop));
      OffGridKept(before, t.rows, page, HOUR);
      cursor := stop + HOUR;
    }
    if GridVenue(src, HOUR) && 0 <= hours < QUARTERLY_MAX_LIMIT && (last.Some? ==> OnGrid(last.value, HOUR)) {
      RefreshWalkComplete(last, now, hours, QUARTERLY_MAX_LIMIT);
      HourMultiple(QUARTERLY_MAX_LIMIT - 1);
      WalkCompleteIff(start, now, span, HOUR);
    }
  }

  // ---- fetch_coinalyze ----

  const LIQ_ROLLING_WINDOW_DAYS := 89
  const EARLIEST_LIQ_TS := 1609459200
  const REPULL_BARS := 3

  function ChunkSpan(cadence: int): nat { if cadence == HOUR || cadence == 4 * HOUR then 90 * DAY else 30 * DAY }

  function Earliest(now: int, cadence: int): int {
    if cadence == DAY then EARLIEST_LIQ_TS else now - LIQ_ROLLING_WINDOW_DAYS * DAY
  }

  /** The newest bar that has closed. */
  function LatestClosed(now: int, cadence: int): int
    requires cadence > 0
  {
    now / cadence * cadence - cadence
  }

  /** The spans fetch_liquidations pulls: everything for an empty table, else the
      leading one of a daily table and the trailing one with its re-pulled bars. */
  function LiqSpans(bounds: Option<Window>, now: int, cadence: int): seq<Window>
    requires cadence > 0
  {
    var earliest, latest := Earliest(now, cadence), LatestClosed(now, cadence);
    match bounds
    case None => [(earliest, latest)]
    case Some(b) =>
      var start := Max(b.1 - (REPULL_BARS - 1) * cadence, earliest);
      (if cadence == DAY && b.0 - earliest > cadence then [(earliest, b.0 - cadence)] else [])
      + (if start <= latest then [(start, latest)] else [])
  }

  lemma SpanAlignedOrShort(bounds: Option<Window>, now: int, cadence: int, k: nat)
    requires cadence == HOUR || cadence == 4 * HOUR || cadence == DAY
    requires bounds.Some? ==> OnGrid(bounds.value.0, cadence) && OnGrid(bounds.value.1, cadence)
    requires k < |LiqSpans(bounds, now, cadence)|
    ensures var w := LiqSpans(bounds, now, cadence)[k];
      && OnGrid(ChunkSpan(cadence), cadence)
      && (OnGrid(w.0, cadence) || w.1 < FirstMiss(w.0, ChunkSpan(cadence), cadence))
  {
    var w := LiqSpans(bounds, now, cadence)[k];
    if bounds.Some? {
      GridShift(bounds.value.1, cadence);
      GridShift(bounds.value.1 - cadence, cadence);
    }
    FloorOnGrid(now, cadence);
    FloorOnGrid(w.0, cadence);
  }

  /** Each span starts on the grid, or one chunk holds it: for the hourly, the
      four-hourly and the daily interval no bar falls between two chunks. */
  lemma LiqChunksComplete(bounds: Option<Window>, now: int, cadence: int, k: nat)
    requires cadence == HOUR || cadence == 4 * HOUR || cadence == DAY
    requires bounds.Some? ==> OnGrid(bounds.value.0, cadence) && OnGrid(bounds.value.1, cadence)
    requires k < |LiqSpans(bounds, now, cadence)|
    ensures var w := LiqSpans(bounds, now, cadence)[k];
      forall x :: OnGrid(x, cadence) && w.0 <= x <= w.1 ==> Asked(w.0, w.1, ChunkSpan(cadence), cadence, x)
  {
    var w := LiqSpans(bounds, now, cadence)[k];
    SpanAlignedOrShort(bounds, now, cadence, k);
    WalkCompleteIff(w.0, w.1, ChunkSpan(cadence), cadence);
  }

  /** With a sub-hour interval the rolling window is longer than a chunk: pulling
      an empty table at an unaligned second leaves a bar between two chunks. */
  lemma SubHourChunksMiss(now: int)
    requires !OnGrid(now, 900)
    ensures var w := LiqSpans(None, now, 900)[0];
      var miss := FirstMiss(w.0, ChunkSpan(900), 900);
      OnGrid(miss, 900) && w.0 <= miss <= w.1 && !Asked(w.0, w.1, ChunkSpan(900), 900, miss)
  {
    var w := LiqSpans(None, now, 900)[0];
    DivShift(now, -LIQ_ROLLING_WINDOW_DAYS * 96, 900);
    FirstMissIsMissed(w.0, w.1, ChunkSpan(900), 900);
  }

  /** What aged out of the rolling window while nothing was fetching. */
  function LostSpan(bounds: Option<Window>, now: int, cadence: int): Option<Window> {
    var lostEnd := Earliest(now, cadence) / DAY * DAY - cadence;
    if bounds.Some? && bounds.value.1 + cadence <= lostEnd then Some((bounds.value.1 + cadence, lostEnd)) else None
  }

  /** A bar that has closed and is not older than what the venue serves: the rolling window,
      or for the daily series its first day. */
  predicate Obtainable(now: int, cadence: int, x: int) {
    x + cadence <= now && (if cadence == 86400 then 1609459200 <= x else now - 89 * 86400 <= x)
  }

  /** The stamps pulled are all obtainable ones for an empty table; else those from two bars
      before the newest stored one on, and in the daily series those before the oldest. */
  lemma SpansAre(bounds: Option<Window>, now: int, cadence: int, x: int)
    requires cadence > 0 && OnGrid(x, cadence)
    requires bounds.Some? ==> OnGrid(bounds.value.0, cadence)
    ensures Covered(LiqSpans(bounds, now, cadence), x) <==>
      || (Obtainable(now, cadence, x) && (bounds == None || bounds.value.1 - 2 * cadence <= x))
      || (cadence == 86400 && bounds.Some? && 1609459200 <= x < bounds.value.0 && bounds.value.0 - 1609459200 > 86400)
  {
    ClosedSoFar(now, cadence, x);
    if bounds.None? {
      CoveredOne((Earliest(now, cadence), LatestClosed(now, cadence)), x);
    } else {
      CoveredSpans(bounds.value, now, cadence, x);
      if x < bounds.value.0 { GridStep(x, bounds.value.0, cadence); }
    }
  }

  lemma ClosedSoFar(now: int, cadence: int, x: int)
    requires cadence > 0 && OnGrid(x, cadence)
    ensures x <= LatestClosed(now, cadence) <==> x + cadence <= now
  {
    FloorOnGrid(now, cadence);
    GridShift(x, cadence);
    var edge := now / cadence * cadence;
    if x + cadence <= now && edge < x + cadence { GridStep(edge, x + cadence, cadence); }
  }

  lemma CoveredSpans(b: Window, now: int, cadence: int, x: int)
    requires cadence > 0
    ensures var earliest, latest := Earliest(now, cadence), LatestClosed(now, cadence);
      Covered(LiqSpans(Some(b), now, cadence), x) <==>
        (earliest <= x <= latest && b.1 - 2 * cadence <= x) || (cadence == DAY && b.0 - earliest > cadence && earliest <= x <= b.0 - cadence)
  {
    var earliest, latest := Earliest(now, cadence), LatestClosed(now, cadence);
    var start := Max(b.1 - 2 * cadence, earliest);
    var lead := if cadence == DAY && b.0 - earliest > cadence then [(earliest, b.0 - cadence)] else [];
    var trail := if start <= latest then [(start, latest)] else [];
    assert LiqSpans(Some(b), now, cadence) == lead + trail;
    CoveredConcat(lead, trail, x);
    CoveredOne((earliest, b.0 - cadence), x);
    CoveredOne((start, latest), x);
  }

  /** Lost is what lies between the newest stored bar and the last whole bar before the UTC
      day on which the venue's window now starts. */
  lemma LostIs(bounds: Option<Window>, now: int, cadence: int, day: int)
    requires day % 86400 == 0
    requires if cadence == 86400 then day <= 1609459200 < day + 86400 else day <= now - 89 * 86400 < day + 86400
    ensures LostSpan(bounds, now, cadence)
         == if bounds.Some? && bounds.value.1 + 2 * cadence <= day then Some((bounds.value.1 + cadence, day - cadence)) else None
  {
    var e := Earliest(now, cadence);
    FloorOnGrid(e, DAY);
    if day < e / DAY * DAY { GridStep(day, e / DAY * DAY, DAY); }
    if e / DAY * DAY < day { GridStep(e / DAY * DAY, day, DAY); }
  }

  /** Hourly and four-hourly bars come ninety days to a request, the others thirty. */
  lemma ChunkDays(cadence: int)
    ensures ChunkSpan(cadence) == (if cadence in {3600, 14400} then 90 else 30) * 86400
  {}

  predicate WholeHours(cadence: int) { cadence == HOUR || cadence == 4 * HOUR || cadence == DAY }

  /** Some chunk of some span asks for the stamp. */
  predicate AskedFor(gaps: seq<Window>, cadence: int, x: int)
    requires cadence > 0
  {
    exists k :: 0 <= k < |gaps| && Asked(gaps[k].0, gaps[k].1, ChunkSpan(cadence), cadence, x)
  }

  /** Walk the spans in turn. */
  method PullSpans(t: Table, src: seq<Bar>, gaps: seq<Window>, cadence: int)
    requires Ascending(src) && cadence > 0
    modifies t
    ensures forall x :: SameAt(old(t.rows), t.rows, x) || (Covered(gaps, x) && x in t.rows && Bar(x, t.rows[x]) in src)
    ensures forall b :: b in src && AskedFor(gaps, cadence, b.ts) ==> Holds(t.rows, b)
  {
    for k := 0 to |gaps|
      invariant forall x :: SameAt(old(t.rows), t.rows, x) || (Covered(gaps, x) && x in t.rows && Bar(x, t.rows[x]) in src)
      invariant forall j, b | 0 <= j < k && b in src ::
        Asked(gaps[j].0, gaps[j].1, ChunkSpan(cadence), cadence, b.ts) ==> Holds(t.rows, b)
    {
      ghost var before := t.rows;
      Pull(t, src, gaps[k].0, gaps[k].1, ChunkSpan(cadence), cadence, false);
      WalkedPatches(before, t.rows, src, gaps[k], ChunkSpan(cadence), cadence);
      StillHeld(src, before, t.rows, gaps[k]);
      forall x
        ensures SameAt(old(t.rows), t.rows, x) || (Covered(gaps, x) && x in t.rows && Bar(x, t.rows[x]) in src)
      {
        assert SameAt(before, t.rows, x) || Inside(gaps[k], x);
        assert SameAt(before, t.rows, x) || (x in t.rows && Bar(x, t.rows[x]) in src);
      }
    }
  }

  /** Pull every span of one asset: all that is asked for is stored. For the hourly, four-hourly and daily
      intervals every bar the venue holds in them is stored; what is reported
      lost was never stored and lies before what the venue serves. */
  method FetchLiquidations(t: Table, src: seq<Bar>, now: int, cadence: int) returns (lost: Option<Window>, ghost bounds: Option<Window>)
    requires Ascending(src) && cadence > 0
    modifies t
    ensures bounds == None <==> old(t.rows) == map[]
    ensures bounds.Some? ==> forall x :: x in old(t.rows) ==> bounds.value.0 <= x <= bounds.value.1
    ensures forall x | !SameAt(old(t.rows), t.rows, x) ::
      Covered(LiqSpans(bounds, now, cadence), x) && x in t.rows && Bar(x, t.rows[x]) in src
    ensures WholeHours(cadence) && (forall x :: x in old(t.rows) ==> OnGrid(x, cadence)) ==>
      forall b :: b in src && OnGrid(b.ts, cadence) && Covered(LiqSpans(bounds, now, cadence), b.ts) ==> Holds(t.rows, b)
    ensures forall b :: b in src && AskedFor(LiqSpans(bounds, now, cadence), cadence, b.ts) ==> Holds(t.rows, b)
    ensures lost == LostSpan(bounds, now, cadence)
  {
    var ts := t.SortedStamps();
    var ends := if |ts| == 0 then None else Some((ts[0], ts[|ts| - 1]));
    bounds := ends;
    BoundsOf(t.rows, ts);
    lost := LostSpan(ends, now, cadence);
    var gaps := LiqSpans(ends, now, cadence);
    ghost var regular := WholeHours(cadence) && forall x :: x in t.rows ==> OnGrid(x, cadence);
    PullSpans(t, src, gaps, cadence);
    if regular {
      forall b | b in src && OnGrid(b.ts, cadence) && Covered(gaps, b.ts)
        ensures Holds(t.rows, b)
      {
        var k :| 0 <= k < |gaps| && Inside(gaps[k], b.ts);
        LiqChunksComplete(ends, now, cadence, k);
      }
    }
  }

  lemma BoundsOf(rows: map<int, Kline>, ts: seq<int>)
    requires Increasing(ts) && forall x :: x in ts <==> x in rows
    ensures |ts| == 0 <==> rows == map[]
    ensures |ts| > 0 ==> ts[0] in rows && ts[|ts| - 1] in rows && forall x :: x in rows ==> ts[0] <= x <= ts[|ts| - 1]
  {
    if |ts| == 0 {
      assert forall x :: x !in rows;
    } else {
      assert ts[0] in ts && ts[|ts| - 1] in ts;
    }
  }

  /** The re-pulled span reaches every closed bar after the last stored one that
      the venue still serves; what is lost lies wholly before that. */
  lemma TrailingSpanReaches(bounds: Window, now: int, cadence: int, x: int)
    requires cadence > 0 && OnGrid(bounds.1, cadence) && OnGrid(x, cadence)
    requires bounds.1 < x <= LatestClosed(now, cadence) && Earliest(now, cadence) <= x
    ensures Covered(LiqSpans(Some(bounds), now, cadence), x)
    ensures LostSpan(Some(bounds), now, cadence).Some? ==> !Inside(LostSpan(Some(bounds), now, cadence).value, x)
  {
    var start := Max(bounds.1 - (REPULL_BARS - 1) * cadence, Earliest(now, cadence));
    var spans := LiqSpans(Some(bounds), now, cadence);
    assert start <= x;
    assert spans[|spans| - 1] == (start, LatestClosed(now, cadence)) && Inside(spans[|spans| - 1], x);
    FloorOnGrid(Earliest(now, cadence), DAY);
  }
}
