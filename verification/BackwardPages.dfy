/** The backward walk of data/sources/coindesk.py: newest page first, older
    pages until the stored history is reached, never overwriting a row and never
    storing the bar still forming. */
module BackwardPages {
  import opened GridMath
  import opened Prelude
  import opened Gaps
  import opened Backfill
  import opened PageWalk

  const PAGE_ROWS := 2000
  const REFRESH_PAGES := 30
  const BACKFILL_PAGES := 60

  // ---- the venue: the newest rows at or before a stamp ----

  function UpTo(src: seq<Bar>, to: int): seq<Bar> {
    if src == [] || src[|src| - 1].ts <= to then src else UpTo(src[..|src| - 1], to)
  }

  lemma {:induction false} UpToExact(src: seq<Bar>, to: int)
    requires Ascending(src)
    ensures |UpTo(src, to)| <= |src| && UpTo(src, to) == src[..|UpTo(src, to)|]
    ensures forall x :: x in UpTo(src, to) <==> x in src && x.ts <= to
  {
    if src != [] {
      if src[|src| - 1].ts <= to {
        forall x | x in src ensures x.ts <= to { var i :| 0 <= i < |src| && src[i] == x; }
      } else {
        UpToExact(src[..|src| - 1], to);
        assert src == src[..|src| - 1] + [src[|src| - 1]];
      }
    }
  }

  function Newest(src: seq<Bar>, to: int, limit: nat): seq<Bar> {
    var all := UpTo(src, to);
    if |all| <= limit then all else all[|all| - limit..]
  }

  /** A page holds every row from its oldest stamp up to the bound, and every row
      there is when it is not full. */
  lemma NewestExact(src: seq<Bar>, to: int, limit: nat)
    requires Ascending(src) && limit > 0
    ensures var page := Newest(src, to, limit);
      && Ascending(page)
      && (forall x :: x in page ==> x in src && x.ts <= to)
      && (page != [] ==> forall x :: x in src && page[0].ts <= x.ts <= to ==> x in page)
      && (|page| < limit ==> forall x :: x in src && x.ts <= to ==> x in page)
  {
    UpToExact(src, to);
    var all := UpTo(src, to);
    if |all| > limit { SuffixExact(all, |all| - limit); }
    if all != [] { SuffixExact(all, 0); }
  }

  lemma SuffixExact(all: seq<Bar>, d: nat)
    requires Ascending(all) && d < |all|
    ensures Ascending(all[d..])
    ensures forall x :: x in all[d..] ==> x in all
    ensures forall x :: x in all && all[d].ts <= x.ts ==> x in all[d..]
  {
    forall x | x in all && all[d].ts <= x.ts
      ensures x in all[d..]
    {
      var i :| 0 <= i < |all| && all[i] == x;
      assert i >= d && all[d..][i - d] == x;
    }
  }

  /** Each full page leaves that many fewer rows below it. */
  lemma OlderRowsShrink(src: seq<Bar>, to: int, limit: nat)
    requires Ascending(src) && limit > 0 && Newest(src, to, limit) != []
    ensures |UpTo(src, Newest(src, to, limit)[0].ts - 1)| == |UpTo(src, to)| - |Newest(src, to, limit)|
  {
    var all, page := UpTo(src, to), Newest(src, to, limit);
    UpToExact(src, to);
    PrefixBelow(src, |all| - |page|);
  }

  lemma {:induction false} PrefixBelow(src: seq<Bar>, n: nat)
    requires Ascending(src) && n < |src|
    ensures UpTo(src, src[n].ts - 1) == src[..n]
  {
    if n == |src| - 1 {
      var init := src[..n];
      if init != [] { assert init[|init| - 1].ts <= src[n].ts - 1; }
    } else {
      PrefixBelow(src[..|src| - 1], n);
      assert src[..|src| - 1][..n] == src[..n];
    }
  }

  /** How many rows the venue holds after one stamp and up to another. */
  function Between(src: seq<Bar>, startAfter: int, now: int): int {
    if startAfter <= now then |UpTo(src, now)| - |UpTo(src, startAfter)| else 0
  }

  lemma {:induction false} UpToMonotone(src: seq<Bar>, a: int, b: int)
    requires a <= b
    ensures |UpTo(src, a)| <= |UpTo(src, b)| <= |src|
  {
    if src != [] && src[|src| - 1].ts > a { UpToMonotone(src[..|src| - 1], a, b); }
  }

  /** On the grid there is at most one such row for every step, and one more. */
  lemma BetweenBounded(src: seq<Bar>, startAfter: int, now: int, step: int)
    requires Ascending(src) && step > 0 && GridVenue(src, step) && startAfter <= now
    ensures Between(src, startAfter, now) <= (now - startAfter) / step + 1
  {
    var c, d := |UpTo(src, startAfter)|, |UpTo(src, now)|;
    UpToExact(src, startAfter);
    UpToExact(src, now);
    UpToMonotone(src, startAfter, now);
    var rows := src[c..d];
    forall k | 0 <= k < |rows|
      ensures OnGrid(rows[k].ts, step) && startAfter <= rows[k].ts <= now
    {
      assert rows[k] == src[c + k] && src[..d][c + k] == src[c + k];
      assert src[c + k] in UpTo(src, now);
    }
    GridRowsBounded(rows, startAfter, now, step);
  }

  // ---- the walk ----

  function CurrentBar(now: int, barSize: int): int
    requires barSize > 0
  {
    now / barSize * barSize
  }

  /** The rows the walk is for: closed, newer than what is stored, well formed. */
  predicate Wanted(b: Bar, startAfter: int, currentBar: int, broken: set<int>) {
    startAfter < b.ts < currentBar && b.ts !in broken
  }

  /** Old rows are as they were; the others are wanted rows of the venue. */
  ghost predicate OnlyAdded(before: map<int, Kline>, rows: map<int, Kline>, src: seq<Bar>, startAfter: int, currentBar: int, broken: set<int>) {
    && (forall x :: x in before ==> x in rows && rows[x] == before[x])
    && (forall x :: x in rows && x !in before ==> Bar(x, rows[x]) in src && Wanted(Bar(x, rows[x]), startAfter, currentBar, broken))
  }

  /** Insert the wanted rows of a page that are not stored yet, counting them. */
  method InsertNew(t: Table, page: seq<Bar>, src: seq<Bar>, startAfter: int, currentBar: int, broken: set<int>) returns (n: nat)
    requires forall b :: b in page ==> b in src
    modifies t
    ensures OnlyAdded(old(t.rows), t.rows, src, startAfter, currentBar, broken)
    ensures forall b :: b in page && Wanted(b, startAfter, currentBar, broken) ==> b.ts in t.rows
    ensures |t.rows| == |old(t.rows)| + n && n <= |page|
  {
    n := 0;
    for i := 0 to |page|
      invariant OnlyAdded(old(t.rows), t.rows, src, startAfter, currentBar, broken)
      invariant forall k :: 0 <= k < i && Wanted(page[k], startAfter, currentBar, broken) ==> page[k].ts in t.rows
      invariant |t.rows| == |old(t.rows)| + n && n <= i
    {
      var b := page[i];
      if startAfter < b.ts < currentBar && b.ts !in broken && b.ts !in t.rows {
        assert b in page && Bar(b.ts, b.row) == b;
        t.rows := t.rows[b.ts := b.row];
        n := n + 1;
      }
    }
  }

  /** Every wanted row above a stamp is stored. */
  ghost predicate HeldAbove(rows: map<int, Kline>, src: seq<Bar>, to: int, startAfter: int, currentBar: int, broken: set<int>) {
    forall b :: b in src && to < b.ts && Wanted(b, startAfter, currentBar, broken) ==> b.ts in rows
  }

  lemma PageHeld(before: map<int, Kline>, rows: map<int, Kline>, src: seq<Bar>, to: int, limit: nat,
                 startAfter: int, currentBar: int, broken: set<int>)
    requires Ascending(src) && limit > 0
    requires HeldAbove(before, src, to, startAfter, currentBar, broken)
    requires OnlyAdded(before, rows, src, startAfter, currentBar, broken)
    requires forall b :: b in Newest(src, to, limit) && Wanted(b, startAfter, currentBar, broken) ==> b.ts in rows
    ensures var page := Newest(src, to, limit);
      && (page != [] ==> HeldAbove(rows, src, page[0].ts - 1, startAfter, currentBar, broken))
      && (|page| < limit ==> forall lower :: HeldAbove(rows, src, lower, startAfter, currentBar, broken))
  {
    NewestExact(src, to, limit);
  }

  /** The rows after the stored history fit the page budget, and only requests past the
      pages they fill can fail. */
  predicate Unhindered(src: seq<Bar>, startAfter: int, now: int, limit: nat, maxPages: nat, failing: set<nat>) {
    var rows := Between(src, startAfter, now);
    rows < maxPages * limit && forall p :: p in failing ==> p * limit > rows
  }

  /** What was read in full pages lies after the stored history. */
  lemma StillAbove(src: seq<Bar>, startAfter: int, to: int, now: int, read: int)
    requires to <= now && (startAfter <= to || (to == now && read == 0)) && |UpTo(src, to)| + read == |UpTo(src, now)|
    ensures read <= Between(src, startAfter, now)
  {
    if startAfter <= to { UpToMonotone(src, startAfter, to); }
  }

  lemma AddedTwice(a: map<int, Kline>, b: map<int, Kline>, c: map<int, Kline>, src: seq<Bar>, startAfter: int, currentBar: int, broken: set<int>)
    requires OnlyAdded(a, b, src, startAfter, currentBar, broken) && OnlyAdded(b, c, src, startAfter, currentBar, broken)
    ensures OnlyAdded(a, c, src, startAfter, currentBar, broken)
  {}

  /** One page, its new rows inserted. */
  method TakePage(t: Table, src: seq<Bar>, to: int, limit: nat, startAfter: int, currentBar: int, broken: set<int>)
    returns (page: seq<Bar>, n: nat)
    requires Ascending(src) && limit > 0 && HeldAbove(t.rows, src, to, startAfter, currentBar, broken)
    modifies t
    ensures page == Newest(src, to, limit) && n <= |page| <= limit
    ensures OnlyAdded(old(t.rows), t.rows, src, startAfter, currentBar, broken) && |t.rows| == |old(t.rows)| + n
    ensures page != [] ==> page[0] in src && page[0].ts <= to && HeldAbove(t.rows, src, page[0].ts - 1, startAfter, currentBar, broken)
    ensures |page| < limit ==> HeldAbove(t.rows, src, startAfter, startAfter, currentBar, broken)
  {
    page := Newest(src, to, limit);
    ghost var before := t.rows;
    NewestExact(src, to, limit);
    if page != [] { assert page[0] in page; }
    n := InsertNew(t, page, src, startAfter, currentBar, broken);
    PageHeld(before, t.rows, src, to, limit, startAfter, currentBar, broken);
  }

  /** Walk back from now. A request numbered in failing raises and ends the walk.
      complete says that the walk ended because nothing wanted was left. */
  method PaginateBackward(t: Table, src: seq<Bar>, startAfter: int, barSize: int, now: int,
                          limit: nat, maxPages: nat, failing: set<nat>, broken: set<int>)
    returns (inserted: nat, ghost complete: bool, ghost requests: nat)
    requires Ascending(src) && barSize > 0 && limit > 0
    modifies t
    ensures OnlyAdded(old(t.rows), t.rows, src, startAfter, CurrentBar(now, barSize), broken)
    ensures |t.rows| == |old(t.rows)| + inserted
    ensures complete && GridVenue(src, barSize) ==> HeldAbove(t.rows, src, startAfter, startAfter, CurrentBar(now, barSize), broken)
    ensures Unhindered(src, startAfter, now, limit, maxPages, failing) ==> complete
    ensures requests <= maxPages && inserted <= requests * limit
  {
    var to := now;
    var currentBar := CurrentBar(now, barSize);
    FloorOnGrid(now, barSize);
    inserted, complete, requests := 0, false, 0;
    ghost var read := 0;
    for p := 0 to maxPages
      invariant !complete
      invariant OnlyAdded(old(t.rows), t.rows, src, startAfter, currentBar, broken)
      invariant |t.rows| == |old(t.rows)| + inserted
      invariant requests == p && inserted <= read
      invariant HeldAbove(t.rows, src, to, startAfter, currentBar, broken)
      invariant read == p * limit && |UpTo(src, to)| + read == |UpTo(src, now)|
      invariant to <= now && (startAfter <= to || (to == now && read == 0))
    {
      StillAbove(src, startAfter, to, now, read);
      if p in failing { return; }
      ghost var before := t.rows;
      var page, n := TakePage(t, src, to, limit, startAfter, currentBar, broken);
      AddedTwice(old(t.rows), before, t.rows, src, startAfter, currentBar, broken);
      NextPage(p, limit);
      inserted, requests := inserted + n, p + 1;
      if page == [] {
        complete := true;
        return;
      }
      var oldest := page[0].ts;
      if oldest <= startAfter + barSize {
        complete := true;
        if GridVenue(src, barSize) { NothingBetween(src, page[0], startAfter, barSize); }
        return;
      }
      if |page| < limit {
        complete := true;
        return;
      }
      OlderRowsShrink(src, to, limit);
      read := read + limit;
      to := oldest - 1;
    }
    StillAbove(src, startAfter, to, now, read);
  }

  lemma NextPage(p: nat, limit: nat)
    ensures (p + 1) * limit == p * limit + limit
  {
  }

  /** On the grid no wanted row lies between the stored history and a page that
      reached one bar above it. */
  lemma NothingBetween(src: seq<Bar>, oldest: Bar, startAfter: int, barSize: int)
    requires barSize > 0 && GridVenue(src, barSize) && oldest in src && oldest.ts <= startAfter + barSize
    ensures forall b :: b in src && b.ts < oldest.ts ==> b.ts <= startAfter
  {
    forall b | b in src && b.ts < oldest.ts
      ensures b.ts <= startAfter
    {
      GridStep(b.ts, oldest.ts, barSize);
    }
  }

  // ---- where a refresh starts ----

  /** The newer of the last stored bar (0 when there is none) and the floor. */
  function StartAfter(latest: int, now: int, lookbackHours: int, extendHistory: bool): int {
    var floor := now - lookbackHours * HOUR;
    if extendHistory || latest < floor - 1 then floor - 1 else latest
  }

  /** A refresh asks for every closed bar after the last stored one exactly when
      the next one is not below the floor, or has not closed: an outage longer
      than the lookback leaves a hole. */
  lemma RefreshHealsIff(latest: int, now: int, lookbackHours: int)
    requires OnGrid(latest, HOUR)
    ensures (forall x :: OnGrid(x, HOUR) && latest < x < CurrentBar(now, HOUR) ==> StartAfter(latest, now, lookbackHours, false) < x)
      <==> latest + HOUR >= now - lookbackHours * HOUR || latest + HOUR >= CurrentBar(now, HOUR)
  {
    GridShift(latest, HOUR);
    forall x | OnGrid(x, HOUR) && latest < x ensures latest + HOUR <= x { GridStep(latest, x, HOUR); }
  }

  function PageBudget(extendHistory: bool): nat { if extendHistory then BACKFILL_PAGES else REFRESH_PAGES }

  /** However long the venue's history, a lookback asks for little more rows than its
      hours. */
  lemma LookbackFits(src: seq<Bar>, startAfter: int, now: int, lookbackHours: int)
    requires Ascending(src) && GridVenue(src, HOUR) && lookbackHours >= 0 && startAfter >= now - lookbackHours * HOUR - 1
    ensures Between(src, startAfter, now) <= lookbackHours + 2
  {
    if startAfter <= now { BetweenBounded(src, startAfter, now, HOUR); }
  }

  /** What a refresh is for: a closed and well-formed bar of the lookback, later than all
      that is stored; an extension takes the earlier ones too. */
  ghost predicate Due(b: Bar, stored: map<int, Kline>, now: int, lookbackHours: int, extendHistory: bool, broken: set<int>) {
    && now - lookbackHours * 3600 <= b.ts && b.ts + 3600 <= now && b.ts !in broken
    && (extendHistory || (0 < b.ts && forall x :: x in stored ==> x < b.ts))
  }

  lemma ClosedBy(x: int, now: int)
    requires OnGrid(x, HOUR)
    ensures x < CurrentBar(now, HOUR) <==> x + 3600 <= now
  {
    FloorOnGrid(now, HOUR);
    if x < CurrentBar(now, HOUR) { GridStep(x, CurrentBar(now, HOUR), HOUR); }
  }

  /** On the hourly grid the rows a walk wants from its start on are those that are due. */
  lemma WantedIsDue(b: Bar, stored: map<int, Kline>, latest: int, now: int, lookbackHours: int, extendHistory: bool, broken: set<int>)
    requires OnGrid(b.ts, HOUR) && forall x :: x in stored ==> 0 < x <= latest
    requires if stored == map[] then latest == 0 else latest in stored
    ensures Wanted(b, StartAfter(latest, now, lookbackHours, extendHistory), CurrentBar(now, HOUR), broken)
      <==> Due(b, stored, now, lookbackHours, extendHistory, broken)
  {
    ClosedBy(b.ts, now);
  }

  /** After a walk from the right start: the bars that were due are stored when the walk was
      complete, and no others were added. */
  lemma DueStored(before: map<int, Kline>, rows: map<int, Kline>, src: seq<Bar>, latest: int, now: int, lookbackHours: int,
                  extendHistory: bool, broken: set<int>)
    requires GridVenue(src, HOUR) && forall x :: x in before ==> 0 < x <= latest
    requires if before == map[] then latest == 0 else latest in before
    requires OnlyAdded(before, rows, src, StartAfter(latest, now, lookbackHours, extendHistory), CurrentBar(now, HOUR), broken)
    ensures forall x :: x in rows && x !in before ==> Due(Bar(x, rows[x]), before, now, lookbackHours, extendHistory, broken)
    ensures var start := StartAfter(latest, now, lookbackHours, extendHistory);
      HeldAbove(rows, src, start, start, CurrentBar(now, HOUR), broken) ==>
        forall b :: b in src && Due(b, before, now, lookbackHours, extendHistory, broken) ==> b.ts in rows
  {
    var start := StartAfter(latest, now, lookbackHours, extendHistory);
    forall b | b in src
      ensures Wanted(b, start, CurrentBar(now, HOUR), broken) <==> Due(b, before, now, lookbackHours, extendHistory, broken)
    {
      WantedIsDue(b, before, latest, now, lookbackHours, extendHistory, broken);
    }
  }

  /** fetch_liquidations: from the stored history, or the floor, to now. */
  method FetchLiquidationsBackward(t: Table, src: seq<Bar>, now: int, lookbackHours: int, extendHistory: bool,
                                   failing: set<nat>, broken: set<int>)
    returns (inserted: nat, ghost startAfter: int, ghost requests: nat)
    requires Ascending(src) && forall x :: x in t.rows ==> x > 0
    modifies t
    ensures |t.rows| == |old(t.rows)| + inserted
    ensures requests <= (if extendHistory then 60 else 30) && inserted <= requests * 2000
    ensures forall x :: x in old(t.rows) ==> x in t.rows && t.rows[x] == old(t.rows)[x]
    ensures forall x :: x in t.rows && x !in old(t.rows) ==> Bar(x, t.rows[x]) in src
    ensures GridVenue(src, HOUR) ==>
      forall x :: x in t.rows && x !in old(t.rows) ==> Due(Bar(x, t.rows[x]), old(t.rows), now, lookbackHours, extendHistory, broken)
    ensures extendHistory ==> startAfter == now - lookbackHours * 3600 - 1
    ensures !extendHistory ==> startAfter >= now - lookbackHours * 3600 - 1 && forall x :: x in old(t.rows) ==> x <= startAfter
    ensures GridVenue(src, HOUR) && Unhindered(src, startAfter, now, 2000, if extendHistory then 60 else 30, failing) ==>
      forall b :: b in src && Due(b, old(t.rows), now, lookbackHours, extendHistory, broken) ==> b.ts in t.rows
    ensures GridVenue(src, HOUR) && failing == {} && 0 <= lookbackHours < (if extendHistory then 60 else 30) * 2000 - 2 ==>
      forall b :: b in src && Due(b, old(t.rows), now, lookbackHours, extendHistory, broken) ==> b.ts in t.rows
  {
    var last := LastStamp(t);
    var start := StartAfter(last.GetOr(0), now, lookbackHours, extendHistory);
    startAfter := start;
    ghost var complete;
    ghost var before := t.rows;
    inserted, complete, requests := PaginateBackward(t, src, start, HOUR, now, PAGE_ROWS,
                                                     PageBudget(extendHistory), failing, broken);
    if GridVenue(src, HOUR) {
      if 0 <= lookbackHours { LookbackFits(src, start, now, lookbackHours); }
      DueStored(before, t.rows, src, last.GetOr(0), now, lookbackHours, extendHistory, broken);
    }
  }
}
