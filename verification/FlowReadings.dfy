/** What a line of the flow chart shows, said of the stored rows, open interest and funding
    and not of the functions that compute it (dashboard/market.py `flow`). */
module FlowReadings {
  import opened BarFolds
  import opened BarTallies
  import opened Flow
  import opened GridMath
  import opened Prelude

  // ---- what a fetch reads ----

  lemma SuffixOrdered(rows: seq<Row>, c: nat)
    requires Ordered(rows) && c <= |rows|
    ensures Ordered(rows[c..])
  {}

  /** The rows stamped x or later, in order, and no others. */
  lemma RowsRead(rows: seq<Row>, x: int)
    requires Ordered(rows)
    ensures Ordered(RowsFrom(rows, x)) && |RowsFrom(rows, x)| <= |rows|
    ensures var c := |rows| - |RowsFrom(rows, x)|;
      && RowsFrom(rows, x) == rows[c..]
      && (forall i :: 0 <= i < c ==> rows[i].time < x) && (forall i :: c <= i < |rows| ==> rows[i].time >= x)
  {
    StartIs(rows, x);
    assert RowsFrom(rows, x) == rows[Start(rows, x)..];
    SuffixOrdered(rows, Start(rows, x));
  }

  lemma SpotRead(spot: Option<map<int, SpotRow>>, x: int, t: int)
    ensures SpotFrom(spot, x).Some? <==> spot.Some?
    ensures t >= x ==> (SpotAt(SpotFrom(spot, x), t) <==> SpotAt(spot, t))
    ensures t >= x && SpotAt(spot, t) ==> SpotFrom(spot, x).value[t] == spot.value[t]
  {}

  /** A value is carried for its own period, or for one bar when that is longer; an
      incremental fetch starts one carry and one bar earlier. */
  lemma Reaches(f: Frame)
    requires Offered(f)
    ensures f.oiReach == (if f.secs <= 3600 then 3600 else f.secs)
    ensures f.fundReach == (if f.secs <= 28800 then 28800 else f.secs)
    ensures forall after :: FetchStart(f, after) == after - f.oiReach - f.secs
  {}

  // ---- what a line shows ----

  /** The value stamped last in [oldest, end). */
  ghost predicate Newest(s: Series, oldest: int, end: int, v: Option<real>)
    requires |s.ts| == |s.vals|
  {
    match v
    case None => forall i :: 0 <= i < |s.ts| ==> !(oldest <= s.ts[i] < end)
    case Some(x) => exists i :: 0 <= i < |s.ts| && oldest <= s.ts[i] < end && s.vals[i] == x && (i + 1 < |s.ts| ==> s.ts[i + 1] >= end)
  }

  /** Open interest and funding as read from one day before the fetch on: within the bar, or
      the newest still carried into it. */
  ghost predicate CarriesOi(feed: Feed, f: Frame, from: int, t: int, o: Option<real>)
    requires f.secs > 0 && Sound(feed)
  {
    if feed.oi.None? then o == None else Newest(feed.oi.value, Later(from - 86400, t - f.oiReach), t + f.secs, o)
  }

  ghost predicate CarriesFunding(feed: Feed, f: Frame, from: int, t: int, fund: Option<real>)
    requires f.secs > 0 && Sound(feed)
  {
    Newest(feed.funding, Later(from - 86400, t - f.fundReach), t + f.secs, fund)
  }

  function Later(x: int, y: int): int { if x < y then y else x }

  /** A change in percent of a value that is there and not zero. */
  predicate Change(before: Option<real>, now: Option<real>, pct: Option<real>) {
    if before.None? || now.None? || before.value == 0.0 then pct == None
    else pct.Some? && pct.value * before.value == (now.value - before.value) * 100.0
  }

  /** How far from is above to, in hundredths of a percent of to. */
  predicate Spread(from: Option<real>, to: Option<real>, bp: Option<real>) {
    if from.None? || to.None? || to.value == 0.0 then bp == None
    else bp.Some? && bp.value * to.value == (from.value - to.value) * 10000.0
  }

  /** Taker flow and open interest both move, each past its threshold. */
  predicate Labelled(flow: Option<real>, change: Option<real>, gate: Gate, quadrant: Option<Label>) {
    if flow.None? || change.None? || gate.cvd.None? || gate.oi.None?
       || flow.value == 0.0 || -gate.cvd.value < flow.value < gate.cvd.value
       || change.value == 0.0 || -gate.oi.value < change.value < gate.oi.value
    then quadrant == None
    else quadrant == Some(match (flow.value > 0.0, change.value > 0.0)
                       case (true, true) => LongsOpening
                       case (true, false) => ShortCovering
                       case (false, true) => ShortsOpening
                       case (false, false) => LongsClosing)
  }

  /** The sums of the bar's rows, each shown only when none of its parts is missing. */
  ghost predicate ShowsSums(line: Line, rows: seq<Row>, spot: Option<map<int, SpotRow>>, f: Frame)
    requires f.secs > 0
  {
    var s := RowsOf(rows, f, line.time);
    var sided := forall i :: i in s ==> TwoSided(rows[i]);
    var spotted := spot.Some? && SpotsOf(rows, spot, f, line.time) == s;
    var perp, both := PerpSum(rows, f, line.time), SpotSum(rows, spot, f, line.time);
    && s != {}
    && line.perp == (if sided then Some(perp) else None)
    && line.spot == (if spotted then Some(both) else None)
    && line.div == (if sided && spotted then Some(both - perp) else None)
  }

  /** The last perp close against the last spot close, when every row has its spot row. */
  ghost predicate ShowsBasis(line: Line, rows: seq<Row>, spot: Option<map<int, SpotRow>>, f: Frame)
    requires f.secs > 0
  {
    var s := RowsOf(rows, f, line.time);
    if spot.Some? && SpotsOf(rows, spot, f, line.time) == s
    then forall i: nat :: LastOf(s, i) ==> SpotAt(spot, rows[i].time) && Spread(rows[i].close, spot.value[rows[i].time].close, line.basis)
    else line.basis == None
  }

  lemma SameSize(s: set<nat>, t: set<nat>)
    requires s <= t
    ensures |s| == |t| <==> s == t
  {
    assert t == s + (t - s);
    assert |t| == |s| + |t - s|;
  }

  lemma ChangeIs(now: Option<real>, before: Option<real>)
    ensures Change(before, now, Delta(now, before))
  {
    if before.Some? && now.Some? && before.value != 0.0 { Ratio(now.value - before.value, before.value, 100.0); }
  }

  lemma Ratio(x: real, y: real, c: real)
    requires y != 0.0
    ensures x / y * c * y == x * c
  {
    var q := x / y;
    assert q * y == x;
    Reorder(q, c, y);
  }

  lemma Reorder(q: real, c: real, y: real)
    ensures q * c * y == q * y * c
  {}

  lemma LabelIs(flow: Option<real>, change: Option<real>, gate: Gate)
    ensures Labelled(flow, change, gate, LabelOf(flow, change, gate))
  {}

  lemma SumsShown(rows: seq<Row>, spot: Option<map<int, SpotRow>>, f: Frame, b: Tally, o: Option<real>, prev: Option<real>, fund: Option<real>, gate: Gate)
    requires f.secs > 0 && IsTally(rows, spot, f, b) && b.n > 0
    ensures ShowsSums(LineOf(b, spot.Some?, o, prev, fund, gate), rows, spot, f)
  {
    SameSize(SpotsOf(rows, spot, f, b.time), RowsOf(rows, f, b.time));
  }

  lemma SpreadIs(b: Tally, o: Option<real>, prev: Option<real>, fund: Option<real>, gate: Gate)
    requires b.nSpot == b.n > 0
    ensures Spread(b.perpClose, b.spotClose, LineOf(b, true, o, prev, fund, gate).basis)
  {
    if b.perpClose.Some? && b.spotClose.Some? && b.spotClose.value != 0.0 {
      Ratio(b.perpClose.value - b.spotClose.value, b.spotClose.value, 10000.0);
    }
  }

  lemma BasisShown(rows: seq<Row>, spot: Option<map<int, SpotRow>>, f: Frame, b: Tally, o: Option<real>, prev: Option<real>, fund: Option<real>, gate: Gate)
    requires f.secs > 0 && IsTally(rows, spot, f, b) && b.n > 0
    ensures ShowsBasis(LineOf(b, spot.Some?, o, prev, fund, gate), rows, spot, f)
  {
    var s, line := RowsOf(rows, f, b.time), LineOf(b, spot.Some?, o, prev, fund, gate);
    SameSize(SpotsOf(rows, spot, f, b.time), s);
    if spot.Some? && SpotsOf(rows, spot, f, b.time) == s {
      SpreadIs(b, o, prev, fund, gate);
      assert forall i: nat :: LastOf(s, i) ==> b.perpClose == rows[i].close;
    }
  }

  lemma NewestAttached(s: Series, oldest: int, end: int)
    requires WellFormed(s)
    ensures Newest(s, oldest, end, Attached(s, oldest, end))
  {
    CutPrefix(s.ts, end);
    var j := CutAt(s.ts, end);
    if j > 0 && s.ts[j - 1] >= oldest {
      assert Attached(s, oldest, end) == Some(s.vals[j - 1]) && s.ts[j - 1] < end;
      assert j < |s.ts| ==> s.ts[j] >= end;
      assert (j - 1) + 1 == j;
    }
  }

  lemma NewestSeen(s: Series, from: int, oldest: int, end: int)
    requires WellFormed(s)
    ensures Newest(s, Later(from - 86400, oldest), end, Seen(s, from, oldest, end))
  {
    NewestAttached(s, Later(from - 86400, oldest), end);
  }

  /** On a coarser timeframe no bar is kept that has not ended. */
  lemma KeptHasEnded(bars: seq<Tally>, secs: int, now: int, k: nat)
    requires RisingTimes(bars) && k < Kept(TallyTimes(bars), secs, now)
    ensures bars[k].time + secs <= now
  {
    var n := Kept(TallyTimes(bars), secs, now);
    assert TallyTimes(bars)[n - 1] == bars[n - 1].time && bars[k].time <= bars[n - 1].time;
  }

  /** ... and every one that has is. */
  lemma EndedIsKept(bars: seq<Tally>, secs: int, now: int, k: nat)
    requires k < |bars| && bars[k].time + secs <= now
    ensures k < Kept(TallyTimes(bars), secs, now)
  {
    assert TallyTimes(bars)[k] == bars[k].time;
  }

  /** The bars read from a start on are those of the fold, without the unfinished ones. */
  lemma BarsRead(feed: Feed, f: Frame, from: int, now: int, k: nat)
    requires f.secs > 0 && Sound(feed) && k < |Bars(feed, f, from, now)|
    ensures var b, rows, spot := Bars(feed, f, from, now)[k], RowsFrom(feed.rows, from), SpotFrom(feed.spot, from);
      b.n > 0 && IsTally(rows, spot, f, b) && (f.secs == f.native || b.time + f.secs <= now)
  {
    var rows, spot := RowsFrom(feed.rows, from), SpotFrom(feed.spot, from);
    RowsRead(feed.rows, from);
    TallyIs(rows, spot, f, k);
    assert RisingTimes(Fold(rows, spot, f)) by { FoldGroups(rows, spot, f); }
    if f.secs != f.native { KeptHasEnded(Fold(rows, spot, f), f.secs, now, k); }
  }

  /** Line k of a full fetch, in stored terms. */
  ghost predicate Reads(feed: Feed, f: Frame, from: int, lines: seq<Line>, k: nat, gate: Gate)
    requires f.secs > 0 && Sound(feed) && k < |lines|
  {
    var line, rows, spot := lines[k], RowsFrom(feed.rows, from), SpotFrom(feed.spot, from);
    && ShowsSums(line, rows, spot, f) && ShowsBasis(line, rows, spot, f) && CarriesOi(feed, f, from, line.time, line.oi)
    && CarriesFunding(feed, f, from, line.time, line.funding)
    && Change(if k == 0 then None else lines[k - 1].oi, line.oi, line.doi)
    && Labelled(line.perp, line.doi, gate, line.quadrant)
  }

  lemma OiCarried(feed: Feed, f: Frame, from: int, t: int)
    requires f.secs > 0 && Sound(feed)
    ensures CarriesOi(feed, f, from, t, OiAt(feed, f, from, t))
  {
    if feed.oi.Some? { NewestSeen(feed.oi.value, from, t - f.oiReach, t + f.secs); }
  }

  lemma FundingCarried(feed: Feed, f: Frame, from: int, t: int)
    requires f.secs > 0 && Sound(feed)
    ensures CarriesFunding(feed, f, from, t, FundAt(feed, f, from, t))
  {
    NewestSeen(feed.funding, from, t - f.fundReach, t + f.secs);
  }

  lemma MovesShown(b: Tally, spotted: bool, o: Option<real>, prev: Option<real>, fund: Option<real>, gate: Gate)
    ensures var line := LineOf(b, spotted, o, prev, fund, gate);
      line.time == b.time && line.oi == o && line.funding == fund && Change(prev, o, line.doi) && Labelled(line.perp, line.doi, gate, line.quadrant)
  {
    var line := LineOf(b, spotted, o, prev, fund, gate);
    ChangeIs(o, prev);
    LabelIs(line.perp, line.doi, gate);
  }

  /** Line k is the line of bar k, with the open interest of the line before it. */
  lemma LineIs(feed: Feed, f: Frame, from: int, now: int, gate: Gate, k: nat) returns (prev: Option<real>)
    requires f.secs > 0 && Sound(feed) && k < |Full(feed, f, from, now, gate)|
    ensures k < |Bars(feed, f, from, now)|
    ensures var lines, b := Full(feed, f, from, now, gate), Bars(feed, f, from, now)[k];
      && prev == (if k == 0 then None else lines[k - 1].oi)
      && lines[k] == LineOf(b, feed.spot.Some?, OiAt(feed, f, from, b.time), prev, FundAt(feed, f, from, b.time), gate)
  {
    var bars := Bars(feed, f, from, now);
    prev := if k == 0 then None else OiAt(feed, f, from, bars[k - 1].time);
    LineAtIs(feed, f, from, bars, None, k, gate, bars[k], prev);
    if k > 0 {
      var before := if k == 1 then None else OiAt(feed, f, from, bars[k - 2].time);
      LineAtIs(feed, f, from, bars, None, k - 1, gate, bars[k - 1], before);
    }
  }

  lemma LineReads(feed: Feed, f: Frame, from: int, now: int, gate: Gate, k: nat)
    requires f.secs > 0 && Sound(feed) && k < |Full(feed, f, from, now, gate)|
    ensures var lines := Full(feed, f, from, now, gate);
      Reads(feed, f, from, lines, k, gate) && (f.secs == f.native || lines[k].time + f.secs <= now)
  {
    var prev := LineIs(feed, f, from, now, gate, k);
    var b, rows, spot := Bars(feed, f, from, now)[k], RowsFrom(feed.rows, from), SpotFrom(feed.spot, from);
    var o, fund := OiAt(feed, f, from, b.time), FundAt(feed, f, from, b.time);
    BarsRead(feed, f, from, now, k);
    SumsShown(rows, spot, f, b, o, prev, fund, gate);
    BasisShown(rows, spot, f, b, o, prev, fund, gate);
    OiCarried(feed, f, from, b.time);
    FundingCarried(feed, f, from, b.time);
    MovesShown(b, feed.spot.Some?, o, prev, fund, gate);
  }

  /** Every row read whose bar has ended, or is its own bar, is in a line. */
  lemma RowIsShown(feed: Feed, f: Frame, from: int, now: int, gate: Gate, i: nat, b: int)
    requires f.secs > 0 && Sound(feed) && i < |RowsFrom(feed.rows, from)| && Spans(f, b, RowsFrom(feed.rows, from)[i].time)
    requires f.secs == f.native || b + f.secs <= now
    ensures exists k :: 0 <= k < |Full(feed, f, from, now, gate)| && Full(feed, f, from, now, gate)[k].time == b
  {
    var rows, spot := RowsFrom(feed.rows, from), SpotFrom(feed.spot, from);
    RowsRead(feed.rows, from);
    var k := BarOfRow(rows, spot, f, i, b);
    if f.secs != f.native { EndedIsKept(Fold(rows, spot, f), f.secs, now, k); }
    assert Bars(feed, f, from, now)[k].time == b;
    TimesOfLines(feed, f, from, now, gate, k);
  }

  lemma BarOfRow(rows: seq<Row>, spot: Option<map<int, SpotRow>>, f: Frame, i: nat, b: int) returns (k: nat)
    requires f.secs > 0 && Ordered(rows) && i < |rows| && Spans(f, b, rows[i].time)
    ensures k < |Fold(rows, spot, f)| && Fold(rows, spot, f)[k].time == b
  {
    SpansIsKey(f, b, rows[i].time);
    FoldGroups(rows, spot, f);
    assert HasBar(Fold(rows, spot, f), b);
    k :| 0 <= k < |Fold(rows, spot, f)| && Fold(rows, spot, f)[k].time == b;
  }

  predicate RisingLines(lines: seq<Line>) { forall i, j :: 0 <= i < j < |lines| ==> lines[i].time < lines[j].time }

  /** Trimming rising lines cuts off those before x. */
  lemma TrimCuts(lines: seq<Line>, x: int) returns (k: nat)
    requires RisingLines(lines)
    ensures k <= |lines| && Trim(lines, x) == lines[k..]
    ensures (forall i :: 0 <= i < k ==> lines[i].time < x) && (forall i :: k <= i < |lines| ==> lines[i].time >= x)
  {
    var times := LineTimes(lines);
    k := CutAt(times, x);
    CutPrefix(times, x);
    forall i | 0 <= i < |lines|
      ensures times[i] == lines[i].time
    {}
    TrimIs(lines, x, k);
  }

  lemma TimesOfLines(feed: Feed, f: Frame, from: int, now: int, gate: Gate, k: nat)
    requires f.secs > 0 && Sound(feed) && k < |Bars(feed, f, from, now)|
    ensures |Full(feed, f, from, now, gate)| == |Bars(feed, f, from, now)|
    ensures Full(feed, f, from, now, gate)[k].time == Bars(feed, f, from, now)[k].time
  {
    var bars := Bars(feed, f, from, now);
    LineTimesAre(feed, f, from, bars, None, gate);
    assert LineTimes(Full(feed, f, from, now, gate))[k] == TallyTimes(bars)[k];
  }

  lemma AfterTrims(feed: Feed, f: Frame, after: int, now: int, gate: Gate)
    requires f.secs > 0 && Sound(feed)
    ensures After(feed, f, after, now, gate) == Trim(Full(feed, f, FetchStart(f, after), now, gate), after)
  {}

  lemma LinesRise(feed: Feed, f: Frame, from: int, now: int, gate: Gate)
    requires f.secs > 0 && Sound(feed)
    ensures RisingLines(Full(feed, f, from, now, gate))
  {
    var rows, spot := RowsFrom(feed.rows, from), SpotFrom(feed.spot, from);
    RowsRead(feed.rows, from);
    assert RisingTimes(Fold(rows, spot, f)) by { FoldGroups(rows, spot, f); }
    assert RisingTimes(Bars(feed, f, from, now));
    forall k | 0 <= k < |Full(feed, f, from, now, gate)|
      ensures Full(feed, f, from, now, gate)[k].time == Bars(feed, f, from, now)[k].time
    {
      TimesOfLines(feed, f, from, now, gate, k);
    }
  }

  /** An incremental answer is the end of a full fetch that starts earlier. */
  lemma AfterIsTail(feed: Feed, f: Frame, after: int, now: int, gate: Gate) returns (k: nat)
    requires f.secs > 0 && Sound(feed)
    ensures var lines := Full(feed, f, FetchStart(f, after), now, gate);
      && k <= |lines| && After(feed, f, after, now, gate) == lines[k..]
      && (forall i :: 0 <= i < k ==> lines[i].time < after) && (forall i :: k <= i < |lines| ==> lines[i].time >= after)
  {
    var from := FetchStart(f, after);
    AfterTrims(feed, f, after, now, gate);
    LinesRise(feed, f, from, now, gate);
    k := TrimCuts(Full(feed, f, from, now, gate), after);
  }
}
