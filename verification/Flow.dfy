/** The flow endpoint (dashboard/market.py): per-bar order flow with open interest
    and funding carried forward by the clock, fetched in full or from a bar on. */
module Flow {
  import opened BarFolds
  import opened GridMath
  import opened Prelude
  import opened SortedSets

  const DAY := 86400

  /** Stamped values, oldest first. */
  datatype Series = Series(ts: seq<int>, vals: seq<real>)

  predicate WellFormed(s: Series) { |s.ts| == |s.vals| && Increasing(s.ts) }

  /** The tables behind one chart; funding holds the settlement stamps only. */
  datatype Feed = Feed(rows: seq<Row>, spot: Option<map<int, SpotRow>>, oi: Option<Series>, funding: Series)

  predicate Sound(feed: Feed) {
    Ordered(feed.rows) && WellFormed(feed.funding) && (feed.oi.Some? ==> WellFormed(feed.oi.value))
  }

  datatype Label = LongsOpening | ShortCovering | ShortsOpening | LongsClosing

  /** The two thresholds of the quadrant label. */
  datatype Gate = Gate(cvd: Option<real>, oi: Option<real>)

  datatype Line = Line(time: int, perp: Option<real>, spot: Option<real>, div: Option<real>, oi: Option<real>,
                       doi: Option<real>, funding: Option<real>, basis: Option<real>, quadrant: Option<Label>)

  // ---- queries ----

  /** How many stamps are before x, in an ascending list. */
  function CutAt(ts: seq<int>, x: int): (c: nat)
    ensures c <= |ts| && (c > 0 ==> ts[c - 1] < x)
    ensures forall i :: c <= i < |ts| ==> ts[i] >= x
  {
    CutBelow(ts, |ts|, x)
  }

  function CutBelow(ts: seq<int>, n: nat, x: int): (c: nat)
    requires n <= |ts|
    ensures c <= n && (c > 0 ==> ts[c - 1] < x)
    ensures forall i :: c <= i < n ==> ts[i] >= x
  {
    if n == 0 then 0 else if ts[n - 1] < x then n else CutBelow(ts, n - 1, x)
  }

  function RowsFrom(rows: seq<Row>, x: int): seq<Row> { rows[CutAt(Times(rows), x)..] }

  function SpotFrom(spot: Option<map<int, SpotRow>>, x: int): Option<map<int, SpotRow>> {
    if spot.None? then None else Some(map t | t in spot.value && t >= x :: spot.value[t])
  }

  // ---- per bar ----

  /** The last value stamped before `end`, unless stamped before `oldest`. */
  function Attached(s: Series, oldest: int, end: int): Option<real>
    requires |s.ts| == |s.vals|
  {
    var j := CutAt(s.ts, end);
    if j > 0 && s.ts[j - 1] >= oldest then Some(s.vals[j - 1]) else None
  }

  /** The same, when a fetch reads the values from one day before its start on. */
  function Seen(s: Series, from: int, oldest: int, end: int): Option<real>
    requires |s.ts| == |s.vals|
  {
    Attached(s, if from - DAY > oldest then from - DAY else oldest, end)
  }

  function Delta(o: Option<real>, prev: Option<real>): Option<real> {
    if o.Some? && prev.Some? && prev.value != 0.0 then Some((o.value - prev.value) / prev.value * 100.0) else None
  }

  function LabelOf(cvd: Option<real>, doi: Option<real>, gate: Gate): Option<Label> {
    if cvd.None? || doi.None? || cvd.value == 0.0 || doi.value == 0.0 then None
    else if gate.cvd.None? || gate.oi.None? then None
    else if Abs(cvd.value) < gate.cvd.value || Abs(doi.value) < gate.oi.value then None
    else if cvd.value > 0.0 then Some(if doi.value > 0.0 then LongsOpening else ShortCovering)
    else Some(if doi.value > 0.0 then ShortsOpening else LongsClosing)
  }

  function LineOf(b: Tally, hasSpot: bool, o: Option<real>, prev: Option<real>, fund: Option<real>, gate: Gate): Line {
    var perp := if b.perpOk then Some(b.perp) else None;
    var spotOk := hasSpot && b.n > 0 && b.nSpot == b.n;
    var spot := if spotOk then Some(b.spot) else None;
    var div := if spotOk && perp.Some? then Some(b.spot - b.perp) else None;
    var basis :=
      if spotOk && b.spotClose.Some? && b.spotClose.value != 0.0 && b.perpClose.Some?
      then Some((b.perpClose.value - b.spotClose.value) / b.spotClose.value * 10000.0) else None;
    var doi := Delta(o, prev);
    Line(b.time, perp, spot, div, o, doi, fund, basis, LabelOf(perp, doi, gate))
  }

  // ---- what the endpoint returns ----

  function Bars(feed: Feed, f: Frame, from: int, now: int): seq<Tally>
    requires f.secs > 0
  {
    Settled(Fold(RowsFrom(feed.rows, from), SpotFrom(feed.spot, from), f), f, now)
  }

  function OiAt(feed: Feed, f: Frame, from: int, t: int): Option<real>
    requires f.secs > 0 && Sound(feed)
  {
    if feed.oi.None? then None else Seen(feed.oi.value, from, t - f.oiReach, t + f.secs)
  }

  function FundAt(feed: Feed, f: Frame, from: int, t: int): Option<real>
    requires f.secs > 0 && Sound(feed)
  {
    Seen(feed.funding, from, t - f.fundReach, t + f.secs)
  }

  /** The line of bar i; `first` is the open interest before the first bar. */
  function LineAt(feed: Feed, f: Frame, from: int, bars: seq<Tally>, first: Option<real>, i: nat, gate: Gate): Line
    requires f.secs > 0 && Sound(feed) && i < |bars|
  {
    var prev := if i == 0 then first else OiAt(feed, f, from, bars[i - 1].time);
    var t := bars[i].time;
    LineOf(bars[i], feed.spot.Some?, OiAt(feed, f, from, t), prev, FundAt(feed, f, from, t), gate)
  }

  function LinesOf(feed: Feed, f: Frame, from: int, bars: seq<Tally>, first: Option<real>, gate: Gate): seq<Line>
    requires f.secs > 0 && Sound(feed)
  {
    seq(|bars|, i requires 0 <= i < |bars| => LineAt(feed, f, from, bars, first, i, gate))
  }

  function Trim(lines: seq<Line>, x: int): seq<Line> {
    if lines == [] then []
    else
      Trim(lines[..|lines| - 1], x) + if lines[|lines| - 1].time >= x then [lines[|lines| - 1]] else []
  }

  function Full(feed: Feed, f: Frame, start: int, now: int, gate: Gate): seq<Line>
    requires f.secs > 0 && Sound(feed)
  {
    LinesOf(feed, f, start, Bars(feed, f, start, now), None, gate)
  }

  /** Where an incremental fetch starts reading: the carry and one bar earlier. */
  function FetchStart(f: Frame, after: int): int
    requires f.secs > 0
  {
    after - (f.oiReach + f.secs)
  }

  function After(feed: Feed, f: Frame, after: int, now: int, gate: Gate): seq<Line>
    requires f.secs > 0 && Sound(feed)
  {
    var from := FetchStart(f, after);
    Trim(LinesOf(feed, f, from, Bars(feed, f, from, now), None, gate), after)
  }

  // ---- cuts ----

  lemma CutPrefix(ts: seq<int>, x: int)
    requires Increasing(ts)
    ensures forall i :: 0 <= i < CutAt(ts, x) ==> ts[i] < x
  {}

  lemma CutUnique(ts: seq<int>, x: int, k: nat)
    requires Increasing(ts) && k <= |ts|
    requires k > 0 ==> ts[k - 1] < x
    requires k < |ts| ==> ts[k] >= x
    ensures CutAt(ts, x) == k
  {
    CutPrefix(ts, x);
  }

  // ---- carried values ----

  predicate Within(s: Series, i: int, oldest: int, end: int) { 0 <= i < |s.ts| && oldest <= s.ts[i] < end }

  /** A bar carries the newest value of its validity window, and nothing exactly
      when the window is empty. */
  lemma AttachedIsNewest(s: Series, oldest: int, end: int)
    requires WellFormed(s)
    ensures Attached(s, oldest, end).None? <==> forall i :: 0 <= i < |s.ts| ==> !Within(s, i, oldest, end)
    ensures forall i | Within(s, i, oldest, end) && (i + 1 < |s.ts| ==> s.ts[i + 1] >= end) :: Attached(s, oldest, end) == Some(s.vals[i])
  {
    CutPrefix(s.ts, end);
    var j := CutAt(s.ts, end);
    if j > 0 && s.ts[j - 1] >= oldest { assert Within(s, j - 1, oldest, end); }
  }

  /** Bisection among the stamps read, those from index c on, then the age test. */
  function Bisected(s: Series, c: nat, oldest: int, end: int): Option<real>
    requires |s.ts| == |s.vals|
  {
    var j := CutAt(s.ts, end) - 1;
    if j >= c && s.ts[j] >= oldest then Some(s.vals[j]) else None
  }

  lemma ReadIsSeen(s: Series, from: int, oldest: int, end: int)
    requires WellFormed(s)
    ensures Bisected(s, CutAt(s.ts, from - DAY), oldest, end) == Seen(s, from, oldest, end)
  {
    CutPrefix(s.ts, from - DAY);
  }

  /** One day of lead-in covers every carry. */
  lemma ReachWithinDay(f: Frame)
    requires Offered(f)
    ensures f.secs <= f.oiReach <= DAY && 0 < f.fundReach <= DAY
    ensures f.secs < DAY ==> f.oiReach + f.secs <= DAY
  {}

  lemma OiSame(feed: Feed, f: Frame, x: int, y: int, t: int)
    requires f.secs > 0 && Sound(feed)
    requires x - DAY <= t - f.oiReach && y - DAY <= t - f.oiReach
    ensures OiAt(feed, f, x, t) == OiAt(feed, f, y, t)
  {}

  lemma FundSame(feed: Feed, f: Frame, x: int, y: int, t: int)
    requires f.secs > 0 && Sound(feed)
    requires x - DAY <= t - f.fundReach && y - DAY <= t - f.fundReach
    ensures FundAt(feed, f, x, t) == FundAt(feed, f, y, t)
  {}

  // ---- bars of a suffix ----

  lemma {:induction false} SpotCut(rows: seq<Row>, spot: Option<map<int, SpotRow>>, x: int, f: Frame)
    requires f.secs > 0 && forall i :: 0 <= i < |rows| ==> rows[i].time >= x
    ensures Fold(rows, SpotFrom(spot, x), f) == Fold(rows, spot, f)
  {
    if rows != [] {
      SpotCut(rows[..|rows| - 1], spot, x, f);
      var r := rows[|rows| - 1];
      forall c: Tally
        ensures Absorb(c, r, SpotFrom(spot, x)) == Absorb(c, r, spot)
      {}
    }
  }

  /** Where the rows from x on start. */
  function Start(rows: seq<Row>, x: int): (c: nat)
    ensures c <= |rows|
  {
    CutAt(Times(rows), x)
  }

  lemma StartIs(rows: seq<Row>, x: int)
    requires Ordered(rows)
    ensures forall i :: 0 <= i < Start(rows, x) ==> rows[i].time < x
    ensures forall i :: Start(rows, x) <= i < |rows| ==> rows[i].time >= x
  {
    CutPrefix(Times(rows), x);
    forall i | 0 <= i < |rows|
      ensures rows[i].time == Times(rows)[i]
    {}
  }

  lemma StartMonotone(rows: seq<Row>, x: int, y: int)
    requires Ordered(rows) && x <= y
    ensures Start(rows, x) <= Start(rows, y)
  {
    StartIs(rows, x);
    StartIs(rows, y);
  }

  lemma FoldAtBar(rows: seq<Row>, c: nat, d: nat, spot: Option<map<int, SpotRow>>, f: Frame, after: int)
    requires f.secs > 0 && c <= d <= |rows| && Key(f, after) == after
    requires c < d ==> rows[d - 1].time < after
    requires d < |rows| ==> rows[d].time >= after
    ensures Fold(rows[c..], spot, f) == Fold(rows[c..d], spot, f) + Fold(rows[d..], spot, f)
  {
    assert rows[c..] == rows[c..d] + rows[d..];
    if c < d < |rows| {
      KeyMonotone(f, rows[d - 1].time, rows[d - 1].time);
      KeyMonotone(f, after, rows[d].time);
    }
    FoldSplits(rows[c..d], rows[d..], spot, f);
  }

  /** The bars of a fetch before `after`, and those from `after` on. */
  function Head(feed: Feed, f: Frame, x: int, after: int): seq<Tally>
    requires f.secs > 0
  {
    var c, d := Start(feed.rows, x), Start(feed.rows, after);
    if c <= d then Fold(feed.rows[c..d], feed.spot, f) else []
  }

  function Tail(feed: Feed, f: Frame, after: int): seq<Tally>
    requires f.secs > 0
  {
    Fold(feed.rows[Start(feed.rows, after)..], feed.spot, f)
  }

  lemma FoldAround(feed: Feed, f: Frame, x: int, after: int)
    requires f.secs > 0 && Sound(feed) && x <= after && Key(f, after) == after
    ensures Fold(RowsFrom(feed.rows, x), SpotFrom(feed.spot, x), f) == Head(feed, f, x, after) + Tail(feed, f, after)
  {
    var rows := feed.rows;
    StartIs(rows, x);
    StartIs(rows, after);
    StartMonotone(rows, x, after);
    SpotCut(rows[Start(rows, x)..], feed.spot, x, f);
    FoldAtBar(rows, Start(rows, x), Start(rows, after), feed.spot, f, after);
  }

  lemma {:induction false} BarHasRow(rows: seq<Row>, spot: Option<map<int, SpotRow>>, f: Frame, k: nat)
    requires f.secs > 0 && k < |Fold(rows, spot, f)|
    ensures exists i :: 0 <= i < |rows| && Key(f, rows[i].time) == Fold(rows, spot, f)[k].time
  {
    var init, r := rows[..|rows| - 1], rows[|rows| - 1];
    if Fold(rows, spot, f)[k].time == Key(f, r.time) {
    } else {
      assert k < |Fold(init, spot, f)|;
      BarHasRow(init, spot, f, k);
      var i :| 0 <= i < |init| && Key(f, init[i].time) == Fold(init, spot, f)[k].time;
      assert rows[i] == init[i];
    }
  }

  predicate AllBefore(bars: seq<Tally>, after: int) { forall i :: 0 <= i < |bars| ==> bars[i].time < after }

  predicate AllFrom(bars: seq<Tally>, after: int) { forall i :: 0 <= i < |bars| ==> bars[i].time >= after }

  lemma SidesOf(rows: seq<Row>, spot: Option<map<int, SpotRow>>, f: Frame, after: int)
    requires f.secs > 0 && Ordered(rows) && Key(f, after) == after
    ensures (forall i :: 0 <= i < |rows| ==> rows[i].time < after) ==> AllBefore(Fold(rows, spot, f), after)
    ensures (forall i :: 0 <= i < |rows| ==> rows[i].time >= after) ==> AllFrom(Fold(rows, spot, f), after)
    ensures RisingTimes(Fold(rows, spot, f))
  {
    FoldGroups(rows, spot, f);
    var bars := Fold(rows, spot, f);
    forall k | 0 <= k < |bars|
      ensures (forall i :: 0 <= i < |rows| ==> rows[i].time < after) ==> bars[k].time < after
      ensures (forall i :: 0 <= i < |rows| ==> rows[i].time >= after) ==> bars[k].time >= after
    {
      BarHasRow(rows, spot, f, k);
      var i :| 0 <= i < |rows| && Key(f, rows[i].time) == bars[k].time;
      KeyMonotone(f, rows[i].time, rows[i].time);
      if rows[i].time >= after { KeyMonotone(f, after, rows[i].time); }
    }
  }

  lemma {:induction false} KeptSplits(x: seq<int>, y: seq<int>, secs: int, now: int)
    ensures Kept(y, secs, now) > 0 ==> Kept(x + y, secs, now) == |x| + Kept(y, secs, now)
    ensures Kept(y, secs, now) == 0 ==> Kept(x + y, secs, now) <= |x|
    decreases |y|
  {
    if y == [] {
      assert x + y == x;
    } else {
      assert (x + y)[..|x + y| - 1] == x + y[..|y| - 1];
      KeptSplits(x, y[..|y| - 1], secs, now);
    }
  }

  /** Popping the unfinished bars keeps the split. */
  lemma SettledSplits(x: seq<Tally>, y: seq<Tally>, f: Frame, now: int)
    ensures Settled(y, f, now) != [] ==> Settled(x + y, f, now) == x + Settled(y, f, now)
    ensures Settled(y, f, now) == [] ==> Settled(x + y, f, now) <= x
  {
    assert TallyTimes(x + y) == TallyTimes(x) + TallyTimes(y);
    KeptSplits(TallyTimes(x), TallyTimes(y), f.secs, now);
    assert |TallyTimes(x)| == |x| && |TallyTimes(y)| == |y|;
  }

  lemma {:induction false} TrimIs(lines: seq<Line>, after: int, k: nat)
    requires k <= |lines|
    requires forall i :: 0 <= i < k ==> lines[i].time < after
    requires forall i :: k <= i < |lines| ==> lines[i].time >= after
    ensures Trim(lines, after) == lines[k..]
  {
    if lines != [] {
      var init := lines[..|lines| - 1];
      if k == |lines| {
        TrimIs(init, after, k - 1);
      } else {
        TrimIs(init, after, k);
        assert lines[k..] == init[k..] + [lines[|lines| - 1]];
      }
    }
  }

  // ---- the bars from `after` on, whatever the fetch started at ----

  /** The settled bars from `after` on. */
  function Shown(feed: Feed, f: Frame, after: int, now: int): seq<Tally>
    requires f.secs > 0
  {
    Settled(Tail(feed, f, after), f, now)
  }

  /** The open interest of the last bar before `after` that a fetch from x sees. */
  function PrevOi(feed: Feed, f: Frame, x: int, after: int): Option<real>
    requires f.secs > 0 && Sound(feed)
  {
    var h := Head(feed, f, x, after);
    if h == [] then None else OiAt(feed, f, x, h[|h| - 1].time)
  }

  function ShownLines(feed: Feed, f: Frame, x: int, after: int, now: int, gate: Gate): seq<Line>
    requires f.secs > 0 && Sound(feed)
  {
    LinesOf(feed, f, x, Shown(feed, f, after, now), PrevOi(feed, f, x, after), gate)
  }

  lemma SidesAround(feed: Feed, f: Frame, x: int, after: int)
    requires f.secs > 0 && Sound(feed) && x <= after && Key(f, after) == after
    ensures AllBefore(Head(feed, f, x, after), after) && AllFrom(Tail(feed, f, after), after) && RisingTimes(Tail(feed, f, after))
  {
    var c, d := Start(feed.rows, x), Start(feed.rows, after);
    StartIs(feed.rows, after);
    StartMonotone(feed.rows, x, after);
    SidesOf(feed.rows[c..d], feed.spot, f, after);
    SidesOf(feed.rows[d..], feed.spot, f, after);
  }

  lemma LineAtIs(feed: Feed, f: Frame, x: int, bars: seq<Tally>, first: Option<real>, i: nat, gate: Gate, b: Tally, prev: Option<real>)
    requires f.secs > 0 && Sound(feed) && i < |bars| && b == bars[i]
    requires prev == if i == 0 then first else OiAt(feed, f, x, bars[i - 1].time)
    ensures LineAt(feed, f, x, bars, first, i, gate)
         == LineOf(b, feed.spot.Some?, OiAt(feed, f, x, b.time), prev, FundAt(feed, f, x, b.time), gate)
  {}

  lemma LineShifts(feed: Feed, f: Frame, x: int, h: seq<Tally>, t: seq<Tally>, i: nat, gate: Gate)
    requires f.secs > 0 && Sound(feed) && i < |t|
    ensures var handed := if h == [] then None else OiAt(feed, f, x, h[|h| - 1].time);
            LineAt(feed, f, x, h + t, None, |h| + i, gate) == LineAt(feed, f, x, t, handed, i, gate)
  {
    var handed := if h == [] then None else OiAt(feed, f, x, h[|h| - 1].time);
    var prev := if i == 0 then handed else OiAt(feed, f, x, t[i - 1].time);
    assert (h + t)[|h| + i] == t[i];
    LineAtIs(feed, f, x, h + t, None, |h| + i, gate, t[i], prev);
    LineAtIs(feed, f, x, t, handed, i, gate, t[i], prev);
  }

  lemma LineSplits(feed: Feed, f: Frame, x: int, h: seq<Tally>, t: seq<Tally>, i: nat, gate: Gate)
    requires f.secs > 0 && Sound(feed) && i < |t|
    ensures var handed := if h == [] then None else OiAt(feed, f, x, h[|h| - 1].time);
            LinesOf(feed, f, x, h + t, None, gate)[|h| + i] == LinesOf(feed, f, x, t, handed, gate)[i]
  {
    LineShifts(feed, f, x, h, t, i, gate);
  }

  /** The lines of the later bars do not depend on the earlier ones but through the
      open interest handed over. */
  lemma LinesSplit(feed: Feed, f: Frame, x: int, h: seq<Tally>, t: seq<Tally>, gate: Gate)
    requires f.secs > 0 && Sound(feed)
    ensures var handed := if h == [] then None else OiAt(feed, f, x, h[|h| - 1].time);
            LinesOf(feed, f, x, h + t, None, gate)[|h|..] == LinesOf(feed, f, x, t, handed, gate)
  {
    var handed := if h == [] then None else OiAt(feed, f, x, h[|h| - 1].time);
    forall i | 0 <= i < |t|
      ensures LinesOf(feed, f, x, h + t, None, gate)[|h| + i] == LinesOf(feed, f, x, t, handed, gate)[i]
    {
      LineSplits(feed, f, x, h, t, i, gate);
    }
  }

  lemma TrimLines(feed: Feed, f: Frame, x: int, bars: seq<Tally>, k: nat, after: int, gate: Gate)
    requires f.secs > 0 && Sound(feed) && k <= |bars| && AllBefore(bars[..k], after) && AllFrom(bars[k..], after)
    ensures Trim(LinesOf(feed, f, x, bars, None, gate), after) == LinesOf(feed, f, x, bars, None, gate)[k..]
  {
    var lines := LinesOf(feed, f, x, bars, None, gate);
    forall i | 0 <= i < |bars|
      ensures i < k ==> lines[i].time < after
      ensures i >= k ==> lines[i].time >= after
    {
      if i < k { assert bars[..k][i] == bars[i]; } else { assert bars[k..][i - k] == bars[i]; }
    }
    TrimIs(lines, after, k);
  }

  lemma TrimSplit(feed: Feed, f: Frame, x: int, h: seq<Tally>, shown: seq<Tally>, after: int, gate: Gate)
    requires f.secs > 0 && Sound(feed) && AllBefore(h, after) && AllFrom(shown, after)
    ensures var handed := if h == [] then None else OiAt(feed, f, x, h[|h| - 1].time);
            Trim(LinesOf(feed, f, x, h + shown, None, gate), after) == LinesOf(feed, f, x, shown, handed, gate)
  {
    assert (h + shown)[..|h|] == h && (h + shown)[|h|..] == shown;
    TrimLines(feed, f, x, h + shown, |h|, after, gate);
    LinesSplit(feed, f, x, h, shown, gate);
  }

  lemma BarsSplit(feed: Feed, f: Frame, x: int, after: int, now: int)
    requires f.secs > 0 && Sound(feed) && x <= after && Key(f, after) == after
    ensures var h, bars, shown := Head(feed, f, x, after), Bars(feed, f, x, now), Shown(feed, f, after, now);
            if shown == [] then bars <= h else bars == h + shown
  {
    FoldAround(feed, f, x, after);
    SettledSplits(Head(feed, f, x, after), Tail(feed, f, after), f, now);
  }

  /** Trimming the lines of any fetch that reaches back past `after`. */
  lemma TrimmedLines(feed: Feed, f: Frame, x: int, after: int, now: int, gate: Gate)
    requires f.secs > 0 && Sound(feed) && x <= after && Key(f, after) == after
    ensures Trim(LinesOf(feed, f, x, Bars(feed, f, x, now), None, gate), after) == ShownLines(feed, f, x, after, now, gate)
  {
    var h, bars, shown := Head(feed, f, x, after), Bars(feed, f, x, now), Shown(feed, f, after, now);
    BarsSplit(feed, f, x, after, now);
    SidesAround(feed, f, x, after);
    if shown == [] {
      assert bars + [] == bars;
      TrimSplit(feed, f, x, bars, [], after, gate);
    } else {
      TrimSplit(feed, f, x, h, shown, after, gate);
    }
  }

  lemma SameOffDelta(b: Tally, hasSpot: bool, o: Option<real>, p: Option<real>, q: Option<real>, fund: Option<real>, gate: Gate)
    ensures LineOf(b, hasSpot, o, p, fund, gate) == LineOf(b, hasSpot, o, q, fund, gate) <==> Delta(o, p) == Delta(o, q)
  {}

  predicate SameValues(feed: Feed, f: Frame, x: int, y: int, bars: seq<Tally>)
    requires f.secs > 0 && Sound(feed)
  {
    forall i :: 0 <= i < |bars| ==> OiAt(feed, f, x, bars[i].time) == OiAt(feed, f, y, bars[i].time) && FundAt(feed, f, x, bars[i].time) == FundAt(feed, f, y, bars[i].time)
  }

  lemma LaterLineSame(feed: Feed, f: Frame, x: int, y: int, bars: seq<Tally>, p: Option<real>, q: Option<real>, i: nat, gate: Gate)
    requires f.secs > 0 && Sound(feed) && SameValues(feed, f, x, y, bars) && 0 < i < |bars|
    ensures LineAt(feed, f, x, bars, p, i, gate) == LineAt(feed, f, y, bars, q, i, gate)
  {
    assert OiAt(feed, f, x, bars[i - 1].time) == OiAt(feed, f, y, bars[i - 1].time);
  }

  lemma FirstLineSame(feed: Feed, f: Frame, x: int, y: int, bars: seq<Tally>, p: Option<real>, q: Option<real>, gate: Gate)
    requires f.secs > 0 && Sound(feed) && SameValues(feed, f, x, y, bars) && bars != []
    ensures var o := OiAt(feed, f, x, bars[0].time);
            LineAt(feed, f, x, bars, p, 0, gate) == LineAt(feed, f, y, bars, q, 0, gate) <==> Delta(o, p) == Delta(o, q)
  {
    var t := bars[0].time;
    SameOffDelta(bars[0], feed.spot.Some?, OiAt(feed, f, x, t), p, q, FundAt(feed, f, x, t), gate);
  }

  lemma LinesAgree(feed: Feed, f: Frame, x: int, y: int, bars: seq<Tally>, p: Option<real>, q: Option<real>, gate: Gate)
    requires f.secs > 0 && Sound(feed) && SameValues(feed, f, x, y, bars)
    ensures LinesOf(feed, f, x, bars, p, gate) == LinesOf(feed, f, y, bars, q, gate)
            <==> bars == [] || LineAt(feed, f, x, bars, p, 0, gate) == LineAt(feed, f, y, bars, q, 0, gate)
  {
    var u, v := LinesOf(feed, f, x, bars, p, gate), LinesOf(feed, f, y, bars, q, gate);
    forall i | 0 < i < |bars|
      ensures u[i] == v[i]
    {
      LaterLineSame(feed, f, x, y, bars, p, q, i, gate);
    }
    if bars != [] { assert u[0] == v[0] ==> u == v; }
  }

  lemma LateValuesSame(feed: Feed, f: Frame, x: int, y: int, after: int, bars: seq<Tally>)
    requires Offered(f) && Sound(feed) && x <= after && y <= after && AllFrom(bars, after)
    ensures SameValues(feed, f, x, y, bars)
  {
    ReachWithinDay(f);
    forall i | 0 <= i < |bars|
      ensures OiAt(feed, f, x, bars[i].time) == OiAt(feed, f, y, bars[i].time)
      ensures FundAt(feed, f, x, bars[i].time) == FundAt(feed, f, y, bars[i].time)
    {
      OiSame(feed, f, x, y, bars[i].time);
      FundSame(feed, f, x, y, bars[i].time);
    }
  }

  /** Two fetches agree from `after` on, except perhaps in the first bar's OI delta. */
  lemma ShownAgree(feed: Feed, f: Frame, x: int, y: int, after: int, now: int, gate: Gate)
    requires Offered(f) && Sound(feed) && x <= after && y <= after && Key(f, after) == after
    ensures ShownLines(feed, f, x, after, now, gate) == ShownLines(feed, f, y, after, now, gate) <==> FirstDeltaSame(feed, f, x, y, after, now)
  {
    SidesAround(feed, f, x, after);
    LateValuesSame(feed, f, x, y, after, Shown(feed, f, after, now));
    var bars := Shown(feed, f, after, now);
    LinesAgree(feed, f, x, y, bars, PrevOi(feed, f, x, after), PrevOi(feed, f, y, after), gate);
    if bars != [] { FirstLineSame(feed, f, x, y, bars, PrevOi(feed, f, x, after), PrevOi(feed, f, y, after), gate); }
  }

  /** The first bar from `after` on gets the same OI delta from either fetch. */
  predicate FirstDeltaSame(feed: Feed, f: Frame, x: int, y: int, after: int, now: int)
    requires f.secs > 0 && Sound(feed)
  {
    var bars := Shown(feed, f, after, now);
    bars != [] ==> var o := OiAt(feed, f, x, bars[0].time); Delta(o, PrevOi(feed, f, x, after)) == Delta(o, PrevOi(feed, f, y, after))
  }

  // ---- incremental equals full ----

  /** The last bar time before `after`, over all stored rows. */
  predicate RowBefore(feed: Feed, x: int, after: int) {
    var d := Start(feed.rows, after);
    d > 0 && feed.rows[d - 1].time >= x
  }

  lemma FoldRange(rows: seq<Row>, c: nat, d: nat, spot: Option<map<int, SpotRow>>, f: Frame)
    requires f.secs > 0 && c < d <= |rows|
    ensures var h := Fold(rows[c..d], spot, f); h != [] && h[|h| - 1].time == Key(f, rows[d - 1].time)
  {
    FoldLast(rows[c..d], spot, f);
    assert rows[c..d][d - c - 1] == rows[d - 1];
  }

  lemma RowBeforeIs(feed: Feed, x: int, after: int)
    requires Sound(feed) && x <= after
    ensures RowBefore(feed, x, after) <==> Start(feed.rows, x) < Start(feed.rows, after)
  {
    StartIs(feed.rows, x);
    StartMonotone(feed.rows, x, after);
  }

  lemma HeadEnds(feed: Feed, f: Frame, x: int, after: int)
    requires f.secs > 0 && Sound(feed) && x <= after
    ensures Head(feed, f, x, after) != [] <==> RowBefore(feed, x, after)
    ensures RowBefore(feed, x, after) ==> var h := Head(feed, f, x, after); h[|h| - 1].time == Key(f, feed.rows[Start(feed.rows, after) - 1].time)
  {
    var c, d := Start(feed.rows, x), Start(feed.rows, after);
    RowBeforeIs(feed, x, after);
    if c < d { FoldRange(feed.rows, c, d, feed.spot, f); }
  }

  lemma FetchStartAligned(f: Frame, after: int)
    requires Offered(f) && Key(f, after) == after
    ensures Key(f, FetchStart(f, after)) == FetchStart(f, after) <= after - f.oiReach - f.secs
  {
    if f.secs != f.native {
      var m := (f.oiReach + f.secs) / f.secs;
      assert m * f.secs == f.oiReach + f.secs;
      FloorToIs(after, f.secs);
      assert (after / f.secs - m) * f.secs == after / f.secs * f.secs - m * f.secs;
      FloorToMultiple(after / f.secs - m, f.secs);
    }
  }

  /** What an incremental fetch returns is the full fetch from `after` on, exactly when the
      first bar's OI delta comes out the same. */
  lemma SuffixIff(feed: Feed, f: Frame, start: int, after: int, now: int, gate: Gate)
    requires Offered(f) && Sound(feed) && start <= after && Key(f, after) == after
    ensures After(feed, f, after, now, gate) == Trim(Full(feed, f, start, now, gate), after) <==> FirstDeltaSame(feed, f, start, FetchStart(f, after), after, now)
  {
    ReachWithinDay(f);
    FetchStartAligned(f, after);
    TrimmedLines(feed, f, start, after, now, gate);
    TrimmedLines(feed, f, FetchStart(f, after), after, now, gate);
    ShownAgree(feed, f, start, FetchStart(f, after), after, now, gate);
  }

  /** The bar before `after` starts at x or later. */
  predicate BarBefore(feed: Feed, f: Frame, x: int, after: int)
    requires f.secs > 0
  {
    var d := Start(feed.rows, after);
    d > 0 && Key(f, feed.rows[d - 1].time) >= x
  }

  lemma LeadInSuffices(f: Frame, start: int, after: int, last: int)
    requires Offered(f) && Key(f, after) == after && last >= start && last >= FetchStart(f, after)
    requires f.secs < DAY || Key(f, last) >= start
    ensures start - DAY <= Key(f, last) - f.oiReach && FetchStart(f, after) - DAY <= Key(f, last) - f.oiReach
  {
    ReachWithinDay(f);
    FetchStartAligned(f, after);
    KeyMonotone(f, FetchStart(f, after), last);
    KeyMonotone(f, start, last);
  }

  lemma PrevOiIs(feed: Feed, f: Frame, x: int, after: int)
    requires f.secs > 0 && Sound(feed) && x <= after && RowBefore(feed, x, after)
    ensures PrevOi(feed, f, x, after) == OiAt(feed, f, x, Key(f, feed.rows[Start(feed.rows, after) - 1].time))
  {
    HeadEnds(feed, f, x, after);
  }

  /** The bar before `after` carries the same open interest in both fetches. */
  lemma PrevOiSame(feed: Feed, f: Frame, start: int, after: int)
    requires Offered(f) && Sound(feed) && start <= after && Key(f, after) == after
    requires RowBefore(feed, start, after) && RowBefore(feed, FetchStart(f, after), after)
    requires f.secs < DAY || BarBefore(feed, f, start, after)
    ensures PrevOi(feed, f, start, after) == PrevOi(feed, f, FetchStart(f, after), after)
  {
    var last := feed.rows[Start(feed.rows, after) - 1].time;
    LeadInSuffices(f, start, after, last);
    OiSame(feed, f, start, FetchStart(f, after), Key(f, last));
    FetchBefore(f, after);
    PrevOiIs(feed, f, start, after);
    PrevOiIs(feed, f, FetchStart(f, after), after);
  }

  lemma FetchBefore(f: Frame, after: int)
    requires Offered(f) && Key(f, after) == after
    ensures FetchStart(f, after) <= after
  {
    ReachWithinDay(f);
    FetchStartAligned(f, after);
  }

  /** With a stored row inside the few bars re-read before `after`, and `after` past the full
      fetch's first bar, nothing differs. (On the daily frame the bar before `after` must
      also start inside the full window.) */
  lemma IncrementalEqualsFull(feed: Feed, f: Frame, start: int, after: int, now: int, gate: Gate)
    requires Offered(f) && Sound(feed) && start <= after && Key(f, after) == after
    requires RowBefore(feed, start, after) && RowBefore(feed, FetchStart(f, after), after)
    requires f.secs < DAY || BarBefore(feed, f, start, after)
    ensures After(feed, f, after, now, gate) == Trim(Full(feed, f, start, now, gate), after)
  {
    SuffixIff(feed, f, start, after, now, gate);
    PrevOiSame(feed, f, start, after);
  }

  /** The start of the bar that holds the last row before a time. */
  function BarAhead(feed: Feed, f: Frame, after: int): int
    requires f.secs > 0 && Start(feed.rows, after) > 0
  {
    Key(f, feed.rows[Start(feed.rows, after) - 1].time)
  }

  predicate NoneOrZero(o: Option<real>) { o.None? || o.value == 0.0 }

  /** What the stored rows and open-interest stamps must be for an incremental fetch to
      equal the full one: the first bar shown, if there is one, has no open interest; or
      the bar ahead of it gives neither fetch, or both, a value to compare with. Each
      fetch sees that bar if it reads a row of it, and its value if it reads the stamp. */
  predicate Undisturbed(feed: Feed, f: Frame, start: int, after: int, now: int)
    requires f.secs > 0 && Sound(feed)
  {
    var bars, from := Shown(feed, f, after, now), FetchStart(f, after);
    || bars == [] || OiAt(feed, f, start, bars[0].time).None?
    || if RowBefore(feed, start, after) then
         if RowBefore(feed, from, after) then
           OiAt(feed, f, start, BarAhead(feed, f, after)).Some? || NoneOrZero(OiAt(feed, f, from, BarAhead(feed, f, after)))
         else NoneOrZero(OiAt(feed, f, start, BarAhead(feed, f, after)))
       else !RowBefore(feed, from, after) || NoneOrZero(OiAt(feed, f, from, BarAhead(feed, f, after)))
  }

  lemma NoRowNoPrev(feed: Feed, f: Frame, x: int, after: int)
    requires f.secs > 0 && Sound(feed) && x <= after && !RowBefore(feed, x, after)
    ensures PrevOi(feed, f, x, after) == None
  {
    HeadEnds(feed, f, x, after);
  }

  /** A value the shorter lead-in sees is the one the longer sees. */
  lemma SeenBySooner(feed: Feed, f: Frame, x: int, y: int, t: int)
    requires f.secs > 0 && Sound(feed) && y - DAY <= t - f.oiReach && OiAt(feed, f, x, t).Some?
    ensures OiAt(feed, f, x, t) == OiAt(feed, f, y, t)
  {}

  lemma LeadInReaches(feed: Feed, f: Frame, after: int)
    requires Offered(f) && Sound(feed) && Key(f, after) == after && RowBefore(feed, FetchStart(f, after), after)
    ensures FetchStart(f, after) - DAY <= BarAhead(feed, f, after) - f.oiReach
  {
    ReachWithinDay(f);
    FetchStartAligned(f, after);
    KeyMonotone(f, FetchStart(f, after), feed.rows[Start(feed.rows, after) - 1].time);
  }

  lemma DeltaSameIff(o: Option<real>, p: Option<real>, q: Option<real>)
    requires p.Some? ==> p == q
    ensures Delta(o, p) == Delta(o, q) <==> o.None? || p.Some? || NoneOrZero(q)
  {}

  lemma DeltaNoneIff(o: Option<real>, p: Option<real>)
    ensures Delta(o, None) == Delta(o, p) <==> o.None? || NoneOrZero(p)
  {}

  /** The first bar's delta is the same under exactly that condition. */
  lemma FirstDeltaSameIff(feed: Feed, f: Frame, start: int, after: int, now: int)
    requires Offered(f) && Sound(feed) && start <= after && Key(f, after) == after
    ensures FirstDeltaSame(feed, f, start, FetchStart(f, after), after, now) <==> Undisturbed(feed, f, start, after, now)
  {
    var bars, from := Shown(feed, f, after, now), FetchStart(f, after);
    FetchBefore(f, after);
    if bars != [] {
      var o := OiAt(feed, f, start, bars[0].time);
      if RowBefore(feed, start, after) { PrevOiIs(feed, f, start, after); } else { NoRowNoPrev(feed, f, start, after); }
      if RowBefore(feed, from, after) { PrevOiIs(feed, f, from, after); } else { NoRowNoPrev(feed, f, from, after); }
      DeltaNoneIff(o, PrevOi(feed, f, start, after));
      DeltaNoneIff(o, PrevOi(feed, f, from, after));
      if RowBefore(feed, start, after) && RowBefore(feed, from, after) {
        LeadInReaches(feed, f, after);
        if PrevOi(feed, f, start, after).Some? { SeenBySooner(feed, f, start, from, BarAhead(feed, f, after)); }
        DeltaSameIff(o, PrevOi(feed, f, start, after), PrevOi(feed, f, from, after));
      }
    }
  }

  /** Exactly when an incremental fetch returns the full fetch from its bar on, on every
      frame and for any holes in either table. */
  lemma IncrementalIff(feed: Feed, f: Frame, start: int, after: int, now: int, gate: Gate)
    requires Offered(f) && Sound(feed) && start <= after && Key(f, after) == after
    ensures After(feed, f, after, now, gate) == Trim(Full(feed, f, start, now, gate), after) <==> Undisturbed(feed, f, start, after, now)
  {
    SuffixIff(feed, f, start, after, now, gate);
    FirstDeltaSameIff(feed, f, start, after, now);
  }

  /** With no row re-read before the bar it loses its OI delta, so the two agree exactly
      when the full fetch had nothing to compare with either. */
  lemma HoleIff(feed: Feed, f: Frame, start: int, after: int, now: int, gate: Gate)
    requires Offered(f) && Sound(feed) && start <= after && Key(f, after) == after
    requires !RowBefore(feed, FetchStart(f, after), after)
    ensures var bars := Shown(feed, f, after, now);
            After(feed, f, after, now, gate) == Trim(Full(feed, f, start, now, gate), after)
            <==> bars == [] || OiAt(feed, f, start, bars[0].time).None? || !RowBefore(feed, start, after)
                 || NoneOrZero(OiAt(feed, f, start, BarAhead(feed, f, after)))
  {
    IncrementalIff(feed, f, start, after, now, gate);
  }

  lemma Cut2(a: int, b: int, x: int)
    requires a < b
    ensures CutAt([a, b], x) == if x <= a then 0 else if x <= b then 1 else 2
    ensures CutAt([b], x) == if x <= b then 0 else 1
  {
    CutUnique([a, b], x, if x <= a then 0 else if x <= b then 1 else 2);
    CutUnique([b], x, if x <= b then 0 else 1);
  }

  lemma FoldOne(r: Row, f: Frame, now: int)
    requires f.secs > 0 && Key(f, r.time) + f.secs <= now
    ensures |Fold([r], None, f)| == 1 && Fold([r], None, f)[0].time == Key(f, r.time)
    ensures Settled(Fold([r], None, f), f, now) == Fold([r], None, f)
  {
    FoldLast([r], None, f);
    var bars := Fold([r], None, f);
    assert [r][..0] == [];
    assert TallyTimes(bars) == [Key(f, r.time)];
  }

  const SPARSE_OI := Series([3600, 172800], [100.0, 110.0])

  const DAILY := FrameOf(DAY, 3600)

  function CutDay(r: Row, q: Row): Feed { Feed([r, q], None, Some(SPARSE_OI), Series([], [])) }

  lemma SparseOi()
    ensures Seen(SPARSE_OI, 100800, 0, 172800) == None && Seen(SPARSE_OI, 0, 0, 172800) == Some(100.0)
    ensures Seen(SPARSE_OI, 100800, 86400, 259200) == Some(110.0)
  {
    Cut2(3600, 172800, 172800);
    Cut2(3600, 172800, 259200);
  }

  lemma CutDayBars(r: Row, q: Row, x: int)
    requires r.time == 100800 && q.time == 172800 && x <= 100800
    ensures |Head(CutDay(r, q), DAILY, x, 172800)| == 1 && Head(CutDay(r, q), DAILY, x, 172800)[0].time == DAY
    ensures |Shown(CutDay(r, q), DAILY, 172800, 1000000)| == 1
    ensures Shown(CutDay(r, q), DAILY, 172800, 1000000)[0].time == 172800
    ensures RowBefore(CutDay(r, q), x, 172800)
  {
    var rows := [r, q];
    assert Times(rows) == [100800, 172800];
    Cut2(100800, 172800, x);
    Cut2(100800, 172800, 172800);
    assert rows[1..] == [q] && rows[0..1] == [r];
    FoldOne(r, DAILY, 1000000);
    FoldOne(q, DAILY, 1000000);
  }

  lemma CutDayDeltas(r: Row, q: Row)
    requires r.time == 100800 && q.time == 172800 && Sound(CutDay(r, q))
    ensures !FirstDeltaSame(CutDay(r, q), DAILY, 100800, 0, 172800, 1000000)
  {
    CutDayBars(r, q, 100800);
    CutDayBars(r, q, 0);
    SparseOi();
    assert OiAt(CutDay(r, q), DAILY, 100800, 172800) == Some(110.0);
  }

  /** That exception is real: a daily bar cut by the window start, with no open
      interest since the day before it, gives the next bar a delta only in the
      incremental fetch. */
  lemma DailyFirstBarDiffers(r: Row, q: Row, gate: Gate)
    requires r.time == 100800 && q.time == 172800
    ensures Sound(CutDay(r, q)) && RowBefore(CutDay(r, q), 100800, 172800) && RowBefore(CutDay(r, q), FetchStart(DAILY, 172800), 172800)
    ensures After(CutDay(r, q), DAILY, 172800, 1000000, gate) != Trim(Full(CutDay(r, q), DAILY, 100800, 1000000, gate), 172800)
  {
    CutDayBars(r, q, 100800);
    CutDayBars(r, q, 0);
    CutDayDeltas(r, q);
    SuffixIff(CutDay(r, q), DAILY, 100800, 172800, 1000000, gate);
  }

  // ---- the panes under the candles ----

  function LineTimes(lines: seq<Line>): seq<int> { seq(|lines|, i requires 0 <= i < |lines| => lines[i].time) }

  lemma LineTimesAre(feed: Feed, f: Frame, from: int, bars: seq<Tally>, first: Option<real>, gate: Gate)
    requires f.secs > 0 && Sound(feed)
    ensures LineTimes(LinesOf(feed, f, from, bars, first, gate)) == TallyTimes(bars)
  {}

  lemma SuffixOrdered(rows: seq<Row>, x: int)
    requires Ordered(rows)
    ensures Ordered(RowsFrom(rows, x))
  {}

  /** For the same request, full or from a bar on, the flow lines stand one to one
      under the candles. */
  lemma PanesLineUp(feed: Feed, f: Frame, start: int, after: int, now: int, gate: Gate)
    requires Offered(f) && Sound(feed) && Key(f, after) == after
    ensures LineTimes(Full(feed, f, start, now, gate)) == CandleTimes(Candles(RowsFrom(feed.rows, start), f, now))
    ensures LineTimes(After(feed, f, after, now, gate)) == CandleTimes(Candles(RowsFrom(feed.rows, after), f, now))
  {
    SuffixOrdered(feed.rows, start);
    SuffixOrdered(feed.rows, after);
    TimesMatch(RowsFrom(feed.rows, start), SpotFrom(feed.spot, start), f, now);
    LineTimesAre(feed, f, start, Bars(feed, f, start, now), None, gate);
    FetchBefore(f, after);
    TrimmedLines(feed, f, FetchStart(f, after), after, now, gate);
    LineTimesAre(feed, f, FetchStart(f, after), Shown(feed, f, after, now), PrevOi(feed, f, FetchStart(f, after), after), gate);
    TimesMatch(RowsFrom(feed.rows, after), feed.spot, f, now);
  }

  // ---- the loops ----

  /** Read a series from one day before the fetch on (index c on), and attach to each
      bar the last stamp found by bisection, if it is young enough. */
  method AttachAll(s: Series, from: int, bars: seq<Tally>, secs: int, reach: int) returns (out: seq<Option<real>>)
    requires WellFormed(s)
    ensures |out| == |bars|
    ensures forall i :: 0 <= i < |bars| ==> out[i] == Seen(s, from, bars[i].time - reach, bars[i].time + secs)
  {
    var c := CutAt(s.ts, from - DAY);
    out := [];
    for n := 0 to |bars|
      invariant |out| == n
      invariant forall i :: 0 <= i < n ==> out[i] == Seen(s, from, bars[i].time - reach, bars[i].time + secs)
    {
      var t := bars[n].time;
      ReadIsSeen(s, from, t - reach, t + secs);
      out := out + [Bisected(s, c, t - reach, t + secs)];
    }
  }

  method AttachOi(feed: Feed, f: Frame, from: int, bars: seq<Tally>) returns (oi: seq<Option<real>>)
    requires f.secs > 0 && Sound(feed)
    ensures |oi| == |bars| && forall i :: 0 <= i < |bars| ==> oi[i] == OiAt(feed, f, from, bars[i].time)
  {
    if feed.oi.None? { return seq(|bars|, _ => None); }
    oi := AttachAll(feed.oi.value, from, bars, f.secs, f.oiReach);
  }

  method AttachFunding(feed: Feed, f: Frame, from: int, bars: seq<Tally>) returns (fund: seq<Option<real>>)
    requires f.secs > 0 && Sound(feed)
    ensures |fund| == |bars| && forall i :: 0 <= i < |bars| ==> fund[i] == FundAt(feed, f, from, bars[i].time)
  {
    fund := AttachAll(feed.funding, from, bars, f.secs, f.fundReach);
  }

  lemma LineOfPrefix(feed: Feed, f: Frame, from: int, bars: seq<Tally>, gate: Gate, i: nat, n: nat, m: nat)
    requires f.secs > 0 && Sound(feed) && i < n <= m <= |bars|
    ensures LineAt(feed, f, from, bars[..m], None, i, gate) == LineAt(feed, f, from, bars[..n], None, i, gate)
  {
    var prev := if i == 0 then None else OiAt(feed, f, from, bars[i - 1].time);
    LineAtIs(feed, f, from, bars[..m], None, i, gate, bars[i], prev);
    LineAtIs(feed, f, from, bars[..n], None, i, gate, bars[i], prev);
  }

  lemma LinesSnoc(feed: Feed, f: Frame, from: int, bars: seq<Tally>, gate: Gate, n: nat)
    requires f.secs > 0 && Sound(feed) && n < |bars|
    ensures LinesOf(feed, f, from, bars[..n + 1], None, gate)
         == LinesOf(feed, f, from, bars[..n], None, gate)
            + [LineOf(bars[n], feed.spot.Some?, OiAt(feed, f, from, bars[n].time),
                      if n == 0 then None else OiAt(feed, f, from, bars[n - 1].time),
                      FundAt(feed, f, from, bars[n].time), gate)]
  {
    var prev := if n == 0 then None else OiAt(feed, f, from, bars[n - 1].time);
    LineAtIs(feed, f, from, bars[..n + 1], None, n, gate, bars[n], prev);
    forall i | 0 <= i < n
      ensures LineAt(feed, f, from, bars[..n + 1], None, i, gate) == LineAt(feed, f, from, bars[..n], None, i, gate)
    {
      LineOfPrefix(feed, f, from, bars, gate, i, n, n + 1);
    }
  }

  /** The line loop, carrying the previous bar's open interest. */
  method LineUp(feed: Feed, f: Frame, from: int, bars: seq<Tally>, gate: Gate) returns (out: seq<Line>)
    requires f.secs > 0 && Sound(feed)
    ensures out == LinesOf(feed, f, from, bars, None, gate)
  {
    var oi := AttachOi(feed, f, from, bars);
    var fund := AttachFunding(feed, f, from, bars);
    out := [];
    var prevOi: Option<real> := None;
    for n := 0 to |bars|
      invariant prevOi == if n == 0 then None else OiAt(feed, f, from, bars[n - 1].time)
      invariant out == LinesOf(feed, f, from, bars[..n], None, gate)
    {
      LinesSnoc(feed, f, from, bars, gate, n);
      out := out + [LineOf(bars[n], feed.spot.Some?, oi[n], prevOi, fund[n], gate)];
      prevOi := oi[n];
    }
    assert bars[..|bars|] == bars;
  }

  method TrimTo(lines: seq<Line>, x: int) returns (out: seq<Line>)
    ensures out == Trim(lines, x)
  {
    out := [];
    for i := 0 to |lines|
      invariant out == Trim(lines[..i], x)
    {
      assert lines[..i + 1][..i] == lines[..i];
      if lines[i].time >= x { out := out + [lines[i]]; }
    }
    assert lines[..|lines|] == lines;
  }

  /** The endpoint; `after` 0 asks for everything from `start` on. */
  method FlowLines(feed: Feed, f: Frame, start: int, after: int, now: int, gate: Gate) returns (lines: seq<Line>)
    requires f.secs > 0 && Sound(feed)
    ensures lines == if after == 0 then Full(feed, f, start, now, gate) else After(feed, f, after, now, gate)
  {
    var from := if after != 0 then FetchStart(f, after) else start;
    var folded := FoldRows(RowsFrom(feed.rows, from), SpotFrom(feed.spot, from), f, now);
    lines := LineUp(feed, f, from, folded, gate);
    if after != 0 { lines := TrimTo(lines, after); }
  }
}
