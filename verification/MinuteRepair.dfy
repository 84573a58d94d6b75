/** Repairing quarter-hour candles stored as one-minute candles
    (data/repair_minute_candles.py): find the proven clones, stage their
    replacements, apply the stage in one transaction. */
module MinuteRepair {
  import opened Prelude
  import opened SortedSets

  const MINUTE := 60000

  const QUARTER := 900000

  datatype Candle = Candle(open: real, high: real, low: real, close: real, volume: real, trades: int)

  datatype Row = Row(time: int, candle: Candle)

  /** One line of a monthly archive. */
  datatype Line = Line(openTime: int, closeTime: int, candle: Candle)

  datatype Month = Month(start: int, end: int, lines: seq<Line>)

  /** A recovery database. */
  datatype Stage = Stage(database: string, count: int, originals: seq<Row>, replacements: seq<Row>)

  datatype Result = Refused | Done(n: nat)

  /** Rows as a table with a primary key on time returns them. */
  predicate ByTime(rows: seq<Row>) { forall i, j :: 0 <= i < j < |rows| ==> rows[i].time < rows[j].time }

  // ---- what a clone is ----

  predicate TradedLater(minutes: map<int, Candle>, t: int) {
    exists u :: u in minutes && t < u < t + QUARTER && minutes[u].volume > 0.0
  }

  /** All fields equal the quarter-hour's, and trading went on after the minute. */
  predicate Clone(minutes: map<int, Candle>, spot: map<int, Candle>, t: int) {
    && t in minutes && t % 1000 == 0 && t / 1000 in spot && spot[t / 1000] == minutes[t]
    && TradedLater(minutes, t)
  }

  /** The quarter-hour candle that starts with the minute equals it in every column, and some
      minute in the fourteen-odd minutes after it traded. */
  lemma CloneIs(minutes: map<int, Candle>, spot: map<int, Candle>, t: int)
    ensures Clone(minutes, spot, t) <==>
      && t in minutes
      && (exists s :: s in spot && s * 1000 == t
                      && (spot[s].open, spot[s].high, spot[s].low, spot[s].close, spot[s].volume, spot[s].trades)
                         == (minutes[t].open, minutes[t].high, minutes[t].low, minutes[t].close, minutes[t].volume, minutes[t].trades))
      && (exists u :: u in minutes && 1 <= u - t <= 899999 && minutes[u].volume > 0.0)
  {
    if t % 1000 == 0 { assert t / 1000 * 1000 == t; }
  }

  function Clones(minutes: map<int, Candle>, spot: map<int, Candle>): set<int> {
    set t | t in minutes && Clone(minutes, spot, t)
  }

  /** The audit has something to compare with. */
  predicate Comparable(minutes: map<int, Candle>, spot: Option<map<int, Candle>>) {
    spot.Some? && exists s :: s in spot.value && s * 1000 in minutes
  }

  predicate Valid(r: Row) {
    var c := r.candle;
    && r.time % MINUTE == 0 && 0.0 < c.low && c.low <= c.open <= c.high && c.low <= c.close <= c.high
    && c.volume >= 0.0 && c.trades >= 0
  }

  function Lesser(x: real, y: real): real { if x <= y then x else y }
  function Greater(x: real, y: real): real { if x <= y then y else x }

  /** A whole minute, a positive low under both ends of the candle, a high over both, and no
      negative volume or count. */
  lemma ValidIs(t: int, c: Candle)
    ensures Valid(Row(t, c)) <==>
      && (exists k :: 60000 * k == t)
      && 0.0 < c.low <= Lesser(c.open, c.close) && Greater(c.open, c.close) <= c.high
      && !(c.volume < 0.0) && !(c.trades < 0)
  {
    if t % 60000 == 0 { assert 60000 * (t / 60000) == t; }
  }

  // ---- applying a stage ----

  predicate StageSound(stage: Stage, database: string) {
    var o, r := stage.originals, stage.replacements;
    && stage.database == database && |o| == stage.count && |o| == |r| && o != []
    && forall i :: 0 <= i < |o| ==> Valid(r[i]) && o[i].time == r[i].time && o[i] != r[i]
  }

  predicate Holds(minutes: map<int, Candle>, rows: seq<Row>) {
    forall i :: 0 <= i < |rows| ==> rows[i].time in minutes && minutes[rows[i].time] == rows[i].candle
  }

  /** UPDATE each row where it exists. */
  function Updated(minutes: map<int, Candle>, rows: seq<Row>): map<int, Candle> {
    if rows == [] then minutes
    else
      var r, m := rows[|rows| - 1], Updated(minutes, rows[..|rows| - 1]);
      if r.time in m then m[r.time := r.candle] else m
  }

  /** The join of the stage's keys with the table. */
  function Joined(minutes: map<int, Candle>, rows: seq<Row>): seq<Row> {
    if rows == [] then []
    else
      var t := rows[|rows| - 1].time;
      Joined(minutes, rows[..|rows| - 1]) + if t in minutes then [Row(t, minutes[t])] else []
  }

  /** What applying a stage answers. */
  ghost function Outcome(minutes: map<int, Candle>, spot: Option<map<int, Candle>>, database: string, stage: Stage): Result {
    if !StageSound(stage, database) then Refused
    else if Holds(minutes, stage.replacements) then Done(0)
    else if !Holds(minutes, stage.originals) then Refused
    else
      var after := Updated(minutes, stage.replacements);
      if Comparable(after, spot) && Clones(after, spot.value) == {} then Done(|stage.originals|) else Refused
  }

  /** The table after it. */
  ghost function Applied(minutes: map<int, Candle>, spot: Option<map<int, Candle>>, database: string, stage: Stage): map<int, Candle> {
    var r := Outcome(minutes, spot, database, stage);
    if r.Done? && r.n > 0 then Updated(minutes, stage.replacements) else minutes
  }

  predicate SameKeys(a: seq<Row>, b: seq<Row>) { |a| == |b| && forall i :: 0 <= i < |a| ==> a[i].time == b[i].time }

  /** The join equals a list of rows exactly when the table holds them. */
  lemma {:induction false} JoinedIsHeld(minutes: map<int, Candle>, keys: seq<Row>, rows: seq<Row>)
    requires SameKeys(keys, rows)
    ensures |Joined(minutes, keys)| <= |keys|
    ensures Joined(minutes, keys) == rows <==> Holds(minutes, rows)
  {
    if keys != [] {
      var n := |keys| - 1;
      var join := Joined(minutes, keys[..n]);
      JoinedIsHeld(minutes, keys[..n], rows[..n]);
      assert Holds(minutes, rows) <==> Holds(minutes, rows[..n]) && rows[n].time in minutes && minutes[rows[n].time] == rows[n].candle;
      if rows[n].time in minutes {
        assert rows == rows[..n] + [rows[n]];
        assert join + [Row(rows[n].time, minutes[rows[n].time])] == rows ==> |join| == n;
      }
    }
  }

  lemma {:induction false} UpdatedKeys(minutes: map<int, Candle>, rows: seq<Row>)
    ensures Updated(minutes, rows).Keys == minutes.Keys
  {
    if rows != [] { UpdatedKeys(minutes, rows[..|rows| - 1]); }
  }

  lemma {:induction false} UpdatedElsewhere(minutes: map<int, Candle>, rows: seq<Row>, t: int)
    requires t in minutes && forall i :: 0 <= i < |rows| ==> rows[i].time != t
    ensures t in Updated(minutes, rows) && Updated(minutes, rows)[t] == minutes[t]
  {
    if rows != [] {
      assert rows[|rows| - 1].time != t;
      UpdatedElsewhere(minutes, rows[..|rows| - 1], t);
    }
  }

  lemma {:induction false} UpdatedHere(minutes: map<int, Candle>, rows: seq<Row>, i: nat)
    requires ByTime(rows) && i < |rows| && rows[i].time in minutes
    ensures rows[i].time in Updated(minutes, rows) && Updated(minutes, rows)[rows[i].time] == rows[i].candle
  {
    var init, last := rows[..|rows| - 1], rows[|rows| - 1];
    UpdatedKeys(minutes, init);
    if i < |rows| - 1 {
      UpdatedHere(minutes, init, i);
      assert rows[i].time < last.time;
    }
  }

  /** An update touches the listed minutes and nothing else. */
  lemma UpdatedExactly(minutes: map<int, Candle>, rows: seq<Row>)
    requires ByTime(rows) && forall i :: 0 <= i < |rows| ==> rows[i].time in minutes
    ensures Updated(minutes, rows).Keys == minutes.Keys && Holds(Updated(minutes, rows), rows)
    ensures forall t :: t in minutes && (forall i :: 0 <= i < |rows| ==> rows[i].time != t) ==> Updated(minutes, rows)[t] == minutes[t]
  {
    UpdatedKeys(minutes, rows);
    forall i | 0 <= i < |rows|
      ensures Updated(minutes, rows)[rows[i].time] == rows[i].candle
    {
      UpdatedHere(minutes, rows, i);
    }
    forall t | t in minutes && forall i :: 0 <= i < |rows| ==> rows[i].time != t
      ensures Updated(minutes, rows)[t] == minutes[t]
    {
      UpdatedElsewhere(minutes, rows, t);
    }
  }

  /** All or nothing: either the table is as it was, or exactly the staged minutes
      are replaced, no row came or went, and no proven clone is left. */
  lemma AllOrNothing(minutes: map<int, Candle>, spot: Option<map<int, Candle>>, database: string, stage: Stage)
    requires ByTime(stage.originals) && ByTime(stage.replacements)
    ensures var after := Applied(minutes, spot, database, stage);
            after == minutes ||
            (Holds(minutes, stage.originals) && Holds(after, stage.replacements) && after.Keys == minutes.Keys
             && (forall t :: t in minutes && (forall i :: 0 <= i < |stage.originals| ==> stage.originals[i].time != t) ==> after[t] == minutes[t])
             && spot.Some? && Clones(after, spot.value) == {})
  {
    var r := Outcome(minutes, spot, database, stage);
    if r.Done? && r.n > 0 {
      var o, p := stage.originals, stage.replacements;
      forall i | 0 <= i < |p|
        ensures p[i].time in minutes
      {
        assert o[i].time == p[i].time;
      }
      UpdatedExactly(minutes, p);
      forall t | t in minutes && forall i :: 0 <= i < |o| ==> o[i].time != t
        ensures Updated(minutes, p)[t] == minutes[t]
      {
        assert forall i :: 0 <= i < |p| ==> p[i].time == o[i].time;
      }
    }
  }

  /** A stage that was applied answers a second run with 0 and changes nothing. */
  lemma ReapplyIsNoOp(minutes: map<int, Candle>, spot: Option<map<int, Candle>>, database: string, stage: Stage)
    requires ByTime(stage.originals) && ByTime(stage.replacements)
    requires Outcome(minutes, spot, database, stage).Done?
    ensures var after := Applied(minutes, spot, database, stage);
            Outcome(after, spot, database, stage) == Done(0) && Applied(after, spot, database, stage) == after
  {
    var o, p := stage.originals, stage.replacements;
    if Outcome(minutes, spot, database, stage).n > 0 {
      forall i | 0 <= i < |p|
        ensures p[i].time in minutes
      {
        assert o[i].time == p[i].time;
      }
      UpdatedExactly(minutes, p);
    }
  }

  /** A table that holds neither all originals nor all replacements is refused, so a
      single changed original stops the whole repair. */
  lemma ChangedOriginalRefused(minutes: map<int, Candle>, spot: Option<map<int, Candle>>, database: string, stage: Stage, i: nat)
    requires i < |stage.originals| && |stage.originals| == |stage.replacements|
    requires var t := stage.originals[i].time; t !in minutes || (minutes[t] != stage.originals[i].candle && minutes[t] != stage.replacements[i].candle)
    ensures Outcome(minutes, spot, database, stage) == Refused
  {
    if StageSound(stage, database) {
      assert stage.replacements[i].time == stage.originals[i].time;
    }
  }

  // ---- reading an archive ----

  function Scale(l: Line): int { if l.openTime >= 1000000000000000 then 1000 else 1 }

  function Stamp(l: Line): int { l.openTime / Scale(l) }

  predicate OneMinute(l: Line) {
    l.openTime % (MINUTE * Scale(l)) == 0 && 0 <= l.closeTime - l.openTime < MINUTE * Scale(l)
  }

  /** Lines are stamped in milliseconds, or from ten to the fifteen on in microseconds, which
      lose their fraction. */
  lemma StampIs(l: Line)
    requires l.openTime >= 0
    ensures l.openTime < 1000000000000000 ==> Stamp(l) == l.openTime
    ensures l.openTime >= 1000000000000000 ==> Stamp(l) * 1000 <= l.openTime < (Stamp(l) + 1) * 1000
  {}

  lemma WholeMinute(t: int)
    ensures t % 60000000 == 0 <==> t / 1000 * 1000 == t && t / 1000 % 60000 == 0
  {
    if t % 60000000 == 0 {
      assert t == 60000000 * (t / 60000000);
      assert t / 1000 == 60000 * (t / 60000000);
    }
  }

  /** A minute's line starts on the minute and closes within it. */
  lemma OneMinuteIs(l: Line)
    requires l.openTime >= 0
    ensures OneMinute(l) <==>
      if l.openTime < 1000000000000000 then l.openTime % 60000 == 0 && l.openTime <= l.closeTime < l.openTime + 60000
      else l.openTime == Stamp(l) * 1000 && Stamp(l) % 60000 == 0 && l.openTime <= l.closeTime < l.openTime + 60000000
  {
    WholeMinute(l.openTime);
  }

  /** What the scan accepts among the first n lines. */
  predicate ScanOk(lines: seq<Line>, start: int, end: int, targets: set<int>) {
    && (forall k :: 0 <= k < |lines| ==> start <= Stamp(lines[k]) < end && Stamp(lines[k]) >= 0)
    && (forall j, k :: 0 <= j < k < |lines| ==> Stamp(lines[j]) < Stamp(lines[k]))
    && (forall k :: 0 <= k < |lines| && Stamp(lines[k]) in targets ==> OneMinute(lines[k]) && Valid(Row(Stamp(lines[k]), lines[k].candle)))
  }

  predicate Listing(lines: seq<Line>, t: int, c: Candle) {
    exists k :: 0 <= k < |lines| && Stamp(lines[k]) == t && lines[k].candle == c
  }

  predicate InTime(lines: seq<Line>, t: int) { exists k :: 0 <= k < |lines| && Stamp(lines[k]) == t }

  /** A month's archive yields every requested minute, or nothing at all. */
  method ParseArchive(m: Month, targets: set<int>) returns (r: Option<map<int, Candle>>)
    ensures r.Some? <==> (forall t :: t in targets ==> m.start <= t < m.end && InTime(m.lines, t))
                         && ScanOk(m.lines, m.start, m.end, targets)
    ensures r.Some? ==> r.value.Keys == targets
    ensures r.Some? ==> forall t :: t in targets ==> Listing(m.lines, t, r.value[t]) && Valid(Row(t, r.value[t]))
  {
    if exists t :: t in targets && !(m.start <= t < m.end) { return None; }
    var result: map<int, Candle> := map[];
    var previous := -1;
    for i := 0 to |m.lines|
      invariant previous == if i == 0 then -1 else Stamp(m.lines[i - 1])
      invariant ScanOk(m.lines[..i], m.start, m.end, targets)
      invariant forall t :: t in result <==> t in targets && InTime(m.lines[..i], t)
      invariant forall t :: t in result ==> Listing(m.lines[..i], t, result[t]) && Valid(Row(t, result[t]))
    {
      var l, ts := m.lines[i], Stamp(m.lines[i]);
      ScanNext(m, i, targets);
      if !(m.start <= ts < m.end) || ts <= previous { return None; }
      previous := ts;
      if ts in targets {
        if !OneMinute(l) || !Valid(Row(ts, l.candle)) { return None; }
        result := result[ts := l.candle];
      }
    }
    assert m.lines[..|m.lines|] == m.lines;
    if exists t :: t in targets && t !in result { return None; }
    r := Some(result);
  }

  /** One more line. */
  lemma ScanNext(m: Month, i: nat, targets: set<int>)
    requires i < |m.lines| && ScanOk(m.lines[..i], m.start, m.end, targets)
    ensures var l, ts := m.lines[i], Stamp(m.lines[i]);
            var good := m.start <= ts < m.end && ts > (if i == 0 then -1 else Stamp(m.lines[i - 1]))
                        && (ts in targets ==> OneMinute(l) && Valid(Row(ts, l.candle)));
            (good ==> ScanOk(m.lines[..i + 1], m.start, m.end, targets))
            && (!good ==> !ScanOk(m.lines, m.start, m.end, targets))
    ensures forall t :: InTime(m.lines[..i + 1], t) <==> InTime(m.lines[..i], t) || t == Stamp(m.lines[i])
    ensures forall t, c :: Listing(m.lines[..i], t, c) ==> Listing(m.lines[..i + 1], t, c)
    ensures Listing(m.lines[..i + 1], Stamp(m.lines[i]), m.lines[i].candle)
  {
    var a, b := m.lines[..i], m.lines[..i + 1];
    assert b == a + [m.lines[i]];
    if i > 0 { assert a[i - 1] == m.lines[i - 1]; }
    forall t
      ensures InTime(b, t) <==> InTime(a, t) || t == Stamp(m.lines[i])
    {
      if InTime(a, t) {
        var k :| 0 <= k < |a| && Stamp(a[k]) == t;
        assert Stamp(b[k]) == t;
      }
      assert Stamp(b[i]) == Stamp(m.lines[i]);
    }
    forall t, c | Listing(a, t, c)
      ensures Listing(b, t, c)
    {
      var k :| 0 <= k < |a| && Stamp(a[k]) == t && a[k].candle == c;
      assert b[k] == a[k];
    }
    assert b[i] == m.lines[i];
  }

  // ---- preparing a stage ----

  /** The quarter-hour table sits on its own grid. */
  predicate QuarterGrid(spot: map<int, Candle>) { forall s :: s in spot ==> s % 900 == 0 }

  /** The rows' stamps are exactly these. */
  ghost predicate Lists(rows: seq<Row>, stamps: set<int>) {
    forall t :: t in stamps <==> exists i :: 0 <= i < |rows| && rows[i].time == t
  }

  /** A stage that covers exactly the clones, each with a valid and different candle. */
  ghost predicate Prepared(stage: Stage, minutes: map<int, Candle>, spot: map<int, Candle>, database: string) {
    && StageSound(stage, database) && ByTime(stage.originals) && ByTime(stage.replacements)
    && Holds(minutes, stage.originals)
    && Lists(stage.originals, Clones(minutes, spot))
  }

  lemma QuarterApart(t: int, u: int)
    requires t % QUARTER == 0 && u % QUARTER == 0
    ensures !(t < u < t + QUARTER)
  {}

  lemma CloneOnQuarter(minutes: map<int, Candle>, spot: map<int, Candle>, t: int)
    requires QuarterGrid(spot) && Clone(minutes, spot, t)
    ensures t % QUARTER == 0
  {
    assert t / 1000 in spot;
    Thousand(t);
  }

  lemma Thousand(t: int)
    requires t % 1000 == 0 && t / 1000 % 900 == 0
    ensures t % QUARTER == 0
  {}

  /** Where the update of a prepared stage lands. */
  lemma PreparedUpdate(stage: Stage, minutes: map<int, Candle>, spot: map<int, Candle>, database: string)
    requires Prepared(stage, minutes, spot, database)
    ensures var after, o, p := Updated(minutes, stage.replacements), stage.originals, stage.replacements;
            after.Keys == minutes.Keys && Holds(after, p)
            && forall t :: t in minutes && (forall i :: 0 <= i < |o| ==> o[i].time != t) ==> after[t] == minutes[t]
  {
    var o, p := stage.originals, stage.replacements;
    assert forall i :: 0 <= i < |p| ==> p[i].time == o[i].time && p[i].time in minutes;
    UpdatedExactly(minutes, p);
  }

  lemma ReplacedIsNoClone(stage: Stage, minutes: map<int, Candle>, spot: map<int, Candle>, database: string, i: nat)
    requires Prepared(stage, minutes, spot, database) && i < |stage.originals|
    ensures !Clone(Updated(minutes, stage.replacements), spot, stage.originals[i].time)
  {
    var o, p := stage.originals, stage.replacements;
    PreparedUpdate(stage, minutes, spot, database);
    assert o[i].time in Clones(minutes, spot);
    assert p[i].time == o[i].time && p[i].candle != o[i].candle;
  }

  lemma UntouchedCloneIsOld(stage: Stage, minutes: map<int, Candle>, spot: map<int, Candle>, database: string, t: int)
    requires Prepared(stage, minutes, spot, database) && QuarterGrid(spot)
    requires forall i :: 0 <= i < |stage.originals| ==> stage.originals[i].time != t
    requires Clone(Updated(minutes, stage.replacements), spot, t)
    ensures Clone(minutes, spot, t)
  {
    var after, o := Updated(minutes, stage.replacements), stage.originals;
    PreparedUpdate(stage, minutes, spot, database);
    var u :| u in after && t < u < t + QUARTER && after[u].volume > 0.0;
    CloneOnQuarter(after, spot, t);
    forall i | 0 <= i < |o|
      ensures o[i].time != u
    {
      assert o[i].time in Clones(minutes, spot);
      CloneOnQuarter(minutes, spot, o[i].time);
      QuarterApart(t, o[i].time);
    }
    assert after[u] == minutes[u];
    assert TradedLater(minutes, t);
  }

  /** Replacing all clones leaves none, and makes no new one. */
  lemma NoCloneLeft(stage: Stage, minutes: map<int, Candle>, spot: map<int, Candle>, database: string, t: int)
    requires Prepared(stage, minutes, spot, database) && QuarterGrid(spot)
    ensures !Clone(Updated(minutes, stage.replacements), spot, t)
  {
    var o := stage.originals;
    if i :| 0 <= i < |o| && o[i].time == t {
      ReplacedIsNoClone(stage, minutes, spot, database, i);
    } else {
      assert t !in Clones(minutes, spot);
      if Clone(Updated(minutes, stage.replacements), spot, t) { UntouchedCloneIsOld(stage, minutes, spot, database, t); }
    }
  }

  /** A prepared stage applied to the table it was prepared from always succeeds: no
      check refuses it, and every clone is replaced. */
  lemma PreparedApplies(stage: Stage, minutes: map<int, Candle>, spot: map<int, Candle>, database: string)
    requires Prepared(stage, minutes, spot, database) && QuarterGrid(spot) && Comparable(minutes, Some(spot))
    ensures Outcome(minutes, Some(spot), database, stage) == Done(|Clones(minutes, spot)|)
  {
    var after, o, p := Updated(minutes, stage.replacements), stage.originals, stage.replacements;
    assert o[0].time == p[0].time && o[0] != p[0];
    assert !Holds(minutes, p);
    UpdatedKeys(minutes, p);
    forall t
      ensures t !in Clones(after, spot)
    {
      NoCloneLeft(stage, minutes, spot, database, t);
    }
    EmptyWithoutMembers(Clones(after, spot));
    StampsCount(o, Clones(minutes, spot));
  }

  /** As many rows as stamps. */
  lemma {:induction false} StampsCount(rows: seq<Row>, stamps: set<int>)
    requires ByTime(rows) && Lists(rows, stamps)
    ensures |rows| == |stamps|
  {
    if rows == [] {
      EmptyWithoutMembers(stamps);
    } else {
      var init, last := rows[..|rows| - 1], rows[|rows| - 1].time;
      assert last in stamps;
      forall t
        ensures t in stamps - {last} <==> exists i :: 0 <= i < |init| && init[i].time == t
      {
        if i :| 0 <= i < |rows| && rows[i].time == t && t != last { assert init[i].time == t; }
      }
      StampsCount(init, stamps - {last});
    }
  }

  function RowsAt(minutes: map<int, Candle>, ts: seq<int>): (rows: seq<Row>)
    requires forall i :: 0 <= i < |ts| ==> ts[i] in minutes
    ensures |rows| == |ts| && forall i :: 0 <= i < |ts| ==> rows[i] == Row(ts[i], minutes[ts[i]])
  {
    seq(|ts|, i requires 0 <= i < |ts| => Row(ts[i], minutes[ts[i]]))
  }

  // ---- the archives of a repair ----

  function Times(rows: seq<Row>): set<int> { set i | 0 <= i < |rows| :: rows[i].time }

  lemma TimesAre(rows: seq<Row>, s: set<int>)
    requires Lists(rows, s)
    ensures Times(rows) == s
    ensures rows == [] <==> s == {}
  {
    forall t
      ensures t in Times(rows) <==> t in s
    {}
    if rows != [] { assert rows[0].time in s; }
    if s != {} {
      NonEmpty(s);
      var t :| t in s;
    }
  }

  function TargetsIn(m: Month, clones: set<int>): set<int> { set t | t in clones && m.start <= t < m.end }

  /** A month without clones needs no archive; another's lists every clone, in order and all
      of it within the month, each as a valid minute. */
  predicate ArchiveSound(m: Month, clones: set<int>) {
    var targets := TargetsIn(m, clones);
    targets == {} || ((forall t :: t in targets ==> InTime(m.lines, t)) && ScanOk(m.lines, m.start, m.end, targets))
  }

  predicate InCalendar(calendar: seq<Month>, t: int) { exists n :: 0 <= n < |calendar| && calendar[n].start <= t < calendar[n].end }

  /** The archive of a month that has the minute lists it with this candle. */
  ghost predicate Published(calendar: seq<Month>, t: int, c: Candle) {
    exists n :: 0 <= n < |calendar| && calendar[n].start <= t < calendar[n].end && Listing(calendar[n].lines, t, c)
  }

  lemma CalendarGrows(calendar: seq<Month>, n: nat, t: int)
    requires n < |calendar|
    ensures InCalendar(calendar[..n + 1], t) <==> InCalendar(calendar[..n], t) || calendar[n].start <= t < calendar[n].end
  {
    var a, b := calendar[..n], calendar[..n + 1];
    assert b[n] == calendar[n] && forall k :: 0 <= k < n ==> b[k] == a[k];
  }

  lemma PublishedGrows(calendar: seq<Month>, n: nat, t: int, c: Candle)
    requires n < |calendar|
    requires Published(calendar[..n], t, c) || (calendar[n].start <= t < calendar[n].end && Listing(calendar[n].lines, t, c))
    ensures Published(calendar[..n + 1], t, c)
  {
    var a, b := calendar[..n], calendar[..n + 1];
    if Published(a, t, c) {
      var k :| 0 <= k < |a| && a[k].start <= t < a[k].end && Listing(a[k].lines, t, c);
      assert b[k] == a[k];
    } else {
      assert b[n] == calendar[n];
    }
  }

  /** A clone that lies in a month is read, as a valid candle its archive lists; nothing else
      is. */
  ghost predicate ReadAt(all: map<int, Candle>, calendar: seq<Month>, clones: set<int>, t: int) {
    if t in all then t in clones && InCalendar(calendar, t) && Valid(Row(t, all[t])) && Published(calendar, t, all[t])
    else t !in clones || !InCalendar(calendar, t)
  }

  ghost predicate ReadFrom(all: map<int, Candle>, calendar: seq<Month>, clones: set<int>) {
    forall t :: ReadAt(all, calendar, clones, t)
  }

  lemma MonthRead(all: map<int, Candle>, parsed: map<int, Candle>, calendar: seq<Month>, n: nat, clones: set<int>)
    requires n < |calendar| && ReadFrom(all, calendar[..n], clones) && parsed.Keys == TargetsIn(calendar[n], clones)
    requires forall t :: t in parsed ==> Listing(calendar[n].lines, t, parsed[t]) && Valid(Row(t, parsed[t]))
    ensures ReadFrom(all + parsed, calendar[..n + 1], clones)
  {
    var after, months := all + parsed, calendar[..n + 1];
    forall t
      ensures ReadAt(after, months, clones, t)
    {
      assert ReadAt(all, calendar[..n], clones, t);
      assert t in parsed <==> t in TargetsIn(calendar[n], clones);
      CalendarGrows(calendar, n, t);
      if t in after { PublishedGrows(calendar, n, t, after[t]); }
    }
  }

  lemma MissingIff(originals: seq<Row>, all: map<int, Candle>, calendar: seq<Month>)
    requires ReadFrom(all, calendar, Times(originals))
    ensures (exists i :: 0 <= i < |originals| && originals[i].time !in all) <==> exists t :: t in Times(originals) && !InCalendar(calendar, t)
  {
    forall i | 0 <= i < |originals|
      ensures originals[i].time in Times(originals) && ReadAt(all, calendar, Times(originals), originals[i].time)
    {}
    if t :| t in Times(originals) && !InCalendar(calendar, t) {
      var i :| 0 <= i < |originals| && originals[i].time == t;
      assert originals[i].time !in all;
    }
  }

  /** No published candle of a clone equals it. */
  ghost predicate AllDiffer(minutes: map<int, Candle>, spot: map<int, Candle>, calendar: seq<Month>) {
    forall t, c :: t in Clones(minutes, spot) && Published(calendar, t, c) ==> c != minutes[t]
  }

  lemma SameRefuted(minutes: map<int, Candle>, spot: map<int, Candle>, originals: seq<Row>, all: map<int, Candle>, calendar: seq<Month>)
    requires ReadFrom(all, calendar, Times(originals)) && Times(originals) == Clones(minutes, spot) && Holds(minutes, originals)
    ensures AllDiffer(minutes, spot, calendar) ==>
      forall i :: 0 <= i < |originals| && originals[i].time in all ==> all[originals[i].time] != originals[i].candle
  {
    if AllDiffer(minutes, spot, calendar) {
      forall i | 0 <= i < |originals| && originals[i].time in all
        ensures all[originals[i].time] != originals[i].candle
      {
        assert ReadAt(all, calendar, Times(originals), originals[i].time);
      }
    }
  }

  predicate AllSound(calendar: seq<Month>, clones: set<int>) {
    forall n :: 0 <= n < |calendar| ==> ArchiveSound(calendar[n], clones)
  }

  ghost predicate AsPublished(calendar: seq<Month>, rows: seq<Row>) {
    forall i :: 0 <= i < |rows| ==> Published(calendar, rows[i].time, rows[i].candle)
  }

  lemma ReplacementsPublished(originals: seq<Row>, rows: seq<Row>, all: map<int, Candle>, calendar: seq<Month>)
    requires ReadFrom(all, calendar, Times(originals)) && |rows| == |originals|
    requires forall i :: 0 <= i < |rows| ==> originals[i].time in all && rows[i] == Row(originals[i].time, all[originals[i].time])
    ensures AsPublished(calendar, rows) && forall i :: 0 <= i < |rows| ==> Valid(rows[i])
  {
    forall i | 0 <= i < |rows|
      ensures Published(calendar, rows[i].time, rows[i].candle) && Valid(rows[i])
    {
      assert ReadAt(all, calendar, Times(originals), originals[i].time);
    }
  }

  /** There are clones, every one lies in a month, and all of their archives are sound. */
  ghost predicate Preparable(minutes: map<int, Candle>, spot: Option<map<int, Candle>>, calendar: seq<Month>) {
    && Comparable(minutes, spot) && Clones(minutes, spot.value) != {}
    && AllSound(calendar, Clones(minutes, spot.value))
    && (forall t :: t in Clones(minutes, spot.value) ==> InCalendar(calendar, t))
  }

  class Database {
    const name: string
    const spot: Option<map<int, Candle>>
    var minutes: map<int, Candle>

    constructor (name: string, spot: Option<map<int, Candle>>, minutes: map<int, Candle>)
      ensures this.name == name && this.spot == spot && this.minutes == minutes
    {
      this.name, this.spot, this.minutes := name, spot, minutes;
    }

    /** The audit: every proven clone, oldest first, or nothing to compare with. */
    method FindMislabeled() returns (r: Option<seq<Row>>)
      ensures r.Some? <==> Comparable(minutes, spot)
      ensures r.Some? ==> ByTime(r.value) && Holds(minutes, r.value)
      ensures r.Some? ==> Lists(r.value, Clones(minutes, spot.value))
    {
      if spot.None? || !exists s :: s in spot.value && s * 1000 in minutes { return None; }
      var ts := Listed(Clones(minutes, spot.value));
      assert forall i :: 0 <= i < |ts| ==> ts[i] in ts;
      var rows := RowsAt(minutes, ts);
      forall t
        ensures t in Clones(minutes, spot.value) <==> exists i :: 0 <= i < |rows| && rows[i].time == t
      {
        if t in Clones(minutes, spot.value) {
          assert t in ts;
          var i :| 0 <= i < |ts| && ts[i] == t;
          assert rows[i].time == t;
        }
      }
      r := Some(rows);
    }

    /** One month's clones from its archive, when it has any. */
    static method ReadMonth(m: Month, clones: set<int>) returns (r: Option<map<int, Candle>>)
      ensures r.Some? <==> ArchiveSound(m, clones)
      ensures r.Some? ==> r.value.Keys == TargetsIn(m, clones)
      ensures r.Some? ==> forall t :: t in r.value ==> Listing(m.lines, t, r.value[t]) && Valid(Row(t, r.value[t]))
    {
      var targets := TargetsIn(m, clones);
      if targets == {} { return Some(map[]); }
      r := ParseArchive(m, targets);
    }

    /** The replacements of all clones, month by month: read exactly when the archive of every
        month that has some is sound. */
    static method ReadReplacements(clones: set<int>, calendar: seq<Month>) returns (r: Option<map<int, Candle>>)
      ensures r.Some? <==> AllSound(calendar, clones)
      ensures r.Some? ==> ReadFrom(r.value, calendar, clones)
    {
      var all: map<int, Candle> := map[];
      for n := 0 to |calendar|
        invariant forall k :: 0 <= k < n ==> ArchiveSound(calendar[k], clones)
        invariant ReadFrom(all, calendar[..n], clones)
      {
        var parsed := ReadMonth(calendar[n], clones);
        if parsed.None? { return None; }
        MonthRead(all, parsed.value, calendar, n, clones);
        all := all + parsed.value;
      }
      assert calendar[..|calendar|] == calendar;
      r := Some(all);
    }

    /** The replacement of each row in turn; None when one is missing or equals its row. */
    static method Paired(originals: seq<Row>, all: map<int, Candle>) returns (r: Option<seq<Row>>)
      ensures r.Some? <==> forall i :: 0 <= i < |originals| ==> originals[i].time in all && all[originals[i].time] != originals[i].candle
      ensures r.Some? ==> |r.value| == |originals|
      ensures r.Some? ==> forall i :: 0 <= i < |originals| ==> r.value[i] == Row(originals[i].time, all[originals[i].time])
    {
      if exists i :: 0 <= i < |originals| && originals[i].time !in all { return None; }
      if exists i :: 0 <= i < |originals| && all[originals[i].time] == originals[i].candle { return None; }
      r := Some(seq(|originals|, i requires 0 <= i < |originals| && originals[i].time in all => Row(originals[i].time, all[originals[i].time])));
    }

    /** Stage a repair without touching the table; None when it fails or there is
        nothing to repair. */
    method PrepareRepair(calendar: seq<Month>) returns (r: Option<Stage>)
      ensures r.Some? ==> Preparable(minutes, spot, calendar) && Prepared(r.value, minutes, spot.value, name)
      ensures r.Some? ==> AsPublished(calendar, r.value.replacements)
      ensures Preparable(minutes, spot, calendar) && AllDiffer(minutes, spot.value, calendar) ==> r.Some?
    {
      var found := FindMislabeled();
      if found.None? { return None; }
      var originals := found.value;
      TimesAre(originals, Clones(minutes, spot.value));
      if originals == [] { return None; }
      var all := ReadReplacements(Times(originals), calendar);
      if all.None? { return None; }
      var replacements := Paired(originals, all.value);
      MissingIff(originals, all.value, calendar);
      SameRefuted(minutes, spot.value, originals, all.value, calendar);
      if replacements.None? { return None; }
      ReplacementsPublished(originals, replacements.value, all.value, calendar);
      r := Some(Stage(name, |originals|, originals, replacements.value));
    }

    method Join(keys: seq<Row>) returns (rows: seq<Row>)
      ensures rows == Joined(minutes, keys)
    {
      rows := [];
      for i := 0 to |keys|
        invariant rows == Joined(minutes, keys[..i])
      {
        assert keys[..i + 1][..i] == keys[..i];
        if keys[i].time in minutes { rows := rows + [Row(keys[i].time, minutes[keys[i].time])]; }
      }
      assert keys[..|keys|] == keys;
    }

    method Update(rows: seq<Row>) returns (hits: nat)
      modifies this
      ensures minutes == Updated(old(minutes), rows)
      ensures (forall i :: 0 <= i < |rows| ==> rows[i].time in old(minutes)) ==> hits == |rows|
    {
      hits := 0;
      for i := 0 to |rows|
        invariant minutes == Updated(old(minutes), rows[..i]) && minutes.Keys == old(minutes).Keys
        invariant (forall k :: 0 <= k < |rows| ==> rows[k].time in old(minutes)) ==> hits == i
      {
        assert rows[..i + 1][..i] == rows[..i];
        if rows[i].time in minutes {
          minutes := minutes[rows[i].time := rows[i].candle];
          hits := hits + 1;
        }
      }
      assert rows[..|rows|] == rows;
    }

    /** One transaction: any doubt rolls everything back. */
    method ApplyRepair(stage: Stage) returns (r: Result)
      requires ByTime(stage.originals) && ByTime(stage.replacements)
      modifies this
      ensures r == Outcome(old(minutes), spot, name, stage)
      ensures minutes == Applied(old(minutes), spot, name, stage)
    {
      if !StageSound(stage, name) { return Refused; }
      var o, p := stage.originals, stage.replacements;
      var current := Join(o);
      JoinedIsHeld(minutes, o, p);
      JoinedIsHeld(minutes, o, o);
      if current == p { return Done(0); }
      if current != o { return Refused; }
      var ok := Replace(stage);
      r := if ok then Done(|o|) else Refused;
    }

    /** The update and its checks; the changes are rolled back unless all hold. */
    method Replace(stage: Stage) returns (ok: bool)
      requires StageSound(stage, name) && ByTime(stage.replacements) && Holds(minutes, stage.originals)
      modifies this
      ensures var after := Updated(old(minutes), stage.replacements);
              ok == (Comparable(after, spot) && Clones(after, spot.value) == {}) && minutes == if ok then after else old(minutes)
    {
      var o, p := stage.originals, stage.replacements;
      var saved := minutes;
      var hits := Update(p);
      assert forall i :: 0 <= i < |p| ==> p[i].time == o[i].time && p[i].time in saved;
      UpdatedExactly(saved, p);
      var updated := Join(o);
      JoinedIsHeld(minutes, o, p);
      var left := FindMislabeled();
      LeftMeansClone(left, minutes, spot);
      ok := hits == |o| && |saved.Keys| == |minutes.Keys| && updated == p && left.Some? && left.value == [];
      if !ok { minutes := saved; }
    }
  }

  lemma LeftMeansClone(left: Option<seq<Row>>, minutes: map<int, Candle>, spot: Option<map<int, Candle>>)
    requires left.Some? ==> spot.Some?
    requires left.Some? ==> Lists(left.value, Clones(minutes, spot.value))
    ensures left.Some? ==> (left.value == [] <==> Clones(minutes, spot.value) == {})
  {
    if left.Some? {
      EmptyWithoutMembers(Clones(minutes, spot.value));
      if left.value != [] { assert left.value[0].time in Clones(minutes, spot.value); }
    }
  }
}
