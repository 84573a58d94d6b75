/** Bucketing rows into bars (dashboard/market.py `_fold`, dashboard/queries.py
    `candles`): the two endpoints group the same rows by their own loops and must
    show the same bars. */
module BarFolds {
  import opened GridMath
  import opened Prelude

  datatype Row = Row(time: int, open: real, high: real, low: real, close: Option<real>, buy: Option<real>, sell: Option<real>)

  datatype SpotRow = SpotRow(close: Option<real>, buy: Option<real>, sell: Option<real>)

  /** A timeframe: its bar length, that of its source table, and for how many seconds
      an open-interest or funding value is carried past its stamp. */
  datatype Frame = Frame(secs: int, native: int, oiReach: int, fundReach: int)

  datatype Tally = Tally(time: int, n: nat, nSpot: nat, perp: real, perpOk: bool, spot: real,
                         perpClose: Option<real>, spotClose: Option<real>)

  datatype Candle = Candle(time: int, open: real, high: real, low: real, close: Option<real>)

  /** How many bars a value stamped every `period` seconds is carried. */
  function Carry(period: int, secs: int): int
    requires secs > 0
  {
    if period / secs > 1 then period / secs else 1
  }

  /** Open interest is hourly, funding settles every eight hours. */
  function FrameOf(secs: int, native: int): Frame
    requires secs > 0
  {
    Frame(secs, native, Carry(3600, secs) * secs, Carry(28800, secs) * secs)
  }

  predicate Offered(f: Frame) {
    || f == FrameOf(900, 900) || f == FrameOf(3600, 3600) || f == FrameOf(14400, 3600) || f == FrameOf(86400, 3600)
    || f == FrameOf(3600, 900) || f == FrameOf(14400, 900) || f == FrameOf(86400, 900)
  }

  /** The bar of a row. */
  function Key(f: Frame, ts: int): int
    requires f.secs > 0
  {
    if f.secs == f.native then ts else FloorTo(ts, f.secs)
  }

  function Times(rows: seq<Row>): seq<int> { seq(|rows|, i requires 0 <= i < |rows| => rows[i].time) }

  /** Rows as a table with a primary key on time returns them. */
  predicate Ordered(rows: seq<Row>) { forall i, j :: 0 <= i < j < |rows| ==> rows[i].time < rows[j].time }

  // ---- what the loops compute ----

  function Opened(t: int): Tally { Tally(t, 0, 0, 0.0, true, 0.0, None, None) }

  function AbsorbPerp(c: Tally, r: Row): Tally {
    if r.buy.None? || r.sell.None? then c.(n := c.n + 1, perpOk := false, perpClose := r.close)
    else c.(n := c.n + 1, perp := c.perp + (r.buy.value - r.sell.value), perpClose := r.close)
  }

  function AbsorbSpot(c: Tally, t: int, spot: Option<map<int, SpotRow>>): Tally {
    if spot.Some? && t in spot.value && spot.value[t].buy.Some? && spot.value[t].sell.Some? then
      var s := spot.value[t];
      c.(nSpot := c.nSpot + 1, spot := c.spot + (s.buy.value - s.sell.value), spotClose := s.close)
    else c
  }

  function Absorb(c: Tally, r: Row, spot: Option<map<int, SpotRow>>): (d: Tally)
    ensures d.time == c.time && d.n == c.n + 1
  {
    AbsorbSpot(AbsorbPerp(c, r), r.time, spot)
  }

  function Fold(rows: seq<Row>, spot: Option<map<int, SpotRow>>, f: Frame): seq<Tally>
    requires f.secs > 0
  {
    if rows == [] then []
    else
      var r := rows[|rows| - 1];
      Put(Fold(rows[..|rows| - 1], spot, f), Key(f, r.time), r, spot)
  }

  /** Add one row to the bars so far. */
  function Put(bars: seq<Tally>, b: int, r: Row, spot: Option<map<int, SpotRow>>): seq<Tally> {
    if bars == [] || bars[|bars| - 1].time != b then bars + [Absorb(Opened(b), r, spot)]
    else bars[..|bars| - 1] + [Absorb(bars[|bars| - 1], r, spot)]
  }

  function TallyTimes(bars: seq<Tally>): seq<int> { seq(|bars|, i requires 0 <= i < |bars| => bars[i].time) }

  /** How many bars stay once the unfinished ones are popped off the end. */
  function Kept(times: seq<int>, secs: int, now: int): (k: nat)
    ensures k <= |times|
    ensures forall i :: k <= i < |times| ==> times[i] + secs > now
    ensures k > 0 ==> times[k - 1] + secs <= now
  {
    if times == [] then 0
    else if times[|times| - 1] + secs > now then Kept(times[..|times| - 1], secs, now)
    else |times|
  }

  function Settled(bars: seq<Tally>, f: Frame, now: int): seq<Tally> {
    if f.secs == f.native then bars else bars[..Kept(TallyTimes(bars), f.secs, now)]
  }

  function CandleOf(r: Row, b: int): Candle { Candle(b, r.open, r.high, r.low, r.close) }

  function Widen(c: Candle, r: Row): Candle {
    c.(high := if r.high > c.high then r.high else c.high, low := if r.low < c.low then r.low else c.low, close := r.close)
  }

  function CandleFold(rows: seq<Row>, secs: int): seq<Candle>
    requires secs > 0
  {
    if rows == [] then []
    else
      var r := rows[|rows| - 1];
      PutCandle(CandleFold(rows[..|rows| - 1], secs), FloorTo(r.time, secs), r)
  }

  function PutCandle(bars: seq<Candle>, b: int, r: Row): seq<Candle> {
    if bars == [] || bars[|bars| - 1].time != b then bars + [CandleOf(r, b)]
    else bars[..|bars| - 1] + [Widen(bars[|bars| - 1], r)]
  }

  function CandleTimes(bars: seq<Candle>): seq<int> { seq(|bars|, i requires 0 <= i < |bars| => bars[i].time) }

  /** The candle endpoint on the rows of its window. */
  function Candles(rows: seq<Row>, f: Frame, now: int): seq<Candle>
    requires f.secs > 0
  {
    if f.secs == f.native then seq(|rows|, i requires 0 <= i < |rows| => CandleOf(rows[i], rows[i].time))
    else
      var bars := CandleFold(rows, f.secs);
      bars[..Kept(CandleTimes(bars), f.secs, now)]
  }

  // ---- a bar is made of exactly the rows with its key ----

  /** All rows of one bar, wherever they stand. */
  function Group(rows: seq<Row>, spot: Option<map<int, SpotRow>>, f: Frame, b: int): Tally
    requires f.secs > 0
  {
    if rows == [] then Opened(b)
    else
      var c := Group(rows[..|rows| - 1], spot, f, b);
      if Key(f, rows[|rows| - 1].time) == b then Absorb(c, rows[|rows| - 1], spot) else c
  }

  lemma KeyMonotone(f: Frame, s: int, t: int)
    requires f.secs > 0 && s <= t
    ensures Key(f, s) <= Key(f, t) <= t
    ensures f.secs == f.native || t < Key(f, t) + f.secs
    ensures Key(f, Key(f, t)) == Key(f, t)
  {
    FloorToMonotone(s, t, f.secs);
    FloorToTwice(t, f.secs);
  }

  lemma FoldLast(rows: seq<Row>, spot: Option<map<int, SpotRow>>, f: Frame)
    requires f.secs > 0 && rows != []
    ensures Fold(rows, spot, f) != []
    ensures Fold(rows, spot, f)[|Fold(rows, spot, f)| - 1].time == Key(f, rows[|rows| - 1].time)
  {}

  lemma {:induction false} GroupAbsent(rows: seq<Row>, spot: Option<map<int, SpotRow>>, f: Frame, b: int)
    requires f.secs > 0 && forall i :: 0 <= i < |rows| ==> Key(f, rows[i].time) != b
    ensures Group(rows, spot, f, b) == Opened(b)
  {
    if rows != [] { GroupAbsent(rows[..|rows| - 1], spot, f, b); }
  }

  predicate Grouped(bars: seq<Tally>, rows: seq<Row>, spot: Option<map<int, SpotRow>>, f: Frame)
    requires f.secs > 0
  {
    && (forall i, j :: 0 <= i < j < |bars| ==> bars[i].time < bars[j].time)
    && (forall i :: 0 <= i < |bars| ==> bars[i] == Group(rows, spot, f, bars[i].time))
    && (forall i :: 0 <= i < |rows| ==> HasBar(bars, Key(f, rows[i].time)))
  }

  predicate HasBar(bars: seq<Tally>, b: int) { exists k :: 0 <= k < |bars| && bars[k].time == b }

  lemma RowsSnoc(rows: seq<Row>)
    requires rows != []
    ensures rows[..|rows| - 1] + [rows[|rows| - 1]] == rows
  {}

  /** On ordered rows the loop's bars are in order, one for every key, each the
      tally of exactly the rows with that key. */
  lemma {:induction false} FoldGroups(rows: seq<Row>, spot: Option<map<int, SpotRow>>, f: Frame)
    requires f.secs > 0 && Ordered(rows)
    ensures Grouped(Fold(rows, spot, f), rows, spot, f)
  {
    if rows != [] {
      var init, r := rows[..|rows| - 1], rows[|rows| - 1];
      FoldGroups(init, spot, f);
      if init != [] { FoldLast(init, spot, f); }
      RowsSnoc(rows);
      PutGroups(init, r, Fold(init, spot, f), spot, f);
    }
  }

  lemma GroupSnoc(init: seq<Row>, r: Row, spot: Option<map<int, SpotRow>>, f: Frame, b: int)
    requires f.secs > 0
    ensures Group(init + [r], spot, f, b) == if Key(f, r.time) == b then Absorb(Group(init, spot, f, b), r, spot) else Group(init, spot, f, b)
  {
    assert (init + [r])[..|init|] == init;
  }

  predicate RisingTimes(bars: seq<Tally>) { forall i, j :: 0 <= i < j < |bars| ==> bars[i].time < bars[j].time }

  lemma PutRises(bars: seq<Tally>, b: int, r: Row, spot: Option<map<int, SpotRow>>)
    requires RisingTimes(bars) && (bars != [] ==> bars[|bars| - 1].time <= b)
    ensures RisingTimes(Put(bars, b, r, spot))
    ensures forall t :: HasBar(Put(bars, b, r, spot), t) <==> HasBar(bars, t) || t == b
  {
    var out := Put(bars, b, r, spot);
    assert out[|out| - 1].time == b;
    assert forall k :: 0 <= k < |bars| ==> out[k].time == bars[k].time;
  }

  lemma PutGroups(init: seq<Row>, r: Row, bars: seq<Tally>, spot: Option<map<int, SpotRow>>, f: Frame)
    requires f.secs > 0 && Ordered(init + [r]) && Grouped(bars, init, spot, f)
    requires bars == [] <==> init == []
    requires init != [] ==> bars[|bars| - 1].time == Key(f, init[|init| - 1].time)
    ensures Grouped(Put(bars, Key(f, r.time), r, spot), init + [r], spot, f)
  {
    var rows, b := init + [r], Key(f, r.time);
    var out := Put(bars, b, r, spot);
    if init != [] {
      assert rows[|init| - 1] == init[|init| - 1] && rows[|init|] == r;
      KeyMonotone(f, init[|init| - 1].time, r.time);
    }
    PutRises(bars, b, r, spot);
    if bars == [] || bars[|bars| - 1].time != b { NewGroup(init, r, bars, spot, f); }
    forall i | 0 <= i < |out|
      ensures out[i] == Group(rows, spot, f, out[i].time)
    {
      GroupSnoc(init, r, spot, f, out[i].time);
    }
    forall i | 0 <= i < |rows|
      ensures HasBar(out, Key(f, rows[i].time))
    {
      if i < |init| { assert HasBar(bars, Key(f, init[i].time)); }
    }
  }

  /** A row that opens a bar is the first of its key. */
  lemma NewGroup(init: seq<Row>, r: Row, bars: seq<Tally>, spot: Option<map<int, SpotRow>>, f: Frame)
    requires f.secs > 0 && Grouped(bars, init, spot, f)
    requires bars != [] ==> bars[|bars| - 1].time < Key(f, r.time)
    ensures Group(init, spot, f, Key(f, r.time)) == Opened(Key(f, r.time))
  {
    forall i | 0 <= i < |init|
      ensures Key(f, init[i].time) != Key(f, r.time)
    {
      assert HasBar(bars, Key(f, init[i].time));
    }
    GroupAbsent(init, spot, f, Key(f, r.time));
  }

  // ---- a candle is the first, highest, lowest and last of its rows ----

  predicate InBar(rows: seq<Row>, secs: int, b: int, i: int)
    requires secs > 0
  {
    0 <= i < |rows| && FloorTo(rows[i].time, secs) == b
  }

  predicate Opens(rows: seq<Row>, secs: int, c: Candle, i: int)
    requires secs > 0
  {
    InBar(rows, secs, c.time, i) && rows[i].open == c.open && forall j :: 0 <= j < i ==> !InBar(rows, secs, c.time, j)
  }

  predicate Closes(rows: seq<Row>, secs: int, c: Candle, i: int)
    requires secs > 0
  {
    InBar(rows, secs, c.time, i) && rows[i].close == c.close && forall j :: i < j < |rows| ==> !InBar(rows, secs, c.time, j)
  }

  /** The open of the first row of its bar, the close of the last, the highest high and
      the lowest low. */
  predicate IsCandle(rows: seq<Row>, secs: int, c: Candle)
    requires secs > 0
  {
    && (exists i :: 0 <= i < |rows| && Opens(rows, secs, c, i))
    && (exists i :: 0 <= i < |rows| && Closes(rows, secs, c, i))
    && (exists i :: 0 <= i < |rows| && InBar(rows, secs, c.time, i) && rows[i].high == c.high)
    && (exists i :: 0 <= i < |rows| && InBar(rows, secs, c.time, i) && rows[i].low == c.low)
    && (forall i :: 0 <= i < |rows| && InBar(rows, secs, c.time, i) ==> c.low <= rows[i].low && rows[i].high <= c.high)
  }

  predicate HasCandle(bars: seq<Candle>, b: int) { exists k :: 0 <= k < |bars| && bars[k].time == b }

  /** All rows of one bar folded, wherever they stand. */
  function GroupCandle(rows: seq<Row>, secs: int, b: int): Option<Candle>
    requires secs > 0
  {
    if rows == [] then None
    else
      var c, r := GroupCandle(rows[..|rows| - 1], secs, b), rows[|rows| - 1];
      if FloorTo(r.time, secs) != b then c
      else if c.None? then Some(CandleOf(r, b))
      else Some(Widen(c.value, r))
  }

  /** One candle for every bar with a row, in order, each that of its rows. */
  predicate CandlesOf(bars: seq<Candle>, rows: seq<Row>, secs: int)
    requires secs > 0
  {
    && (forall i, j :: 0 <= i < j < |bars| ==> bars[i].time < bars[j].time)
    && (forall k :: 0 <= k < |bars| ==> GroupCandle(rows, secs, bars[k].time) == Some(bars[k]))
    && (forall i :: 0 <= i < |rows| ==> HasCandle(bars, FloorTo(rows[i].time, secs)))
  }

  /** A row of another bar changes nothing. */
  lemma CandleKept(rows: seq<Row>, r: Row, secs: int, c: Candle)
    requires secs > 0 && IsCandle(rows, secs, c) && FloorTo(r.time, secs) != c.time
    ensures IsCandle(rows + [r], secs, c)
  {
    var all := rows + [r];
    forall i | 0 <= i < |all|
      ensures InBar(all, secs, c.time, i) <==> i < |rows| && InBar(rows, secs, c.time, i)
    {}
    var i :| 0 <= i < |rows| && Opens(rows, secs, c, i);
    assert Opens(all, secs, c, i);
    var j :| 0 <= j < |rows| && Closes(rows, secs, c, j);
    assert Closes(all, secs, c, j);
    var h :| 0 <= h < |rows| && InBar(rows, secs, c.time, h) && rows[h].high == c.high;
    var l :| 0 <= l < |rows| && InBar(rows, secs, c.time, l) && rows[l].low == c.low;
    assert InBar(all, secs, c.time, h) && all[h].high == c.high && InBar(all, secs, c.time, l) && all[l].low == c.low;
  }

  lemma CandleStarts(rows: seq<Row>, r: Row, secs: int)
    requires secs > 0 && forall i :: 0 <= i < |rows| ==> !InBar(rows, secs, FloorTo(r.time, secs), i)
    ensures IsCandle(rows + [r], secs, CandleOf(r, FloorTo(r.time, secs)))
  {
    var all, c := rows + [r], CandleOf(r, FloorTo(r.time, secs));
    forall i | 0 <= i < |all| && InBar(all, secs, c.time, i)
      ensures i == |rows|
    {
      assert i == |rows| || !InBar(rows, secs, c.time, i);
    }
    assert InBar(all, secs, c.time, |rows|) && all[|rows|] == r;
    assert Opens(all, secs, c, |rows|) && Closes(all, secs, c, |rows|);
  }

  lemma CandleWidens(rows: seq<Row>, r: Row, secs: int, c: Candle)
    requires secs > 0 && IsCandle(rows, secs, c) && FloorTo(r.time, secs) == c.time
    ensures IsCandle(rows + [r], secs, Widen(c, r))
  {
    var all, w := rows + [r], Widen(c, r);
    forall i | 0 <= i < |rows|
      ensures InBar(all, secs, c.time, i) <==> InBar(rows, secs, c.time, i)
    {}
    var i :| 0 <= i < |rows| && Opens(rows, secs, c, i);
    assert Opens(all, secs, w, i);
    assert InBar(all, secs, c.time, |rows|) && all[|rows|] == r;
    assert Closes(all, secs, w, |rows|);
    var h :| 0 <= h < |rows| && InBar(rows, secs, c.time, h) && rows[h].high == c.high;
    var l :| 0 <= l < |rows| && InBar(rows, secs, c.time, l) && rows[l].low == c.low;
    assert all[if r.high > c.high then |rows| else h].high == w.high;
    assert all[if r.low < c.low then |rows| else l].low == w.low;
  }

  lemma CandleLast(rows: seq<Row>, secs: int)
    requires secs > 0 && rows != []
    ensures var bars := CandleFold(rows, secs); bars != [] && bars[|bars| - 1].time == FloorTo(rows[|rows| - 1].time, secs)
  {}

  lemma PutCandleRises(bars: seq<Candle>, b: int, r: Row)
    requires forall i, j :: 0 <= i < j < |bars| ==> bars[i].time < bars[j].time
    requires bars != [] ==> bars[|bars| - 1].time <= b
    ensures var out := PutCandle(bars, b, r);
            (forall i, j :: 0 <= i < j < |out| ==> out[i].time < out[j].time) && forall t :: HasCandle(out, t) <==> HasCandle(bars, t) || t == b
  {
    var out := PutCandle(bars, b, r);
    assert out[|out| - 1].time == b;
    assert forall k :: 0 <= k < |bars| ==> out[k].time == bars[k].time;
  }

  lemma {:induction false} NoGroupYet(rows: seq<Row>, secs: int, b: int)
    requires secs > 0 && forall i :: 0 <= i < |rows| ==> !InBar(rows, secs, b, i)
    ensures GroupCandle(rows, secs, b) == None
  {
    if rows != [] {
      var init := rows[..|rows| - 1];
      forall i | 0 <= i < |init|
        ensures !InBar(init, secs, b, i)
      {
        assert !InBar(rows, secs, b, i);
      }
      assert !InBar(rows, secs, b, |rows| - 1);
      NoGroupYet(init, secs, b);
    }
  }

  lemma NotYet(rows: seq<Row>, bars: seq<Candle>, secs: int, b: int)
    requires secs > 0 && CandlesOf(bars, rows, secs) && (bars != [] ==> bars[|bars| - 1].time < b)
    ensures GroupCandle(rows, secs, b) == None
  {
    forall i | 0 <= i < |rows|
      ensures !InBar(rows, secs, b, i)
    {
      assert HasCandle(bars, FloorTo(rows[i].time, secs));
    }
    NoGroupYet(rows, secs, b);
  }

  lemma GroupCandleSnoc(rows: seq<Row>, r: Row, secs: int, b: int)
    requires secs > 0
    ensures var c := GroupCandle(rows, secs, b);
            GroupCandle(rows + [r], secs, b) == if FloorTo(r.time, secs) != b then c else if c.None? then Some(CandleOf(r, b)) else Some(Widen(c.value, r))
  {
    assert (rows + [r])[..|rows|] == rows;
  }

  lemma PutCandleOf(rows: seq<Row>, r: Row, bars: seq<Candle>, secs: int)
    requires secs > 0 && CandlesOf(bars, rows, secs)
    requires bars != [] ==> bars[|bars| - 1].time <= FloorTo(r.time, secs)
    ensures CandlesOf(PutCandle(bars, FloorTo(r.time, secs), r), rows + [r], secs)
  {
    var b, all := FloorTo(r.time, secs), rows + [r];
    var out := PutCandle(bars, b, r);
    PutCandleRises(bars, b, r);
    if bars == [] || bars[|bars| - 1].time != b { NotYet(rows, bars, secs, b); }
    forall k | 0 <= k < |out|
      ensures GroupCandle(all, secs, out[k].time) == Some(out[k])
    {
      GroupCandleSnoc(rows, r, secs, out[k].time);
    }
    forall i | 0 <= i < |all|
      ensures HasCandle(out, FloorTo(all[i].time, secs))
    {
      assert i < |rows| ==> HasCandle(bars, FloorTo(rows[i].time, secs));
    }
  }

  lemma CandleFoldSnoc(rows: seq<Row>, r: Row, secs: int)
    requires secs > 0
    ensures CandleFold(rows + [r], secs) == PutCandle(CandleFold(rows, secs), FloorTo(r.time, secs), r)
  {
    assert (rows + [r])[..|rows|] == rows;
  }

  lemma CandlesSnoc(rows: seq<Row>, r: Row, secs: int)
    requires secs > 0 && Ordered(rows + [r]) && CandlesOf(CandleFold(rows, secs), rows, secs)
    ensures CandlesOf(CandleFold(rows + [r], secs), rows + [r], secs)
  {
    CandleFoldSnoc(rows, r, secs);
    if rows != [] {
      CandleLast(rows, secs);
      assert (rows + [r])[|rows| - 1].time < (rows + [r])[|rows|].time;
      FloorToMonotone(rows[|rows| - 1].time, r.time, secs);
    }
    PutCandleOf(rows, r, CandleFold(rows, secs), secs);
  }

  /** The candle loop on ordered rows. */
  lemma {:induction false} CandleGroups(rows: seq<Row>, secs: int)
    requires secs > 0 && Ordered(rows)
    ensures CandlesOf(CandleFold(rows, secs), rows, secs)
  {
    if rows != [] {
      var init, r := rows[..|rows| - 1], rows[|rows| - 1];
      RowsSnoc(rows);
      CandleGroups(init, secs);
      CandlesSnoc(init, r, secs);
    }
  }

  lemma {:induction false} GroupIsCandle(rows: seq<Row>, secs: int, b: int)
    requires secs > 0
    ensures match GroupCandle(rows, secs, b)
            case None => forall i :: 0 <= i < |rows| ==> !InBar(rows, secs, b, i)
            case Some(c) => c.time == b && IsCandle(rows, secs, c)
  {
    if rows != [] {
      var init, r := rows[..|rows| - 1], rows[|rows| - 1];
      RowsSnoc(rows);
      GroupIsCandle(init, secs, b);
      GroupStep(init, r, secs, b, GroupCandle(init, secs, b));
    }
  }

  lemma GroupStep(init: seq<Row>, r: Row, secs: int, b: int, c: Option<Candle>)
    requires secs > 0 && c == GroupCandle(init, secs, b)
    requires c.None? ==> forall i :: 0 <= i < |init| ==> !InBar(init, secs, b, i)
    requires c.Some? ==> c.value.time == b && IsCandle(init, secs, c.value)
    ensures match GroupCandle(init + [r], secs, b)
            case None => forall i :: 0 <= i < |init| + 1 ==> !InBar(init + [r], secs, b, i)
            case Some(d) => d.time == b && IsCandle(init + [r], secs, d)
  {
    GroupCandleSnoc(init, r, secs, b);
    if FloorTo(r.time, secs) != b {
      if c.Some? { CandleKept(init, r, secs, c.value); } else { NoneMore(init, r, secs, b); }
    } else if c.None? {
      CandleStarts(init, r, secs);
    } else {
      CandleWidens(init, r, secs, c.value);
    }
  }

  lemma NoneMore(init: seq<Row>, r: Row, secs: int, b: int)
    requires secs > 0 && FloorTo(r.time, secs) != b && forall i :: 0 <= i < |init| ==> !InBar(init, secs, b, i)
    ensures forall i :: 0 <= i < |init| + 1 ==> !InBar(init + [r], secs, b, i)
  {
    forall i | 0 <= i < |init| + 1
      ensures !InBar(init + [r], secs, b, i)
    {
      assert i < |init| ==> !InBar(init, secs, b, i);
    }
  }

  /** Each candle shown has the open of its bar's first row, the highest high, the lowest
      low and the close of its last. */
  lemma CandleIs(rows: seq<Row>, secs: int, k: nat)
    requires secs > 0 && Ordered(rows) && k < |CandleFold(rows, secs)|
    ensures IsCandle(rows, secs, CandleFold(rows, secs)[k])
  {
    CandleGroups(rows, secs);
    GroupIsCandle(rows, secs, CandleFold(rows, secs)[k].time);
  }

  // ---- a fold splits where the key changes ----

  lemma FoldSnoc(a: seq<Row>, r: Row, spot: Option<map<int, SpotRow>>, f: Frame)
    requires f.secs > 0
    ensures Fold(a + [r], spot, f) == Put(Fold(a, spot, f), Key(f, r.time), r, spot)
  {
    assert (a + [r])[..|a|] == a;
  }

  lemma SplitStep(a: seq<Row>, init: seq<Row>, r: Row, spot: Option<map<int, SpotRow>>, f: Frame)
    requires f.secs > 0 && Fold(a + init, spot, f) == Fold(a, spot, f) + Fold(init, spot, f)
    requires a != [] && init == [] ==> Key(f, a[|a| - 1].time) != Key(f, r.time)
    ensures Fold(a + init + [r], spot, f) == Fold(a, spot, f) + Fold(init + [r], spot, f)
  {
    FoldSnoc(a + init, r, spot, f);
    FoldSnoc(init, r, spot, f);
    if init == [] && a != [] { FoldLast(a, spot, f); }
    if init != [] { FoldLast(init, spot, f); }
    PutRight(Fold(a, spot, f), Fold(init, spot, f), Key(f, r.time), r, spot);
  }

  lemma SnocOfConcat(a: seq<Row>, b: seq<Row>)
    requires b != []
    ensures a + b == a + b[..|b| - 1] + [b[|b| - 1]] && b == b[..|b| - 1] + [b[|b| - 1]]
  {}

  lemma {:induction false} FoldSplits(a: seq<Row>, b: seq<Row>, spot: Option<map<int, SpotRow>>, f: Frame)
    requires f.secs > 0
    requires a != [] && b != [] ==> Key(f, a[|a| - 1].time) != Key(f, b[0].time)
    ensures Fold(a + b, spot, f) == Fold(a, spot, f) + Fold(b, spot, f)
    decreases |b|
  {
    if b == [] {
      assert a + b == a;
    } else {
      var init, r := b[..|b| - 1], b[|b| - 1];
      FoldSplits(a, init, spot, f);
      SplitStep(a, init, r, spot, f);
      SnocOfConcat(a, b);
    }
  }

  lemma PutRight(x: seq<Tally>, y: seq<Tally>, b: int, r: Row, spot: Option<map<int, SpotRow>>)
    requires y == [] && x != [] ==> x[|x| - 1].time != b
    ensures Put(x + y, b, r, spot) == x + Put(y, b, r, spot)
  {
    if y != [] {
      assert (x + y)[..|x + y| - 1] == x + y[..|y| - 1];
    } else {
      assert x + y == x;
    }
  }

  // ---- both endpoints show the same bars ----

  lemma NewBarTime(bars: seq<Tally>, b: int, r: Row, spot: Option<map<int, SpotRow>>)
    requires bars == [] || bars[|bars| - 1].time != b
    ensures TallyTimes(Put(bars, b, r, spot)) == TallyTimes(bars) + [b]
  {
    var t := Absorb(Opened(b), r, spot);
    assert Put(bars, b, r, spot) == bars + [t] && t.time == b;
  }

  lemma {:induction false} NativeTimes(rows: seq<Row>, spot: Option<map<int, SpotRow>>, f: Frame)
    requires f.secs > 0 && f.secs == f.native && Ordered(rows)
    ensures TallyTimes(Fold(rows, spot, f)) == Times(rows)
  {
    if rows != [] {
      var init, r := rows[..|rows| - 1], rows[|rows| - 1];
      NativeTimes(init, spot, f);
      assert Times(rows) == Times(init) + [r.time];
      var bars := Fold(init, spot, f);
      assert |bars| == |TallyTimes(bars)| == |init|;
      if bars != [] { assert bars[|bars| - 1].time == TallyTimes(bars)[|bars| - 1] == Times(init)[|init| - 1]; }
      NewBarTime(bars, r.time, r, spot);
    }
  }

  predicate SameTimes(x: seq<Tally>, y: seq<Candle>) { |x| == |y| && forall i :: 0 <= i < |x| ==> x[i].time == y[i].time }

  lemma PutTimes(x: seq<Tally>, y: seq<Candle>, b: int, r: Row, spot: Option<map<int, SpotRow>>)
    requires SameTimes(x, y)
    ensures SameTimes(Put(x, b, r, spot), PutCandle(y, b, r))
  {}

  lemma {:induction false} FoldTimes(rows: seq<Row>, spot: Option<map<int, SpotRow>>, f: Frame)
    requires f.secs > 0 && f.secs != f.native
    ensures SameTimes(Fold(rows, spot, f), CandleFold(rows, f.secs))
  {
    if rows != [] {
      var init, r := rows[..|rows| - 1], rows[|rows| - 1];
      FoldTimes(init, spot, f);
      PutTimes(Fold(init, spot, f), CandleFold(init, f.secs), Key(f, r.time), r, spot);
    }
  }

  lemma KeptTimes(x: seq<Tally>, y: seq<Candle>, secs: int, now: int)
    requires SameTimes(x, y)
    ensures var k := Kept(TallyTimes(x), secs, now);
            k == Kept(CandleTimes(y), secs, now) && TallyTimes(x[..k]) == CandleTimes(y[..k])
  {
    assert TallyTimes(x) == CandleTimes(y);
  }

  /** From the same rows the two loops yield exactly the same bar times. */
  lemma TimesMatch(rows: seq<Row>, spot: Option<map<int, SpotRow>>, f: Frame, now: int)
    requires f.secs > 0 && Ordered(rows)
    ensures TallyTimes(Settled(Fold(rows, spot, f), f, now)) == CandleTimes(Candles(rows, f, now))
  {
    if f.secs == f.native {
      NativeTimes(rows, spot, f);
      assert CandleTimes(Candles(rows, f, now)) == Times(rows);
    } else {
      FoldTimes(rows, spot, f);
      KeptTimes(Fold(rows, spot, f), CandleFold(rows, f.secs), f.secs, now);
    }
  }

  // ---- the loops ----

  lemma FoldStep(rows: seq<Row>, i: nat, spot: Option<map<int, SpotRow>>, f: Frame)
    requires f.secs > 0 && i < |rows|
    ensures Fold(rows[..i + 1], spot, f) == Put(Fold(rows[..i], spot, f), Key(f, rows[i].time), rows[i], spot)
  {
    assert rows[..i + 1][..i] == rows[..i];
  }

  /** The bars closed so far and the one being filled. */
  function Pending(out: seq<Tally>, cur: Option<Tally>): seq<Tally> {
    if cur.Some? then out + [cur.value] else out
  }

  lemma PutPending(out: seq<Tally>, cur: Option<Tally>, b: int, r: Row, spot: Option<map<int, SpotRow>>)
    requires cur.None? ==> out == []
    ensures cur.Some? && cur.value.time == b ==> Put(Pending(out, cur), b, r, spot) == Pending(out, Some(Absorb(cur.value, r, spot)))
    ensures cur.None? || cur.value.time != b ==> Put(Pending(out, cur), b, r, spot) == Pending(Pending(out, cur), Some(Absorb(Opened(b), r, spot)))
  {}

  method FoldRows(rows: seq<Row>, spot: Option<map<int, SpotRow>>, f: Frame, now: int) returns (out: seq<Tally>)
    requires f.secs > 0
    ensures out == Settled(Fold(rows, spot, f), f, now)
  {
    out := [];
    var cur: Option<Tally> := None;
    for i := 0 to |rows|
      invariant Fold(rows[..i], spot, f) == Pending(out, cur)
      invariant cur.None? ==> out == []
    {
      FoldStep(rows, i, spot, f);
      var b := Key(f, rows[i].time);
      PutPending(out, cur, b, rows[i], spot);
      if cur.None? || cur.value.time != b {
        if cur.Some? { out := out + [cur.value]; }
        cur := Some(Opened(b));
      }
      cur := Some(Absorb(cur.value, rows[i], spot));
    }
    assert rows[..|rows|] == rows;
    if cur.Some? { out := out + [cur.value]; }
    if f.secs != f.native { out := PopUnfinished(out, f.secs, now); }
  }

  lemma KeptDrop(times: seq<int>, n: nat, secs: int, now: int)
    requires 0 < n <= |times| && times[n - 1] + secs > now
    ensures Kept(times[..n], secs, now) == Kept(times[..n - 1], secs, now)
  {
    assert times[..n][..n - 1] == times[..n - 1];
  }

  method PopUnfinished(all: seq<Tally>, secs: int, now: int) returns (out: seq<Tally>)
    ensures out == all[..Kept(TallyTimes(all), secs, now)]
  {
    out := all;
    ghost var k := Kept(TallyTimes(all), secs, now);
    assert TallyTimes(all)[..|all|] == TallyTimes(all);
    while out != [] && out[|out| - 1].time + secs > now
      invariant |out| <= |all| && out == all[..|out|]
      invariant Kept(TallyTimes(all)[..|out|], secs, now) == k
      decreases |out|
    {
      KeptDrop(TallyTimes(all), |out|, secs, now);
      out := out[..|out| - 1];
    }
  }

  lemma CandleStep(rows: seq<Row>, i: nat, secs: int)
    requires secs > 0 && i < |rows|
    ensures CandleFold(rows[..i + 1], secs) == PutCandle(CandleFold(rows[..i], secs), FloorTo(rows[i].time, secs), rows[i])
  {
    assert rows[..i + 1][..i] == rows[..i];
  }

  function PendingCandles(out: seq<Candle>, cur: Option<Candle>): seq<Candle> {
    if cur.Some? then out + [cur.value] else out
  }

  method CandleRows(rows: seq<Row>, f: Frame, now: int) returns (out: seq<Candle>)
    requires f.secs > 0
    ensures out == Candles(rows, f, now)
  {
    if f.secs == f.native {
      return seq(|rows|, i requires 0 <= i < |rows| => CandleOf(rows[i], rows[i].time));
    }
    out := [];
    var cur: Option<Candle> := None;
    for i := 0 to |rows|
      invariant CandleFold(rows[..i], f.secs) == PendingCandles(out, cur)
      invariant cur.None? ==> out == []
    {
      CandleStep(rows, i, f.secs);
      var b := FloorTo(rows[i].time, f.secs);
      if cur.None? || cur.value.time != b {
        if cur.Some? { out := out + [cur.value]; }
        cur := Some(CandleOf(rows[i], b));
      } else {
        cur := Some(Widen(cur.value, rows[i]));
      }
    }
    assert rows[..|rows|] == rows;
    if cur.Some? { out := out + [cur.value]; }
    out := PopCandles(out, f.secs, now);
  }

  method PopCandles(all: seq<Candle>, secs: int, now: int) returns (out: seq<Candle>)
    ensures out == all[..Kept(CandleTimes(all), secs, now)]
  {
    out := all;
    ghost var k := Kept(CandleTimes(all), secs, now);
    assert CandleTimes(all)[..|all|] == CandleTimes(all);
    while out != [] && out[|out| - 1].time + secs > now
      invariant |out| <= |all| && out == all[..|out|]
      invariant Kept(CandleTimes(all)[..|out|], secs, now) == k
      decreases |out|
    {
      KeptDrop(CandleTimes(all), |out|, secs, now);
      out := out[..|out| - 1];
    }
  }
}
