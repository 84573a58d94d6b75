/** The tick log (botlib.py _record_tick): every tick is counted, and only the
    ticks worth a row are stored. A process remembers the last status it
    committed per variant; a restart forgets them, a failed write keeps them. */
module TickLog {
  import opened Prelude

  const SECONDS_PER_DAY := 86400

  /** One variant's tick result, after the defaults for missing fields. */
  datatype Tick = Tick(variant: string, status: string, hbOk: bool, signal: bool, opened': bool, closed: bool)

  datatype LogRow = LogRow(variant: string, time: int, status: string)

  type Counter = (int, string, string)   // day, variant, status

  datatype Log = Log(rows: seq<LogRow>, daily: map<Counter, nat>)

  type Memory = map<string, string>

  function Recalled(m: Memory, variant: string): Option<string> {
    if variant in m then Some(m[variant]) else None
  }

  predicate WorthARow(t: Tick, m: Memory) {
    Some(t.status) != Recalled(m, t.variant) || !t.hbOk || t.signal || t.opened' || t.closed
  }

  function CountOf(daily: map<Counter, nat>, c: Counter): nat { if c in daily then daily[c] else 0 }

  /** The counter upsert and, when worth it, the row of one tick. */
  function LogTick(log: Log, m: Memory, now: int, t: Tick): Log {
    var c := (now / SECONDS_PER_DAY, t.variant, t.status);
    Log(if WorthARow(t, m) then log.rows + [LogRow(t.variant, now, t.status)] else log.rows,
        log.daily[c := CountOf(log.daily, c) + 1])
  }

  function LogTicks(log: Log, m: Memory, now: int, ticks: seq<Tick>): Log {
    if ticks == [] then log else LogTick(LogTicks(log, m, now, ticks[..|ticks| - 1]), m, now, ticks[|ticks| - 1])
  }

  function Remember(m: Memory, ticks: seq<Tick>): Memory {
    if ticks == [] then m else Remember(m, ticks[..|ticks| - 1])[ticks[|ticks| - 1].variant := ticks[|ticks| - 1].status]
  }

  /** One more tick of a recording. */
  lemma TicksSnoc(log: Log, m: Memory, now: int, ticks: seq<Tick>, k: nat)
    requires k < |ticks|
    ensures LogTicks(log, m, now, ticks[..k + 1]) == LogTick(LogTicks(log, m, now, ticks[..k]), m, now, ticks[k])
    ensures Remember(m, ticks[..k + 1]) == Remember(m, ticks[..k])[ticks[k].variant := ticks[k].status]
  {
    assert ticks[..k + 1][..k] == ticks[..k];
  }

  /** The last status committed for the tick's variant, if this process knows one, is another
      than the tick's, or there is something to report. */
  predicate Noteworthy(t: Tick, m: Memory) {
    || t.variant !in m || m[t.variant] != t.status
    || !t.hbOk || t.signal || t.opened' || t.closed
  }

  /** The variant has a row among those a recording added. */
  predicate RowAdded(log: Log, after: Log, now: int, t: Tick) {
    exists k :: |log.rows| <= k < |after.rows| && after.rows[k] == LogRow(t.variant, now, t.status)
  }

  lemma {:induction false} RowsGrow(log: Log, m: Memory, now: int, ticks: seq<Tick>)
    ensures log.rows <= LogTicks(log, m, now, ticks).rows
    ensures forall k :: |log.rows| <= k < |LogTicks(log, m, now, ticks).rows| ==>
      exists i :: 0 <= i < |ticks| && ticks[i].variant == LogTicks(log, m, now, ticks).rows[k].variant
  {
    if ticks != [] {
      var init := ticks[..|ticks| - 1];
      RowsGrow(log, m, now, init);
      var rows, before := LogTicks(log, m, now, ticks).rows, LogTicks(log, m, now, init).rows;
      forall k | |log.rows| <= k < |rows|
        ensures exists i :: 0 <= i < |ticks| && ticks[i].variant == rows[k].variant
      {
        if k < |before| {
          var i :| 0 <= i < |init| && init[i].variant == before[k].variant;
          assert ticks[i].variant == rows[k].variant;
        } else {
          assert ticks[|ticks| - 1].variant == rows[k].variant;
        }
      }
    }
  }

  /** A tick of a recording gets its row exactly when it is noteworthy. */
  lemma {:induction false} StoredIff(log: Log, m: Memory, now: int, ticks: seq<Tick>, i: nat)
    requires DistinctVariants(ticks) && i < |ticks|
    ensures RowAdded(log, LogTicks(log, m, now, ticks), now, ticks[i]) <==> Noteworthy(ticks[i], m)
  {
    var n := |ticks| - 1;
    var init, t := ticks[..n], ticks[n];
    var before, after := LogTicks(log, m, now, init), LogTicks(log, m, now, ticks);
    RowsGrow(log, m, now, init);
    if i < n {
      StoredIff(log, m, now, init, i);
      assert forall k :: |log.rows| <= k < |before.rows| ==> after.rows[k] == before.rows[k];
    } else if WorthARow(t, m) {
      assert after.rows[|before.rows|] == LogRow(t.variant, now, t.status);
    }
  }

  predicate DistinctVariants(ticks: seq<Tick>) {
    forall i, j :: 0 <= i < j < |ticks| ==> ticks[i].variant != ticks[j].variant
  }

  /** One bot's process writing the shared tables. */
  class Recorder {
    var log: Log
    var memory: Memory

    constructor ()
      ensures log == Log([], map[]) && memory == map[]
    {
      log, memory := Log([], map[]), map[];
    }

    /** A restart keeps the tables and forgets the statuses. */
    method Restart()
      modifies this
      ensures log == old(log) && memory == map[]
    {
      memory := map[];
    }

    /** Count each tick and store those worth a row, in one transaction. When the
        write fails nothing is committed and the memory is left alone. */
    method RecordTick(now: int, ticks: seq<Tick>, writeFails: bool) returns (written: int)
      modifies this
      ensures writeFails ==> log == old(log) && memory == old(memory) && written == -1
      ensures !writeFails ==> log == LogTicks(old(log), old(memory), now, ticks) && memory == Remember(old(memory), ticks)
      ensures !writeFails ==> written == |log.rows| - |old(log).rows|
    {
      var pending, remembered := log, map[];
      written := 0;
      for i := 0 to |ticks|
        invariant pending == LogTicks(log, memory, now, ticks[..i])
        invariant log == old(log) && memory == old(memory)
        invariant memory + remembered == Remember(memory, ticks[..i])
        invariant written == |pending.rows| - |log.rows|
      {
        TicksSnoc(log, memory, now, ticks, i);
        var t := ticks[i];
        var c := (now / SECONDS_PER_DAY, t.variant, t.status);
        var daily := pending.daily[c := CountOf(pending.daily, c) + 1];
        remembered := remembered[t.variant := t.status];
        var worth := WorthARow(t, memory);
        pending := Log(if worth then pending.rows + [LogRow(t.variant, now, t.status)] else pending.rows, daily);
        if worth { written := written + 1; }
      }
      if writeFails { return -1; }
      assert ticks[..|ticks|] == ticks;
      log := pending;
      memory := memory + remembered;
    }
  }

  // ---- runs with restarts and failed writes ----

  datatype Deed = Records(now: int, ticks: seq<Tick>, fails: bool) | Restarts

  datatype State = State(log: Log, memory: Memory)

  function Do(s: State, d: Deed): State {
    match d
    case Restarts => State(s.log, map[])
    case Records(now, ticks, fails) =>
      if fails then s else State(LogTicks(s.log, s.memory, now, ticks), Remember(s.memory, ticks))
  }

  function DoAll(deeds: seq<Deed>): State {
    if deeds == [] then State(Log([], map[]), map[]) else Do(DoAll(deeds[..|deeds| - 1]), deeds[|deeds| - 1])
  }

  /** Recordings come at strictly increasing times, one tick per variant each. */
  ghost predicate Ordered(deeds: seq<Deed>) {
    && (forall i, j :: 0 <= i < j < |deeds| && deeds[i].Records? && deeds[j].Records? ==> deeds[i].now < deeds[j].now)
    && (forall i :: 0 <= i < |deeds| && deeds[i].Records? ==> DistinctVariants(deeds[i].ticks))
  }

  /** The tick was committed by the i-th deed. */
  ghost predicate Committed(deeds: seq<Deed>, i: int, t: Tick) {
    0 <= i < |deeds| && deeds[i].Records? && !deeds[i].fails && t in deeds[i].ticks
  }

  // ---- no status is lost ----

  /** The status of the newest row of a variant at or before a time. */
  function StatusAt(rows: seq<LogRow>, variant: string, at: int): Option<string> {
    if rows == [] then None
    else
      var last := rows[|rows| - 1];
      if last.variant == variant && last.time <= at then Some(last.status) else StatusAt(rows[..|rows| - 1], variant, at)
  }

  ghost predicate NewestRow(rows: seq<LogRow>, k: int, variant: string, at: int) {
    && 0 <= k < |rows| && rows[k].variant == variant && rows[k].time <= at
    && forall j :: 0 <= j < |rows| && rows[j].variant == variant && rows[j].time <= at ==> rows[j].time <= rows[k].time
  }

  ghost predicate TimeOrdered(rows: seq<LogRow>) {
    forall i, j :: 0 <= i < j < |rows| ==> rows[i].time <= rows[j].time
  }

  /** Rows come in the order of their times, so the newest is the last. */
  lemma {:induction false} StatusAtIsNewest(rows: seq<LogRow>, variant: string, at: int)
    requires TimeOrdered(rows) && StatusAt(rows, variant, at).Some?
    ensures exists k :: NewestRow(rows, k, variant, at) && rows[k].status == StatusAt(rows, variant, at).value
  {
    var n := |rows| - 1;
    if rows[n].variant == variant && rows[n].time <= at {
      assert NewestRow(rows, n, variant, at);
    } else {
      StatusAtIsNewest(rows[..n], variant, at);
      var k :| NewestRow(rows[..n], k, variant, at) && rows[..n][k].status == StatusAt(rows, variant, at).value;
      assert NewestRow(rows, k, variant, at);
    }
  }

  lemma StatusSnoc(rows: seq<LogRow>, r: LogRow, variant: string, at: int)
    ensures StatusAt(rows + [r], variant, at)
         == if r.variant == variant && r.time <= at then Some(r.status) else StatusAt(rows, variant, at)
  {
    assert (rows + [r])[..|rows|] == rows;
  }

  /** Ticks at a later time do not change the status at an earlier one, and
      ticks of other variants change nothing. */
  lemma {:induction false} TicksKeepStatus(log: Log, m: Memory, now: int, ticks: seq<Tick>, variant: string, at: int)
    requires at < now || forall i :: 0 <= i < |ticks| ==> ticks[i].variant != variant
    ensures StatusAt(LogTicks(log, m, now, ticks).rows, variant, at) == StatusAt(log.rows, variant, at)
  {
    if ticks != [] {
      var init, t := ticks[..|ticks| - 1], ticks[|ticks| - 1];
      TicksKeepStatus(log, m, now, init, variant, at);
      StatusSnoc(LogTicks(log, m, now, init).rows, LogRow(t.variant, now, t.status), variant, at);
    }
  }

  /** After a batch the status of each of its variants is the tick's: a new row
      says so, or the memory did and the last row agrees with the memory. */
  lemma {:induction false} BatchStatus(log: Log, m: Memory, now: int, ticks: seq<Tick>, i: nat)
    requires DistinctVariants(ticks) && i < |ticks|
    requires ticks[i].variant in m ==> StatusAt(log.rows, ticks[i].variant, now) == Some(m[ticks[i].variant])
    ensures StatusAt(LogTicks(log, m, now, ticks).rows, ticks[i].variant, now) == Some(ticks[i].status)
  {
    var init, t := ticks[..|ticks| - 1], ticks[|ticks| - 1];
    var before := LogTicks(log, m, now, init);
    StatusSnoc(before.rows, LogRow(t.variant, now, t.status), ticks[i].variant, now);
    if i == |ticks| - 1 {
      TicksKeepStatus(log, m, now, init, t.variant, now);
    } else {
      BatchStatus(log, m, now, init, i);
    }
  }

  lemma {:induction false} RememberExact(m: Memory, ticks: seq<Tick>, variant: string)
    requires DistinctVariants(ticks) && variant in Remember(m, ticks)
    ensures (exists i :: 0 <= i < |ticks| && ticks[i].variant == variant && Remember(m, ticks)[variant] == ticks[i].status)
      || ((forall i :: 0 <= i < |ticks| ==> ticks[i].variant != variant) && variant in m && Remember(m, ticks)[variant] == m[variant])
  {
    if ticks != [] {
      var init, t := ticks[..|ticks| - 1], ticks[|ticks| - 1];
      if t.variant != variant { RememberExact(m, init, variant); }
    }
  }

  /** A status in memory is the status of the variant's newest row. */
  ghost predicate MemoryTrue(s: State, at: int) {
    forall v :: v in s.memory ==> StatusAt(s.log.rows, v, at) == Some(s.memory[v])
  }

  /** Every row's time is that of an earlier recording. */
  ghost predicate TimesKnown(s: State, deeds: seq<Deed>) {
    forall k :: 0 <= k < |s.log.rows| ==> RecordedAt(deeds, s.log.rows[k].time)
  }

  ghost predicate RecordedAt(deeds: seq<Deed>, time: int) {
    exists j :: 0 <= j < |deeds| && deeds[j].Records? && deeds[j].now == time
  }

  lemma {:induction false} TicksTimes(log: Log, m: Memory, now: int, ticks: seq<Tick>)
    ensures var rows := LogTicks(log, m, now, ticks).rows;
      log.rows <= rows && forall k :: |log.rows| <= k < |rows| ==> rows[k].time == now
  {
    if ticks != [] { TicksTimes(log, m, now, ticks[..|ticks| - 1]); }
  }

  lemma {:induction false} RunTimes(deeds: seq<Deed>)
    ensures TimesKnown(DoAll(deeds), deeds)
  {
    if deeds != [] {
      var init, d := deeds[..|deeds| - 1], deeds[|deeds| - 1];
      RunTimes(init);
      var before, after := DoAll(init), DoAll(deeds);
      if d.Records? { TicksTimes(before.log, before.memory, d.now, d.ticks); }
      forall k | 0 <= k < |after.log.rows|
        ensures RecordedAt(deeds, after.log.rows[k].time)
      {
        if k < |before.log.rows| {
          assert after.log.rows[k] == before.log.rows[k] && RecordedAt(init, before.log.rows[k].time);
          var j :| 0 <= j < |init| && init[j].Records? && init[j].now == before.log.rows[k].time;
          assert deeds[j] == init[j];
        } else {
          assert deeds[|deeds| - 1] == d;
        }
      }
    }
  }

  lemma {:induction false} RunTimeOrdered(deeds: seq<Deed>)
    requires Ordered(deeds)
    ensures TimeOrdered(DoAll(deeds).log.rows)
  {
    if deeds != [] {
      var init, d := deeds[..|deeds| - 1], deeds[|deeds| - 1];
      RunTimeOrdered(init);
      RunTimes(init);
      if d.Records? { TicksTimes(DoAll(init).log, DoAll(init).memory, d.now, d.ticks); }
    }
  }

  /** Past every row's time, the status no longer depends on the time. */
  lemma {:induction false} StatusLater(rows: seq<LogRow>, variant: string, at: int, later: int)
    requires at <= later && forall k :: 0 <= k < |rows| ==> rows[k].time <= at
    ensures StatusAt(rows, variant, at) == StatusAt(rows, variant, later)
  {
    if rows != [] { StatusLater(rows[..|rows| - 1], variant, at, later); }
  }

  ghost predicate AfterAll(deeds: seq<Deed>, at: int) {
    forall j :: 0 <= j < |deeds| && deeds[j].Records? ==> deeds[j].now <= at
  }

  lemma {:induction false} RunMemoryTrue(deeds: seq<Deed>, at: int)
    requires Ordered(deeds) && AfterAll(deeds, at)
    ensures MemoryTrue(DoAll(deeds), at)
  {
    if deeds != [] {
      var init, d := deeds[..|deeds| - 1], deeds[|deeds| - 1];
      var before := DoAll(init);
      RunMemoryTrue(init, at);
      if d.Records? && !d.fails {
        RunMemoryTrue(init, d.now);
        forall v | v in Remember(before.memory, d.ticks)
          ensures StatusAt(LogTicks(before.log, before.memory, d.now, d.ticks).rows, v, at) == Some(Remember(before.memory, d.ticks)[v])
        {
          BatchMemory(init, d, v, at);
        }
      }
    }
  }

  lemma BatchMemory(init: seq<Deed>, d: Deed, v: string, at: int)
    requires d.Records? && DistinctVariants(d.ticks) && d.now <= at && AfterAll(init, d.now)
    requires MemoryTrue(DoAll(init), d.now)
    requires v in Remember(DoAll(init).memory, d.ticks)
    ensures StatusAt(LogTicks(DoAll(init).log, DoAll(init).memory, d.now, d.ticks).rows, v, at)
         == Some(Remember(DoAll(init).memory, d.ticks)[v])
  {
    var s := DoAll(init);
    var rows := LogTicks(s.log, s.memory, d.now, d.ticks).rows;
    RunTimes(init);
    TicksTimes(s.log, s.memory, d.now, d.ticks);
    StatusLater(rows, v, d.now, at);
    RememberExact(s.memory, d.ticks, v);
    if i :| 0 <= i < |d.ticks| && d.ticks[i].variant == v && Remember(s.memory, d.ticks)[v] == d.ticks[i].status {
      BatchStatus(s.log, s.memory, d.now, d.ticks, i);
    } else {
      TicksKeepStatus(s.log, s.memory, d.now, d.ticks, v, d.now);
    }
  }

  /** For any run with restarts and failed writes, the status of every committed
      tick is that of the newest stored row of its variant at or before it. */
  lemma {:induction false} NoStatusLost(deeds: seq<Deed>, i: int, t: Tick)
    requires Ordered(deeds) && Committed(deeds, i, t)
    ensures StatusAt(DoAll(deeds).log.rows, t.variant, deeds[i].now) == Some(t.status)
  {
    var init, d := deeds[..|deeds| - 1], deeds[|deeds| - 1];
    var s := DoAll(init);
    if i == |deeds| - 1 {
      var k :| 0 <= k < |d.ticks| && d.ticks[k] == t;
      RunMemoryTrue(init, d.now);
      BatchStatus(s.log, s.memory, d.now, d.ticks, k);
    } else {
      NoStatusLost(init, i, t);
      if d.Records? && !d.fails { TicksKeepStatus(s.log, s.memory, d.now, d.ticks, t.variant, deeds[i].now); }
    }
  }

  lemma StatusRecoverable(deeds: seq<Deed>, i: int, t: Tick)
    requires Ordered(deeds) && Committed(deeds, i, t)
    ensures exists k :: NewestRow(DoAll(deeds).log.rows, k, t.variant, deeds[i].now) && DoAll(deeds).log.rows[k].status == t.status
  {
    NoStatusLost(deeds, i, t);
    RunTimeOrdered(deeds);
    StatusAtIsNewest(DoAll(deeds).log.rows, t.variant, deeds[i].now);
  }

  // ---- the counters are exact ----

  function Tally(now: int, ticks: seq<Tick>, c: Counter): nat {
    if ticks == [] then 0
    else Tally(now, ticks[..|ticks| - 1], c)
         + (if c.0 * 86400 <= now < (c.0 + 1) * 86400 && (ticks[|ticks| - 1].variant, ticks[|ticks| - 1].status) == (c.1, c.2) then 1 else 0)
  }

  /** How many committed ticks fall on the counter. */
  function CommittedCount(deeds: seq<Deed>, c: Counter): nat {
    if deeds == [] then 0
    else CommittedCount(deeds[..|deeds| - 1], c)
         + (match deeds[|deeds| - 1]
            case Restarts => 0
            case Records(now, ticks, fails) => if fails then 0 else Tally(now, ticks, c))
  }

  lemma {:induction false} TicksCounted(log: Log, m: Memory, now: int, ticks: seq<Tick>, c: Counter)
    ensures CountOf(LogTicks(log, m, now, ticks).daily, c) == CountOf(log.daily, c) + Tally(now, ticks, c)
  {
    if ticks != [] { TicksCounted(log, m, now, ticks[..|ticks| - 1], c); }
  }

  /** Each daily counter is the number of committed ticks of its UTC day, variant
      and status. */
  lemma {:induction false} CountersExact(deeds: seq<Deed>, c: Counter)
    ensures CountOf(DoAll(deeds).log.daily, c) == CommittedCount(deeds, c)
  {
    if deeds != [] {
      var s := DoAll(deeds[..|deeds| - 1]);
      CountersExact(deeds[..|deeds| - 1], c);
      var d := deeds[|deeds| - 1];
      if d.Records? && !d.fails { TicksCounted(s.log, s.memory, d.now, d.ticks, c); }
    }
  }
}
