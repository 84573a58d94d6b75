/** Detecting a second live process under one bot name: one shared row per name,
    and in each process the memory of its own last write (botlib.py heartbeat,
    strategies/support/instance_guard.py). */
module Heartbeat {
  import opened Prelude

  datatype Row = Row(pid: nat, tick: int, status: string, lastEval: Option<int>)

  /** A different pid wrote the row since this process's own last write. */
  predicate Duplicate(row: Option<Row>, ownLast: Option<int>, pid: nat) {
    row.Some? && ownLast.Some? && row.value.pid != pid && row.value.tick > ownLast.value
  }

  /** The upsert: an evaluation time not given keeps the one stored. */
  function Upserted(row: Option<Row>, pid: nat, now: int, status: string, lastEval: Option<int>): Row {
    Row(pid, now, status, if lastEval.None? && row.Some? then row.value.lastEval else lastEval)
  }

  class Heartbeats {
    var rows: map<string, Row>

    constructor ()
      ensures rows == map[]
    {
      rows := map[];
    }

    function RowOf(name: string): Option<Row>
      reads this
    {
      if name in rows then Some(rows[name]) else None
    }
  }

  class Process {
    const pid: nat
    var lastWrite: map<string, int>
    var standingDown: bool

    /** A process that has just started remembers nothing and may enter. */
    constructor (pid: nat)
      ensures this.pid == pid && lastWrite == map[] && !standingDown
    {
      this.pid := pid;
      lastWrite, standingDown := map[], false;
    }

    function OwnLast(name: string): Option<int>
      reads this
    {
      if name in lastWrite then Some(lastWrite[name]) else None
    }

    /** False when another live process shares the name; this one then stands
        down until a beat that sees no other. */
    method Beat(table: Heartbeats, name: string, now: int, status: string, lastEval: Option<int>) returns (alone: bool)
      modifies this, table
      ensures alone <==> !Duplicate(old(table.RowOf(name)), old(OwnLast(name)), pid)
      ensures standingDown <==> !alone
      ensures lastWrite == old(lastWrite)[name := now]
      ensures table.rows == old(table.rows)[name :=
        Upserted(old(table.RowOf(name)), pid, now, if alone then status else "error", lastEval)]
      ensures var row := table.rows[name];
        && (row.pid, row.tick, row.status) == (pid, now, if alone then status else "error")
        && (lastEval.Some? ==> row.lastEval == lastEval)
        && (lastEval.None? ==> row.lastEval == if name in old(table.rows) then old(table.rows)[name].lastEval else None)
    {
      var row := table.RowOf(name);
      var duplicate := false;
      var written := status;
      if row.Some? && name in lastWrite && row.value.pid != pid && row.value.tick > lastWrite[name] {
        duplicate := true;
        written := "error";
      }
      table.rows := table.rows[name := Upserted(row, pid, now, written, lastEval)];
      lastWrite := lastWrite[name := now];
      standingDown := duplicate;
      return !duplicate;
    }
  }

  // ---- schedules of processes that share one name ----

  /** A beat at a clock time, or a process forgetting everything by restarting. */
  datatype Happening = Beats(pid: nat, tick: int) | Restarts(pid: nat)

  datatype World = World(row: Option<Row>, memory: map<nat, int>, down: set<nat>)

  function Remembered(w: World, pid: nat): Option<int> {
    if pid in w.memory then Some(w.memory[pid]) else None
  }

  function WorldStep(w: World, h: Happening): World {
    match h
    case Beats(p, t) =>
      var dup := Duplicate(w.row, Remembered(w, p), p);
      World(Some(Upserted(w.row, p, t, if dup then "error" else "ok", None)), w.memory[p := t],
            if dup then w.down + {p} else w.down - {p})
    case Restarts(p) => World(w.row, map q | q in w.memory && q != p :: w.memory[q], w.down - {p})
  }

  function Schedule(hs: seq<Happening>): World {
    if hs == [] then World(None, map[], {}) else WorldStep(Schedule(hs[..|hs| - 1]), hs[|hs| - 1])
  }

  /** Beats come at strictly increasing times. */
  predicate Clocked(hs: seq<Happening>) {
    forall i, j :: 0 <= i < j < |hs| && hs[i].Beats? && hs[j].Beats? ==> hs[i].tick < hs[j].tick
  }

  /** k is the process's own last beat, with no restart since. */
  predicate OwnPrevious(hs: seq<Happening>, pid: nat, k: int) {
    0 <= k < |hs| && hs[k].Beats? && hs[k].pid == pid && forall m :: k < m < |hs| ==> hs[m].pid != pid
  }

  predicate LastBeat(hs: seq<Happening>, r: int) {
    0 <= r < |hs| && hs[r].Beats? && forall m :: r < m < |hs| ==> !hs[m].Beats?
  }

  /** What the shared row and each memory hold after a schedule. */
  lemma {:induction false} ScheduleHistory(hs: seq<Happening>)
    ensures var w := Schedule(hs);
      && (w.row == None ==> forall m :: 0 <= m < |hs| ==> !hs[m].Beats?)
      && (w.row.Some? ==> exists r :: LastBeat(hs, r) && hs[r].pid == w.row.value.pid && hs[r].tick == w.row.value.tick)
      && (forall p :: p in w.memory ==> exists k :: OwnPrevious(hs, p, k) && hs[k].tick == w.memory[p])
      && (forall p, k :: OwnPrevious(hs, p, k) ==> p in w.memory)
  {
    if hs != [] {
      var init, h := hs[..|hs| - 1], hs[|hs| - 1];
      ScheduleHistory(init);
      var v, w := Schedule(init), Schedule(hs);
      if h.Beats? {
        assert LastBeat(hs, |hs| - 1);
        assert OwnPrevious(hs, h.pid, |hs| - 1);
      } else if v.row.Some? {
        var r :| LastBeat(init, r) && init[r].pid == v.row.value.pid && init[r].tick == v.row.value.tick;
        assert LastBeat(hs, r);
      }
      forall p | p in w.memory && p != h.pid
        ensures exists k :: OwnPrevious(hs, p, k) && hs[k].tick == w.memory[p]
      {
        var k :| OwnPrevious(init, p, k) && init[k].tick == v.memory[p];
        assert OwnPrevious(hs, p, k);
      }
      forall p, k | OwnPrevious(hs, p, k)
        ensures p in w.memory
      {
        if k < |init| { assert OwnPrevious(init, p, k); }
      }
    }
  }

  /** Some other process beat after this one's own previous beat. */
  ghost predicate Intruded(hs: seq<Happening>, pid: nat) {
    exists k, j :: OwnPrevious(hs, pid, k) && k < j < |hs| && hs[j].Beats? && hs[j].pid != pid
  }

  /** In every schedule a beat is flagged exactly when another process beat since
      the beating process's own previous beat. */
  lemma FlaggedIff(hs: seq<Happening>, pid: nat, tick: int)
    requires Clocked(hs)
    ensures pid in Schedule(hs + [Beats(pid, tick)]).down <==> Intruded(hs, pid)
  {
    ScheduleHistory(hs);
    var w := Schedule(hs);
    assert (hs + [Beats(pid, tick)])[..|hs|] == hs;
    if Duplicate(w.row, Remembered(w, pid), pid) {
      var r :| LastBeat(hs, r) && hs[r].pid == w.row.value.pid && hs[r].tick == w.row.value.tick;
      var k :| OwnPrevious(hs, pid, k) && hs[k].tick == w.memory[pid];
      assert k < r;
    }
    if Intruded(hs, pid) {
      var k, j :| OwnPrevious(hs, pid, k) && k < j < |hs| && hs[j].Beats? && hs[j].pid != pid;
      var r :| LastBeat(hs, r) && hs[r].pid == w.row.value.pid && hs[r].tick == w.row.value.tick;
      var k' :| OwnPrevious(hs, pid, k') && hs[k'].tick == w.memory[pid];
      assert j <= r && k == k';
    }
  }

  /** The row's status says whether the beat that wrote it was flagged, and a restart lets a
      process enter again. */
  lemma StatusSays(hs: seq<Happening>, pid: nat, tick: int)
    ensures var w := Schedule(hs + [Beats(pid, tick)]);
      w.row.Some? && w.row.value.status == (if pid in w.down then "error" else "ok")
    ensures pid !in Schedule(hs + [Restarts(pid)]).down
    ensures forall q :: q != pid ==>
      && (q in Schedule(hs + [Beats(pid, tick)]).down <==> q in Schedule(hs).down)
      && (q in Schedule(hs + [Restarts(pid)]).down <==> q in Schedule(hs).down)
  {
    assert (hs + [Beats(pid, tick)])[..|hs|] == hs && (hs + [Restarts(pid)])[..|hs|] == hs;
  }

  /** The first beat after a start is never flagged, whoever else is writing. */
  lemma FirstBeatIsFree(hs: seq<Happening>, pid: nat, tick: int)
    requires Clocked(hs) && forall k :: !OwnPrevious(hs, pid, k)
    ensures pid !in Schedule(hs + [Beats(pid, tick)]).down
  {
    FlaggedIff(hs, pid, tick);
  }

  /** A process alone from some point on is free again by its second beat. */
  lemma ResumesBySecondBeat(hs: seq<Happening>, own: seq<Happening>, pid: nat, tick: int)
    requires Clocked(hs + own)
    requires exists k :: 0 <= k < |own| && own[k].Beats? && own[k].pid == pid
    requires forall k :: 0 <= k < |own| ==> own[k].pid == pid
    ensures pid !in Schedule(hs + own + [Beats(pid, tick)]).down
  {
    var all := hs + own;
    FlaggedIff(all, pid, tick);
    var m :| 0 <= m < |own| && own[m].Beats? && own[m].pid == pid;
    assert all[|hs| + m] == own[m];
    assert forall i :: |hs| <= i < |all| ==> all[i] == own[i - |hs|];
  }

  /** While two processes take turns both are flagged from their second beat on. */
  lemma TurnsAreFlagged(hs: seq<Happening>, p: nat, q: nat, t0: int, t1: int, t2: int)
    requires p != q && Clocked(hs + [Beats(p, t0), Beats(q, t1)])
    ensures p in Schedule(hs + [Beats(p, t0), Beats(q, t1)] + [Beats(p, t2)]).down
  {
    var all := hs + [Beats(p, t0), Beats(q, t1)];
    assert all[|hs|] == Beats(p, t0) && all[|hs| + 1] == Beats(q, t1);
    assert OwnPrevious(all, p, |hs|);
    FlaggedIff(all, p, t2);
  }
}
