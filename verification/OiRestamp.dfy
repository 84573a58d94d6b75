/** Moving the open-interest rows from the seam on back by one hour, and the revert
    (data/migrations/2026_09_19_oi_close_of_hour.py). */
module OiRestamp {
  import opened Prelude
  import opened SortedSets

  const HOUR := 3600

  /** 2026-06-10 09:00 UTC */
  const SEAM := 1781082000

  /** A row's columns; any may be null. */
  datatype Oi = Oi(open: Option<real>, high: Option<real>, low: Option<real>, close: Option<real>, values: seq<Option<real>>)

  type Table = map<int, Oi>

  datatype Outcome = NothingToDo | Refused | Crashed | DryRun | Moved(moved: nat, dropped: nat) | Restored

  predicate Flat(r: Oi) { r.open == r.high == r.low == r.close }

  /** A point in time: one value in all four price columns, null or not. */
  lemma FlatIs(r: Oi)
    ensures Flat(r) <==> {r.open, r.high, r.low, r.close} == {r.open}
  {
    assert {r.high, r.low, r.close} <= {r.open, r.high, r.low, r.close};
  }

  function Block(t: Table): set<int> { set x | x in t && x >= SEAM }

  predicate NextTo(s: set<int>, x: int, y: int) { x in s && y in s && x < y && forall z :: z in s ==> z <= x || z >= y }

  /** One hourly run without a hole. */
  ghost predicate Contiguous(s: set<int>) { forall x, y :: NextTo(s, x, y) ==> y - x == HOUR }

  predicate Least(s: set<int>, x: int) { x in s && forall z :: z in s ==> x <= z }

  /** The row before the seam and the first of the block have a close to print. */
  predicate Printable(t: Table) {
    SEAM - HOUR in t && t[SEAM - HOUR].close.Some? && forall x :: x in Block(t) && Least(Block(t), x) ==> t[x].close.Some?
  }

  /** What a restamp moves without complaint. */
  ghost predicate Accepted(t: Table) {
    Block(t) != {} && (forall x :: x in Block(t) ==> Flat(t[x])) && Contiguous(Block(t)) && Printable(t)
  }

  function Before(t: Table, x: int): Table { map y | y in t && y < x :: t[y] }

  function From(t: Table, x: int): Table { map y | y in t && y >= x :: t[y] }

  /** Every block row one hour earlier, unless that stamp is taken below the seam. */
  function Shifted(t: Table): Table {
    var low, moved := Before(t, SEAM), set y | y in Block(t) :: y - HOUR;
    map x | x in low.Keys + moved :: if x in low then low[x] else t[x + HOUR]
  }

  /** The block rows that land on a taken stamp. */
  function Landing(t: Table): set<int> { Landed(Before(t, SEAM).Keys, Block(t)) }

  function Landed(taken: set<int>, s: set<int>): set<int> { set y | y in s && y - HOUR in taken }

  function Reverted(t: Table, backup: Table): Table { Before(t, SEAM - HOUR) + backup }

  // ---- laws ----

  /** At most one row is dropped: two of an hourly run cannot both land below the
      seam. */
  lemma DropsAtMostOne(t: Table)
    requires Contiguous(Block(t))
    ensures |Landing(t)| <= 1
  {
    if Landing(t) != {} {
      NonEmpty(Landing(t));
      var x :| x in Landing(t);
      forall y | y in Landing(t)
        ensures y == x
      {
        if x < y { Spaced(Block(t), x, y); }
        if y < x { Spaced(Block(t), y, x); }
      }
      assert Landing(t) == {x};
    }
  }

  /** Members of an hourly run are at least an hour apart. */
  lemma {:induction false} Spaced(s: set<int>, x: int, y: int)
    requires Contiguous(s) && x in s && y in s && x < y
    ensures y - x >= HOUR
    decreases y - x
  {
    if z :| z in s && x < z < y {
      Spaced(s, x, z);
    } else {
      assert NextTo(s, x, y);
    }
  }

  /** The dropped row is the one at the seam, when stamps sit on the hour. */
  lemma DropIsSeam(t: Table)
    requires SEAM - HOUR in t && forall x :: x in t ==> x % HOUR == 0
    ensures Landing(t) == if SEAM in t then {SEAM} else {}
  {
    forall y | y in Landing(t)
      ensures y == SEAM
    {
      SeamHour(y);
    }
    if SEAM in t { assert SEAM - HOUR in Before(t, SEAM); }
  }

  lemma SeamHour(y: int)
    requires y % HOUR == 0 && SEAM <= y < SEAM + HOUR
    ensures y == SEAM
  {}

  /** Where every value is after the move. */
  lemma ShiftedValues(t: Table, x: int)
    ensures x < SEAM - HOUR ==> (x in Shifted(t) <==> x in t) && (x in t ==> Shifted(t)[x] == t[x])
    ensures SEAM - HOUR <= x < SEAM && x in t ==> x in Shifted(t) && Shifted(t)[x] == t[x]
    ensures x + HOUR in Block(t) && x !in Before(t, SEAM) ==> x in Shifted(t) && Shifted(t)[x] == t[x + HOUR]
    ensures x >= SEAM && x + HOUR !in t ==> x !in Shifted(t)
  {
    if x + HOUR in Block(t) { assert (x + HOUR) - HOUR == x; }
  }

  /** A revert right after a move restores the table exactly. */
  lemma RevertRestores(t: Table)
    ensures Reverted(Shifted(t), From(t, SEAM - HOUR)) == t
  {
    var r := Reverted(Shifted(t), From(t, SEAM - HOUR));
    forall x
      ensures x in r <==> x in t
      ensures x in r && x in t ==> r[x] == t[x]
    {
      ShiftedValues(t, x);
    }
  }

  /** A revert that comes later undoes whatever was written from the hour before the
      seam on, and keeps the rest. */
  lemma RevertAfterWrites(t: Table, later: Table)
    requires Before(later, SEAM - HOUR) == Before(t, SEAM - HOUR)
    ensures Reverted(later, From(t, SEAM - HOUR)) == t
  {}

  /** Nothing stays under the newest stamp. */
  lemma NewestVacated(t: Table, x: int)
    requires x in Block(t) && forall y :: y in Block(t) ==> y <= x
    ensures x !in Shifted(t) && Shifted(t) != t
  {
    ShiftedValues(t, x);
    assert x in t && x + HOUR !in Block(t);
  }

  lemma ShiftedBlock(t: Table, x: int)
    ensures x in Block(Shifted(t)) <==> x >= SEAM && x + HOUR in Block(t)
    ensures x in Block(Shifted(t)) ==> Shifted(t)[x] == t[x + HOUR]
  {
    ShiftedValues(t, x);
  }

  lemma ShiftedBlockAll(t: Table)
    ensures forall x :: x in Block(Shifted(t)) <==> x >= SEAM && x + HOUR in Block(t)
    ensures forall x :: x in Block(Shifted(t)) ==> Shifted(t)[x] == t[x + HOUR]
  {
    forall x
      ensures x in Block(Shifted(t)) <==> x >= SEAM && x + HOUR in Block(t)
      ensures x in Block(Shifted(t)) ==> Shifted(t)[x] == t[x + HOUR]
    {
      ShiftedBlock(t, x);
    }
  }

  lemma StillContiguous(s: set<int>, u: set<int>)
    requires Contiguous(s) && (forall x :: x in s ==> x >= SEAM) && forall x :: x in u <==> x >= SEAM && x + HOUR in s
    ensures Contiguous(u)
  {
    forall x, z | NextTo(u, x, z)
      ensures z - x == HOUR
    {
      forall w | w in s
        ensures w <= x + HOUR || w >= z + HOUR
      {
        if w - HOUR >= SEAM { assert (w - HOUR) + HOUR in s && w - HOUR in u; }
      }
      assert NextTo(s, x + HOUR, z + HOUR);
    }
  }

  /** The block rows that are still in the block after a move. */
  function Later(t: Table): set<int> { set y | y in Block(t) && y >= SEAM + HOUR }

  /** The first of the block after a move has a close to print. */
  predicate PrintableLater(t: Table) { forall y :: y in Later(t) && Least(Later(t), y) ==> t[y].close.Some? }

  lemma LeastMoves(t: Table, x: int)
    requires forall z :: z in Block(Shifted(t)) <==> z >= SEAM && z + HOUR in Block(t)
    ensures x in Block(Shifted(t)) && Least(Block(Shifted(t)), x) <==> x + HOUR in Later(t) && Least(Later(t), x + HOUR)
  {
    var u := Block(Shifted(t));
    if x in u && Least(u, x) {
      forall z | z in Later(t)
        ensures x + HOUR <= z
      {
        assert (z - HOUR) + HOUR in Block(t) && z - HOUR in u;
      }
    }
    if x + HOUR in Later(t) && Least(Later(t), x + HOUR) {
      forall z | z in u
        ensures x <= z
      {
        assert z + HOUR in Later(t);
      }
    }
  }

  lemma PrintableMoves(t: Table)
    requires Printable(t)
    requires forall x :: x in Block(Shifted(t)) <==> x >= SEAM && x + HOUR in Block(t)
    requires forall x :: x in Block(Shifted(t)) ==> Shifted(t)[x] == t[x + HOUR]
    ensures Printable(Shifted(t)) <==> PrintableLater(t)
  {
    ShiftedValues(t, SEAM - HOUR);
    if Printable(Shifted(t)) {
      forall y | y in Later(t) && Least(Later(t), y)
        ensures t[y].close.Some?
      {
        LeastMoves(t, y - HOUR);
        assert (y - HOUR) + HOUR == y;
      }
    }
    if PrintableLater(t) {
      forall x | x in Block(Shifted(t)) && Least(Block(Shifted(t)), x)
        ensures Shifted(t)[x].close.Some?
      {
        LeastMoves(t, x);
      }
    }
  }

  lemma BlockStays(t: Table)
    requires forall x :: x in Block(Shifted(t)) <==> x >= SEAM && x + HOUR in Block(t)
    ensures Block(Shifted(t)) == {} <==> Later(t) == {}
  {
    if Later(t) != {} {
      NonEmpty(Later(t));
      var y :| y in Later(t);
      assert (y - HOUR) + HOUR in Block(t) && y - HOUR in Block(Shifted(t));
    }
    if Block(Shifted(t)) != {} {
      NonEmpty(Block(Shifted(t)));
      var x :| x in Block(Shifted(t));
      assert x + HOUR in Later(t);
    }
  }

  lemma StillFlatAndContiguous(t: Table)
    requires Accepted(t)
    ensures (forall x :: x in Block(Shifted(t)) ==> Flat(Shifted(t)[x])) && Contiguous(Block(Shifted(t)))
  {
    ShiftedBlockAll(t);
    StillContiguous(Block(t), Block(Shifted(t)));
  }

  /** The move is not idempotent: what it leaves is accepted again exactly when some
      block row is still at or after the seam, the first of them with a close. */
  lemma SecondRunIff(t: Table)
    requires Accepted(t)
    ensures Accepted(Shifted(t)) <==> Later(t) != {} && PrintableLater(t)
  {
    StillFlatAndContiguous(t);
    assert (Block(Shifted(t)) == {} <==> Later(t) == {}) && (Printable(Shifted(t)) <==> PrintableLater(t)) by {
      ShiftedBlockAll(t);
      BlockStays(t);
      PrintableMoves(t);
    }
  }

  const POINT := Oi(Some(1.0), Some(1.0), Some(1.0), Some(1.0), [])

  /** Three hours around the seam. */
  const THREE_HOURS: Table := map[SEAM - HOUR := POINT, SEAM := POINT, SEAM + HOUR := POINT]

  /** A concrete table that is accepted, and accepted again after its move. */
  lemma AcceptedTwice()
    ensures Accepted(THREE_HOURS) && Accepted(Shifted(THREE_HOURS))
  {
    assert Block(THREE_HOURS) == {SEAM, SEAM + HOUR};
    assert SEAM + HOUR in Later(THREE_HOURS);
    SecondRunIff(THREE_HOURS);
  }

  /** ... and its backup replaces the first, so a revert then stops one move short. */
  lemma RevertAfterTwo(t: Table, newest: int)
    requires newest in Block(t) && forall y :: y in Block(t) ==> y <= newest
    ensures Reverted(Shifted(Shifted(t)), From(Shifted(t), SEAM - HOUR)) == Shifted(t) != t
  {
    RevertRestores(Shifted(t));
    NewestVacated(t, newest);
  }

  // ---- the script ----

  lemma LandingSubset(t: Table)
    ensures |Landing(t)| <= |Block(t)|
  {
    assert Block(t) == Landing(t) + (Block(t) - Landing(t));
  }

  /** What is wrong with a block that has rows. */
  ghost function Complaint(t: Table): Option<Outcome> {
    if (exists x :: x in Block(t) && !Flat(t[x])) || !Contiguous(Block(t)) then Some(Refused)
    else if !Printable(t) then Some(Crashed)
    else None
  }

  /** What a run answers. */
  ghost function Answer(t: Table, live: bool, allowLive: bool, dryRun: bool): Outcome {
    if live && !allowLive && !dryRun then Refused
    else if Block(t) == {} then NothingToDo
    else if Complaint(t).Some? then Complaint(t).value
    else if dryRun then DryRun
    else
      LandingSubset(t);
      Moved(|Block(t)| - |Landing(t)|, |Landing(t)|)
  }

  /** The rows of ts inserted an hour earlier, taken stamps ignored. */
  function Inserted(t: Table, base: Table, ts: seq<int>): Table
    requires forall i :: 0 <= i < |ts| ==> ts[i] in t
  {
    if ts == [] then base
    else
      var y, m := ts[|ts| - 1], Inserted(t, base, ts[..|ts| - 1]);
      if y - HOUR in m then m else m[y - HOUR := t[y]]
  }

  function Ignored(t: Table, base: Table, ts: seq<int>): nat
    requires forall i :: 0 <= i < |ts| ==> ts[i] in t
  {
    if ts == [] then 0
    else Ignored(t, base, ts[..|ts| - 1]) + if ts[|ts| - 1] - HOUR in Inserted(t, base, ts[..|ts| - 1]) then 1 else 0
  }

  /** Where each value is after the inserts. */
  lemma {:induction false} InsertedExactly(t: Table, base: Table, ts: seq<int>, x: int)
    requires Increasing(ts) && forall i :: 0 <= i < |ts| ==> ts[i] in t
    ensures x in Inserted(t, base, ts) <==> x in base || x + HOUR in ts
    ensures x in base ==> Inserted(t, base, ts)[x] == base[x]
    ensures x !in base && x + HOUR in ts ==> Inserted(t, base, ts)[x] == t[x + HOUR]
  {
    if ts != [] {
      var init, y := ts[..|ts| - 1], ts[|ts| - 1];
      InsertedExactly(t, base, init, x);
      InsertedExactly(t, base, init, y - HOUR);
      assert x + HOUR in ts <==> x + HOUR in init || x + HOUR == y by { assert ts == init + [y]; }
    }
  }

  lemma NotAmongEarlier(ts: seq<int>)
    requires Increasing(ts) && ts != []
    ensures ts[|ts| - 1] !in ts[..|ts| - 1]
  {}

  function Hits(taken: set<int>, ts: seq<int>): nat {
    if ts == [] then 0 else Hits(taken, ts[..|ts| - 1]) + if ts[|ts| - 1] - HOUR in taken then 1 else 0
  }

  lemma {:induction false} IgnoredIsHits(t: Table, base: Table, ts: seq<int>)
    requires Increasing(ts) && forall i :: 0 <= i < |ts| ==> ts[i] in t
    ensures Ignored(t, base, ts) == Hits(base.Keys, ts)
  {
    if ts != [] {
      var init, y := ts[..|ts| - 1], ts[|ts| - 1];
      IgnoredIsHits(t, base, init);
      NotAmongEarlier(ts);
      InsertedExactly(t, base, init, y - HOUR);
    }
  }

  lemma {:induction false} HitsCount(taken: set<int>, ts: seq<int>, s: set<int>)
    requires Increasing(ts) && forall x :: x in ts <==> x in s
    ensures Hits(taken, ts) == |Landed(taken, s)| && |ts| == |s|
  {
    if ts == [] {
      EmptyWithoutMembers(s);
      EmptyWithoutMembers(Landed(taken, s));
    } else {
      var init, y := ts[..|ts| - 1], ts[|ts| - 1];
      DropLast(ts, s);
      HitsCount(taken, init, s - {y});
      LandedLast(taken, s, y);
    }
  }

  lemma LandedLast(taken: set<int>, s: set<int>, y: int)
    requires y in s
    ensures |Landed(taken, s)| == |Landed(taken, s - {y})| + (if y - HOUR in taken then 1 else 0)
  {
    assert Landed(taken, s) == Landed(taken, s - {y}) + (if y - HOUR in taken then {y} else {});
  }

  lemma DropLast(ts: seq<int>, s: set<int>)
    requires ts != [] && Increasing(ts) && forall x :: x in ts <==> x in s
    ensures ts[|ts| - 1] in s
    ensures var init, rest := ts[..|ts| - 1], s - {ts[|ts| - 1]}; forall x :: x in init <==> x in rest
  {
    NotAmongEarlier(ts);
    assert ts[|ts| - 1] in ts;
    assert ts == ts[..|ts| - 1] + [ts[|ts| - 1]];
  }

  lemma InsertedIsShifted(t: Table, ts: seq<int>)
    requires Increasing(ts) && forall x :: x in ts <==> x in Block(t)
    requires forall i :: 0 <= i < |ts| ==> ts[i] in t
    ensures Inserted(t, Before(t, SEAM), ts) == Shifted(t)
  {
    forall x
      ensures x in Inserted(t, Before(t, SEAM), ts) <==> x in Shifted(t)
      ensures x in Shifted(t) ==> Inserted(t, Before(t, SEAM), ts)[x] == Shifted(t)[x]
    {
      InsertedExactly(t, Before(t, SEAM), ts, x);
      ShiftedValues(t, x);
    }
  }

  lemma IgnoredIsLanding(t: Table, ts: seq<int>)
    requires Increasing(ts) && forall x :: x in ts <==> x in Block(t)
    requires forall i :: 0 <= i < |ts| ==> ts[i] in t
    ensures Ignored(t, Before(t, SEAM), ts) == |Landing(t)| && |ts| == |Block(t)|
  {
    IgnoredIsHits(t, Before(t, SEAM), ts);
    HitsCount(Before(t, SEAM).Keys, ts, Block(t));
  }

  lemma ConsecutiveHours(ts: seq<int>, s: set<int>)
    requires Increasing(ts) && forall x :: x in ts <==> x in s
    ensures Contiguous(s) <==> forall i :: 0 <= i < |ts| - 1 ==> ts[i + 1] - ts[i] == HOUR
  {
    forall i | 0 <= i < |ts| - 1
      ensures NextTo(s, ts[i], ts[i + 1])
    {
      forall z | z in s
        ensures z <= ts[i] || z >= ts[i + 1]
      {
        var k :| 0 <= k < |ts| && ts[k] == z;
      }
    }
    forall x, y | NextTo(s, x, y)
      ensures exists i :: 0 <= i < |ts| - 1 && ts[i] == x && ts[i + 1] == y
    {
      var i :| 0 <= i < |ts| && ts[i] == x;
      var j :| 0 <= j < |ts| && ts[j] == y;
      assert i < j;
      assert ts[i + 1] in s;
    }
  }

  class Store {
    var table: Table
    var backup: Option<Table>

    constructor (table: Table)
      ensures this.table == table && backup == None
    {
      this.table, backup := table, None;
    }

    method Restamp(live: bool, allowLive: bool, dryRun: bool) returns (r: Outcome)
      modifies this
      ensures r == Answer(old(table), live, allowLive, dryRun)
      ensures r.Moved? ==> table == Shifted(old(table)) && backup == Some(From(old(table), SEAM - HOUR))
      ensures !r.Moved? ==> table == old(table) && backup == old(backup)
    {
      if live && !allowLive && !dryRun { return Refused; }
      var ts := BlockStamps();
      if ts == [] { return NothingToDo; }
      var complaint := Inspect(ts);
      if complaint.Some? { return complaint.value; }
      if dryRun { return DryRun; }
      var moved, dropped := Move(ts);
      r := Moved(moved, dropped);
    }

    method BlockStamps() returns (ts: seq<int>)
      ensures Increasing(ts) && forall x :: x in ts <==> x in Block(table)
      ensures ts == [] <==> Block(table) == {}
    {
      ts := Listed(Block(table));
      EmptyWithoutMembers(Block(table));
      if ts != [] { assert ts[0] in ts; }
    }

    /** The checks on the block, in the script's order. */
    method Inspect(ts: seq<int>) returns (complaint: Option<Outcome>)
      requires ts != [] && Increasing(ts) && forall x :: x in ts <==> x in Block(table)
      ensures complaint == Complaint(table)
    {
      assert forall i :: 0 <= i < |ts| ==> ts[i] in ts;
      ConsecutiveHours(ts, Block(table));
      if exists i :: 0 <= i < |ts| && !Flat(table[ts[i]]) { return Some(Refused); }
      forall x | x in Block(table)
        ensures Flat(table[x])
      {
        assert x in ts;
      }
      if exists i :: 0 <= i < |ts| - 1 && ts[i + 1] - ts[i] != HOUR { return Some(Refused); }
      FirstIsLeast(ts, Block(table));
      if SEAM - HOUR !in table || table[SEAM - HOUR].close.None? || table[ts[0]].close.None? { return Some(Crashed); }
      return None;
    }

    /** The transaction: back up, delete the block, insert it an hour earlier. */
    method Move(ts: seq<int>) returns (moved: nat, dropped: nat)
      requires Increasing(ts) && forall x :: x in ts <==> x in Block(table)
      modifies this
      ensures table == Shifted(old(table)) && backup == Some(From(old(table), SEAM - HOUR))
      ensures dropped == |Landing(old(table))| && moved + dropped == |Block(old(table))|
    {
      var rows := table;
      assert forall i :: 0 <= i < |ts| ==> ts[i] in ts;
      backup := Some(From(table, SEAM - HOUR));
      table := Before(table, SEAM);
      moved, dropped := InsertEarlier(rows, ts);
      InsertedIsShifted(rows, ts);
      IgnoredIsLanding(rows, ts);
    }

    /** INSERT OR IGNORE each row an hour earlier, counting. */
    method InsertEarlier(rows: Table, ts: seq<int>) returns (moved: nat, dropped: nat)
      requires forall i :: 0 <= i < |ts| ==> ts[i] in rows
      modifies this`table
      ensures table == Inserted(rows, old(table), ts)
      ensures dropped == Ignored(rows, old(table), ts) && moved + dropped == |ts|
    {
      moved, dropped := 0, 0;
      for i := 0 to |ts|
        invariant table == Inserted(rows, old(table), ts[..i])
        invariant moved + dropped == i && dropped == Ignored(rows, old(table), ts[..i])
      {
        assert ts[..i + 1][..i] == ts[..i];
        if ts[i] - HOUR !in table {
          table := table[ts[i] - HOUR := rows[ts[i]]];
          moved := moved + 1;
        } else {
          dropped := dropped + 1;
        }
      }
      assert ts[..|ts|] == ts;
    }

    method Revert(live: bool, allowLive: bool, dryRun: bool) returns (r: Outcome)
      modifies this
      ensures backup == old(backup)
      ensures r == Restored <==> !(live && !allowLive && !dryRun) && backup.Some? && !dryRun
      ensures r == Restored ==> table == Reverted(old(table), backup.value)
      ensures r != Restored ==> table == old(table)
    {
      if live && !allowLive && !dryRun { return Refused; }
      if backup.None? { return Crashed; }
      if dryRun { return DryRun; }
      table := Before(table, SEAM - HOUR);
      table := table + backup.value;
      r := Restored;
    }
  }

  lemma FirstIsLeast(ts: seq<int>, s: set<int>)
    requires ts != [] && Increasing(ts) && forall x :: x in ts <==> x in s
    ensures forall x :: Least(s, x) <==> x == ts[0]
  {
    assert ts[0] in ts;
    forall z | z in s
      ensures ts[0] <= z
    {
      var k :| 0 <= k < |ts| && ts[k] == z;
    }
  }
}
