/** Whole runs of the ledger: any sequence of opens, resizes, leverage changes,
    flips and closes, by any callers, each in its own write transaction. */
module LedgerRuns {
  import opened Prelude
  import opened TradeLedger
  import opened LedgerLaws

  datatype Op =
    | OpOpen(a: OpenArgs)
    | OpScale(id: nat, newQty: real, price: real, fee: real, at: Stamp)
    | OpLeverage(id: nat, newLeverage: real, price: real, fee: real, at: Stamp)
    | OpFlip(id: nat, direction: Direction, price: real, fee: real, at: Stamp)
    | OpClosePerp(id: nat, perp: PerpCloseArgs)
    | OpCloseCarry(id: nat, carry: CarryCloseArgs)

  ghost function Step(db: Db, op: Op): Db {
    match op
    case OpOpen(a) => OpenTrade(db, a).0
    case OpScale(id, q, p, f, at) => Scale(db, id, q, p, f, at).0
    case OpLeverage(id, l, p, f, at) => AdjustLeverage(db, id, l, p, f, at).0
    case OpFlip(id, d, p, f, at) => Flip(db, id, d, p, f, at).0
    case OpClosePerp(id, p) => ClosePerp(db, id, p).0
    case OpCloseCarry(id, c) => CloseCarry(db, id, c).0
  }

  ghost function Run(db: Db, ops: seq<Op>): Db {
    if ops == [] then db else Step(Run(db, ops[..|ops| - 1]), ops[|ops| - 1])
  }

  /** The imbalance one operation adds to trade id. */
  function Leak(db: Db, op: Op, id: nat): real {
    if !IsOpen(db, id) then 0.0
    else
      var t := db.trades[id];
      match op
      case OpOpen(_) => 0.0
      case OpScale(i, q, p, f, at) => if i == id && Scale(db, i, q, p, f, at).1 then ScaleLeak(t, q, p, f) else 0.0
      case OpLeverage(_, _, _, _, _) => 0.0
      case OpFlip(i, d, p, _, _) => if i == id && Flips(db, id, d) then FlipLeak(t, p) else 0.0
      case OpClosePerp(i, p) => if i == id && ClosePerp(db, i, p).1.Closed? then FundingOf(t, p) else 0.0
      case OpCloseCarry(i, c) => if i == id then CarryLeak(t, c) else 0.0
  }

  lemma StepAgrees(db: Db, op: Op)
    requires Agrees(db)
    ensures Agrees(Step(db, op))
  {
    match op
    case OpOpen(a) => OpenLaw(db, a);
    case OpScale(id, q, p, f, at) => ScaleLaw(db, id, q, p, f, at);
    case OpLeverage(id, l, p, f, at) => LeverageLaw(db, id, l, p, f, at);
    case OpFlip(id, d, p, f, at) =>
      FlipLaw(db, id, d, p, f, at);
      if Flips(db, id, d) { FlipRows(db, id, d, p, f, at); }
    case OpClosePerp(id, p) => ClosePerpLaw(db, id, p);
    case OpCloseCarry(id, c) => CloseCarryLaw(db, id, c);
  }

  /** In every reachable state each row agrees with its events. */
  lemma {:induction false} RunAgrees(db: Db, ops: seq<Op>)
    requires Agrees(db)
    ensures Agrees(Run(db, ops))
  {
    if ops != [] {
      RunAgrees(db, ops[..|ops| - 1]);
      StepAgrees(Run(db, ops[..|ops| - 1]), ops[|ops| - 1]);
    }
  }

  // ---- identity: ids, keys and history only grow ----

  predicate SameIdentity(t: Trade, t': Trade) {
    && t'.key == t.key && t'.variant == t.variant && t'.strategy == t.strategy && t'.asset == t.asset
    && t'.direction == t.direction && t'.entryTime == t.entryTime && t'.entryPrice == t.entryPrice
    && t'.qty == t.qty && t'.size == t.size && t'.parent == t.parent
  }

  /** No row or event is lost or rewritten, a closed trade is final, and every
      new id is above every old one. */
  ghost predicate Extends(db: Db, db': Db) {
    && (forall i :: i in db.trades ==> i in db'.trades && SameIdentity(db.trades[i], db'.trades[i]))
    && (forall i :: i in db.events ==> i in db'.events && db.events[i] <= db'.events[i])
    && (forall i :: i in db.trades && !db.trades[i].open ==> i in db'.trades && db'.trades[i] == db.trades[i])
    && (forall i :: i in db.trades && !db.trades[i].open ==> EventsOf(db', i) == EventsOf(db, i))
    && (forall i, j :: i in db.trades && j in db'.trades && j !in db.trades ==> i < j)
  }

  lemma ExtendsTrans(a: Db, b: Db, c: Db)
    requires Extends(a, b) && Extends(b, c)
    ensures Extends(a, c)
  {
    forall i | i in a.events
      ensures i in c.events && a.events[i] <= c.events[i]
    {
      assert b.events[i] <= c.events[i];
    }
    forall i, j | i in a.trades && j in c.trades && j !in a.trades
      ensures i < j
    {
      if j in b.trades { assert i < j; } else { assert i in b.trades; }
    }
  }

  lemma AppendedExtends(db: Db, id: nat, t: Trade, e: Event)
    requires db.trades.Keys == db.events.Keys && IsOpen(db, id) && SameIdentity(db.trades[id], t)
    ensures Extends(db, Appended(db, id, t, e))
  {
  }

  lemma InsertedExtends(db: Db, t: Trade, e: Event)
    requires db.trades.Keys == db.events.Keys
    ensures var n := NextId(db.trades); Extends(db, Db(db.trades[n := t], db.events[n := [e]]))
  {
  }

  lemma ScaleAppends(db: Db, id: nat, newQty: real, price: real, fee: real, at: Stamp) returns (done: bool)
    ensures done ==> IsOpen(db, id)
                     && Step(db, OpScale(id, newQty, price, fee, at))
                        == Appended(db, id, ScaledTrade(db.trades[id], newQty, price, fee), ScaleEventOf(db.trades[id], newQty, price, fee, at))
    ensures !done ==> Step(db, OpScale(id, newQty, price, fee, at)) == db
  {
    done := Scale(db, id, newQty, price, fee, at).1;
  }

  lemma ScaleExtends(db: Db, id: nat, newQty: real, price: real, fee: real, at: Stamp)
    requires db.trades.Keys == db.events.Keys
    ensures Extends(db, Step(db, OpScale(id, newQty, price, fee, at)))
  {
    var done := ScaleAppends(db, id, newQty, price, fee, at);
    if done {
      AppendedExtends(db, id, ScaledTrade(db.trades[id], newQty, price, fee), ScaleEventOf(db.trades[id], newQty, price, fee, at));
    } else {
      ExtendsSelf(db);
    }
  }

  lemma LeverageAppends(db: Db, id: nat, leverage: real, price: real, fee: real, at: Stamp) returns (done: bool)
    ensures done ==> IsOpen(db, id)
                     && Step(db, OpLeverage(id, leverage, price, fee, at))
                        == Appended(db, id, ReleveredTrade(db.trades[id], leverage, price), LeverageEventOf(db.trades[id], leverage, price, fee, at))
    ensures !done ==> Step(db, OpLeverage(id, leverage, price, fee, at)) == db
  {
    done := AdjustLeverage(db, id, leverage, price, fee, at).1;
  }

  lemma LeverageExtends(db: Db, id: nat, leverage: real, price: real, fee: real, at: Stamp)
    requires db.trades.Keys == db.events.Keys
    ensures Extends(db, Step(db, OpLeverage(id, leverage, price, fee, at)))
  {
    var done := LeverageAppends(db, id, leverage, price, fee, at);
    if done {
      AppendedExtends(db, id, ReleveredTrade(db.trades[id], leverage, price), LeverageEventOf(db.trades[id], leverage, price, fee, at));
    } else {
      ExtendsSelf(db);
    }
  }

  lemma OpenExtends(db: Db, a: OpenArgs)
    requires Agrees(db)
    ensures Extends(db, Step(db, OpOpen(a)))
  {
    OpenLaw(db, a);
    InsertedExtends(db, OpenedTrade(a), OpenedEvent(a));
  }

  lemma ClosePerpExtends(db: Db, id: nat, p: PerpCloseArgs)
    requires Agrees(db)
    ensures Extends(db, Step(db, OpClosePerp(id, p)))
  {
    var closed, c := PerpCloses(db, id, p);
    if closed { CloseExtends(db, id, c); } else { ExtendsSelf(db); }
  }

  /** A perp close is a plain close of some booking, or nothing. */
  lemma PerpCloses(db: Db, id: nat, p: PerpCloseArgs) returns (closed: bool, c: CloseArgs)
    ensures closed ==> IsOpen(db, id) && Step(db, OpClosePerp(id, p)) == PersistClose(db, id, c).0
    ensures !closed ==> Step(db, OpClosePerp(id, p)) == db
  {
    closed, c := ClosePerp(db, id, p).1.Closed?, CloseArgs(0.0, 0, 0.0, 0.0, 0.0);
    if closed { c := PerpCloseBooking(PerpComponents(db.trades[id], p).value, p); }
  }

  lemma CarryCloses(db: Db, id: nat, k: CarryCloseArgs) returns (closed: bool, c: CloseArgs)
    ensures closed ==> IsOpen(db, id) && Step(db, OpCloseCarry(id, k)) == PersistClose(db, id, c).0
    ensures !closed ==> Step(db, OpCloseCarry(id, k)) == db
  {
    closed, c := IsOpen(db, id), CloseArgs(0.0, 0, 0.0, 0.0, 0.0);
    if closed { c := CarryBooking(db.trades[id].size, k); }
  }

  lemma ExtendsSelf(db: Db)
    ensures Extends(db, db)
  {
  }

  lemma CloseCarryExtends(db: Db, id: nat, c: CarryCloseArgs)
    requires Agrees(db)
    ensures Extends(db, Step(db, OpCloseCarry(id, c)))
  {
    var closed, b := CarryCloses(db, id, c);
    if closed { CloseExtends(db, id, b); } else { ExtendsSelf(db); }
  }

  lemma StepExtends(db: Db, op: Op)
    requires Agrees(db)
    ensures Extends(db, Step(db, op))
  {
    match op
    case OpOpen(a) => OpenExtends(db, a);
    case OpScale(id, q, p, f, at) => ScaleExtends(db, id, q, p, f, at);
    case OpLeverage(id, l, p, f, at) => LeverageExtends(db, id, l, p, f, at);
    case OpFlip(id, d, p, f, at) => FlipExtends(db, id, d, p, f, at);
    case OpClosePerp(id, p) => ClosePerpExtends(db, id, p);
    case OpCloseCarry(id, c) => CloseCarryExtends(db, id, c);
  }

  lemma CloseExtends(db: Db, id: nat, c: CloseArgs)
    requires Agrees(db) && IsOpen(db, id)
    ensures Extends(db, PersistClose(db, id, c).0)
  {
    PersistCloseLaw(db, id, c);
    AppendedExtends(db, id, ClosedTrade(db.trades[id], c), CloseEventOf(SnapshotOf(db.trades[id]), c));
  }

  /** A row inserted under the next id with one event. */
  ghost function InsertedRow(db: Db, t: Trade, e: Event): Db {
    Db(db.trades[NextId(db.trades) := t], db.events[NextId(db.trades) := [e]])
  }

  /** A flip closes one leg and inserts the other, or does nothing. */
  lemma FlipShape(db: Db, id: nat, d: Direction, price: real, fee: real, at: Stamp) returns (done: bool, leg: Db)
    requires Agrees(db)
    ensures done ==> IsOpen(db, id)
                     && leg == Appended(db, id, FlippedTrade(db.trades[id], price, fee, at.time), FlipEventOf(db.trades[id], price, fee, at))
                     && NextId(leg.trades) == NextId(db.trades)
                     && Flip(db, id, d, price, fee, at).0 == InsertedRow(leg, ReopenedTrade(db.trades[id], id, d, price, at.time),
                                                                         ReopenEvent(db.trades[id], id, d, price, fee, at))
    ensures !done ==> Flip(db, id, d, price, fee, at).0 == db
  {
    done, leg := Flips(db, id, d), db;
    FlipLaw(db, id, d, price, fee, at);
    if done {
      FlipLegLaw(db, id, price, fee, at);
      leg := FlipLeg(db, id, price, fee, at);
      ReopenLaw(leg, db.trades[id], id, d, price, fee, at);
    }
  }

  function ReopenEvent(t: Trade, id: nat, d: Direction, price: real, fee: real, at: Stamp): Event {
    OpenEventOf(ReopenedTrade(t, id, d, price, at.time), at.time, StampDate(at), fee / 2.0)
  }

  lemma LegsExtend(db: Db, id: nat, t: Trade, e: Event, t2: Trade, e2: Event)
    requires db.trades.Keys == db.events.Keys && IsOpen(db, id) && SameIdentity(db.trades[id], t)
    ensures Extends(db, InsertedRow(Appended(db, id, t, e), t2, e2))
  {
    var leg := Appended(db, id, t, e);
    AppendedExtends(db, id, t, e);
    InsertedExtends(leg, t2, e2);
    ExtendsTrans(db, leg, InsertedRow(leg, t2, e2));
  }

  lemma FlipExtends(db: Db, id: nat, d: Direction, price: real, fee: real, at: Stamp)
    requires Agrees(db)
    ensures Extends(db, Flip(db, id, d, price, fee, at).0)
  {
    var done, leg := FlipShape(db, id, d, price, fee, at);
    if done {
      var t := db.trades[id];
      LegsExtend(db, id, FlippedTrade(t, price, fee, at.time), FlipEventOf(t, price, fee, at),
                 ReopenedTrade(t, id, d, price, at.time), ReopenEvent(t, id, d, price, fee, at));
    } else {
      ExtendsSelf(db);
    }
  }

  lemma {:induction false} RunExtends(db: Db, ops: seq<Op>)
    requires Agrees(db)
    ensures Extends(db, Run(db, ops))
  {
    if ops != [] {
      var before := Run(db, ops[..|ops| - 1]);
      RunExtends(db, ops[..|ops| - 1]);
      RunAgrees(db, ops[..|ops| - 1]);
      StepExtends(before, ops[|ops| - 1]);
      ExtendsTrans(db, before, Run(db, ops));
    }
  }

  /** Whatever happens in between, a second open with the same key returns the
      first one's id and writes nothing. */
  lemma OpenIsIdempotent(db: Db, a: OpenArgs, ops: seq<Op>, b: OpenArgs)
    requires Agrees(db) && KeyOf(a) == KeyOf(b)
    ensures var (opened', id) := OpenTrade(db, a);
            var later := Run(opened', ops);
      OpenTrade(later, b) == (later, id) && later.trades[id].key == Some(KeyOf(a))
  {
    var (opened', id) := OpenTrade(db, a);
    var later := Run(opened', ops);
    OpenLaw(db, a);
    assert id in opened'.trades && opened'.trades[id].key == Some(KeyOf(a));
    RunExtends(opened', ops);
    RunAgrees(opened', ops);
    assert SameIdentity(opened'.trades[id], later.trades[id]);
    assert KeyTaken(later, KeyOf(b));
  }

  /** Two successful flips or opens never share an id, and ids follow time. */
  lemma NewIdsIncrease(db: Db, ops: seq<Op>, a: OpenArgs)
    requires Agrees(db)
    requires !KeyTaken(Run(db, ops), KeyOf(a))
    ensures forall i :: i in Run(db, ops).trades ==> i < OpenTrade(Run(db, ops), a).1
    ensures forall i :: i in db.trades ==> i < OpenTrade(Run(db, ops), a).1
  {
    RunAgrees(db, ops);
    RunExtends(db, ops);
    OpenLaw(Run(db, ops), a);
  }

  // ---- the P&L of a run is its cash flow ----

  function Target(op: Op): Option<nat> {
    match op
    case OpOpen(_) => None
    case OpScale(i, _, _, _, _) => Some(i)
    case OpLeverage(i, _, _, _, _) => Some(i)
    case OpFlip(i, _, _, _, _) => Some(i)
    case OpClosePerp(i, _) => Some(i)
    case OpCloseCarry(i, _) => Some(i)
  }

  /** Row and ledger of a trade are as they were. */
  ghost predicate Untouched(db: Db, db': Db, id: nat)
    requires id in db.trades
  {
    id in db'.trades && db'.trades[id] == db.trades[id] && EventsOf(db', id) == EventsOf(db, id)
  }

  lemma OthersInAppended(db: Db, i: nat, t: Trade, e: Event, id: nat)
    requires id in db.trades && id != i
    ensures Untouched(db, Appended(db, i, t, e), id)
  {
  }

  lemma OthersInInserted(db: Db, t: Trade, e: Event, id: nat)
    requires id in db.trades
    ensures Untouched(db, Db(db.trades[NextId(db.trades) := t], db.events[NextId(db.trades) := [e]]), id)
  {
  }

  lemma OpenLeavesOthers(db: Db, a: OpenArgs, id: nat)
    requires Agrees(db) && id in db.trades
    ensures Untouched(db, Step(db, OpOpen(a)), id)
  {
    OpenLaw(db, a);
    OthersInInserted(db, OpenedTrade(a), OpenedEvent(a), id);
  }

  lemma ScaleLeavesOthers(db: Db, i: nat, newQty: real, price: real, fee: real, at: Stamp, id: nat)
    requires id in db.trades && i != id
    ensures Untouched(db, Step(db, OpScale(i, newQty, price, fee, at)), id)
  {
  }

  lemma LeverageLeavesOthers(db: Db, i: nat, leverage: real, price: real, fee: real, at: Stamp, id: nat)
    requires id in db.trades && i != id
    ensures Untouched(db, Step(db, OpLeverage(i, leverage, price, fee, at)), id)
  {
  }

  lemma FlipLeavesOthers(db: Db, i: nat, d: Direction, price: real, fee: real, at: Stamp, id: nat)
    requires Agrees(db) && id in db.trades && id != i
    ensures Untouched(db, Flip(db, i, d, price, fee, at).0, id)
  {
    var done, leg := FlipShape(db, i, d, price, fee, at);
    if done {
      var t := db.trades[i];
      OthersInAppended(db, i, FlippedTrade(t, price, fee, at.time), FlipEventOf(t, price, fee, at), id);
      OthersInInserted(leg, ReopenedTrade(t, i, d, price, at.time), ReopenEvent(t, i, d, price, fee, at), id);
    }
  }

  lemma CloseLeavesOthers(db: Db, i: nat, c: CloseArgs, id: nat)
    requires id in db.trades && i != id
    ensures Untouched(db, PersistClose(db, i, c).0, id)
  {
  }

  lemma PerpLeavesOthers(db: Db, i: nat, p: PerpCloseArgs, id: nat)
    requires id in db.trades && i != id
    ensures Untouched(db, Step(db, OpClosePerp(i, p)), id)
  {
    if ClosePerp(db, i, p).1.Closed? {
      CloseLeavesOthers(db, i, PerpCloseBooking(PerpComponents(db.trades[i], p).value, p), id);
    }
  }

  lemma CarryLeavesOthers(db: Db, i: nat, c: CarryCloseArgs, id: nat)
    requires id in db.trades && i != id
    ensures Untouched(db, Step(db, OpCloseCarry(i, c)), id)
  {
    if i in db.trades { CloseLeavesOthers(db, i, CarryBooking(db.trades[i].size, c), id); }
  }

  /** An operation leaves every other trade and its events alone. */
  lemma StepLeavesOthers(db: Db, op: Op, id: nat)
    requires Agrees(db) && id in db.trades && Target(op) != Some(id)
    ensures Untouched(db, Step(db, op), id)
  {
    match op
    case OpOpen(a) => OpenLeavesOthers(db, a, id);
    case OpScale(i, q, p, f, at) => ScaleLeavesOthers(db, i, q, p, f, at, id);
    case OpLeverage(i, l, p, f, at) => LeverageLeavesOthers(db, i, l, p, f, at, id);
    case OpFlip(i, d, p, f, at) => FlipLeavesOthers(db, i, d, p, f, at, id);
    case OpClosePerp(i, p) => PerpLeavesOthers(db, i, p, id);
    case OpCloseCarry(i, c) => CarryLeavesOthers(db, i, c, id);
  }

  lemma FlipNewRowBalanced(db: Db, i: nat, d: Direction, price: real, fee: real, at: Stamp, id: nat)
    requires Agrees(db) && id !in db.trades
    ensures ImbalanceOf(Flip(db, i, d, price, fee, at).0, id) == 0.0
  {
    FlipLaw(db, i, d, price, fee, at);
    if Flips(db, i, d) {
      var leg := FlipLeg(db, i, price, fee, at);
      FlipLegLaw(db, i, price, fee, at);
      ReopenLaw(leg, db.trades[i], i, d, price, fee, at);
      if id != NextId(leg.trades) {
        assert id !in Flip(db, i, d, price, fee, at).0.trades;
      }
    }
  }

  /** A new row starts balanced. */
  lemma NewRowBalanced(db: Db, op: Op, id: nat)
    requires Agrees(db) && id !in db.trades
    ensures ImbalanceOf(Step(db, op), id) == 0.0
  {
    match op
    case OpOpen(a) => OpenLaw(db, a);
    case OpScale(i, q, p, f, at) =>
    case OpLeverage(i, l, p, f, at) =>
    case OpFlip(i, d, p, f, at) => FlipNewRowBalanced(db, i, d, p, f, at, id);
    case OpClosePerp(i, p) =>
    case OpCloseCarry(i, c) =>
  }

  lemma FlipMovesImbalance(db: Db, id: nat, d: Direction, price: real, fee: real, at: Stamp)
    requires Agrees(db) && Flips(db, id, d)
    ensures ImbalanceOf(Flip(db, id, d, price, fee, at).0, id) == ImbalanceOf(db, id) + FlipLeak(db.trades[id], price)
  {
    FlipLaw(db, id, d, price, fee, at);
    var leg := FlipLeg(db, id, price, fee, at);
    FlipLegLaw(db, id, price, fee, at);
    ReopenLaw(leg, db.trades[id], id, d, price, fee, at);
    assert ImbalanceOf(Flip(db, id, d, price, fee, at).0, id) == ImbalanceOf(leg, id);
  }

  lemma StepMovesImbalance(db: Db, op: Op, id: nat)
    requires Agrees(db)
    ensures ImbalanceOf(Step(db, op), id) == ImbalanceOf(db, id) + Leak(db, op, id)
  {
    if id !in db.trades {
      NewRowBalanced(db, op, id);
    } else if Target(op) != Some(id) {
      StepLeavesOthers(db, op, id);
    } else {
      match op
      case OpOpen(_) =>
      case OpScale(_, q, p, f, at) => ScaleLaw(db, id, q, p, f, at);
      case OpLeverage(_, l, p, f, at) => LeverageLaw(db, id, l, p, f, at);
      case OpFlip(_, d, p, f, at) =>
        FlipLaw(db, id, d, p, f, at);
        if Flips(db, id, d) { FlipMovesImbalance(db, id, d, p, f, at); }
      case OpClosePerp(_, p) => ClosePerpLaw(db, id, p);
      case OpCloseCarry(_, c) => CloseCarryLaw(db, id, c);
    }
  }

  ghost function LeakSum(db: Db, ops: seq<Op>, id: nat): real {
    if ops == [] then 0.0
    else LeakSum(db, ops[..|ops| - 1], id) + Leak(Run(db, ops[..|ops| - 1]), ops[|ops| - 1], id)
  }

  /** The exact accounting identity of every run: what separates realized P&L
      from the cash of the fills is the sum of the operations' leaks. */
  lemma {:induction false} RunMovesImbalance(db: Db, ops: seq<Op>, id: nat)
    requires Agrees(db)
    ensures ImbalanceOf(Run(db, ops), id) == ImbalanceOf(db, id) + LeakSum(db, ops, id)
  {
    if ops != [] {
      RunMovesImbalance(db, ops[..|ops| - 1], id);
      RunAgrees(db, ops[..|ops| - 1]);
      StepMovesImbalance(Run(db, ops[..|ops| - 1]), ops[|ops| - 1], id);
    }
  }

  lemma ClosePerpAppends(db: Db, id: nat, p: PerpCloseArgs)
    requires Agrees(db) && ClosePerp(db, id, p).1.Closed?
    ensures exists c: CloseArgs :: c.time == p.at && EventsOf(ClosePerp(db, id, p).0, id) == EventsOf(db, id) + [CloseEventOf(SnapshotOf(db.trades[id]), c)]
  {
    ClosePerpLaw(db, id, p);
    var c := PerpCloseBooking(PerpComponents(db.trades[id], p).value, p);
    PersistCloseLaw(db, id, c);
    assert EventsOf(ClosePerp(db, id, p).0, id) == EventsOf(db, id) + [CloseEventOf(SnapshotOf(db.trades[id]), c)];
  }

  lemma CloseAllowed(db: Db, id: nat, p: PerpCloseArgs)
    requires ClosePerp(db, id, p).1.Closed?
    ensures p.at <= p.now && forall i :: 0 <= i < |EventsOf(db, id)| ==> EventsOf(db, id)[i].time <= p.at
  {}

  /** A perp close cannot be backdated: its event is the latest of its trade. */
  lemma PerpCloseIsLatest(db: Db, id: nat, p: PerpCloseArgs)
    requires Agrees(db) && ClosePerp(db, id, p).1.Closed?
    ensures var es := EventsOf(ClosePerp(db, id, p).0, id);
      es != [] && es[|es| - 1].kind.CloseEvent? && forall k :: 0 <= k < |es| ==> es[k].time <= es[|es| - 1].time <= p.now
  {
    ClosePerpAppends(db, id, p);
    CloseAllowed(db, id, p);
  }
}
