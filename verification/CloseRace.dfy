/** Closers racing on one open trade. close_perp_trade holds the write lock from
    its read to its commit, so it is one step. close_carry_trade reads the row,
    then persist_close reads it again, then its conditional UPDATE takes the
    lock and the CLOSE event commits with it: three steps, interleaved freely. */
module CloseRace {
  import opened Prelude
  import opened TradeLedger
  import opened LedgerLaws
  import LedgerEffects

  datatype Closer = Perp(perp: PerpCloseArgs) | Carry(carry: CarryCloseArgs)

  datatype Pc =
    | Start
    | Priced(booking: CloseArgs)
    | Holding(booking: CloseArgs, read: Snapshot)
    | Won
    | Lost
    | Raised

  datatype Race = Race(db: Db, pcs: seq<Pc>)

  /** One atomic step of closer p. */
  function StepOf(db: Db, id: nat, c: Closer, pc: Pc): (Db, Pc) {
    match pc
    case Start =>
      (match c
       case Perp(a) =>
         var (db', r) := ClosePerp(db, id, a);
         (db', match r case Closed => Won case NotOpen => Lost case Refused => Raised)
       case Carry(a) =>
         (db, if id in db.trades then Priced(CarryBooking(db.trades[id].size, a)) else Lost))
    case Priced(b) => (db, if IsOpen(db, id) then Holding(b, SnapshotOf(db.trades[id])) else Lost)
    case Holding(b, s) =>
      var (db', ok) := CommitClose(db, id, s, b);
      (db', if ok then Won else Lost)
    case _ => (db, pc)
  }

  function RaceStep(r: Race, id: nat, closers: seq<Closer>, p: nat): Race
    requires |r.pcs| == |closers| && p < |closers|
  {
    var (db', pc') := StepOf(r.db, id, closers[p], r.pcs[p]);
    Race(db', r.pcs[p := pc'])
  }

  function RunRace(db: Db, id: nat, closers: seq<Closer>, schedule: seq<nat>): (r: Race)
    requires forall k :: 0 <= k < |schedule| ==> schedule[k] < |closers|
    ensures |r.pcs| == |closers|
  {
    if schedule == [] then Race(db, seq(|closers|, _ => Start))
    else RaceStep(RunRace(db, id, closers, schedule[..|schedule| - 1]), id, closers, schedule[|schedule| - 1])
  }

  /** What closer c would book against the untouched row. */
  function BookingOf(c: Closer, t: Trade): Option<CloseArgs> {
    match c
    case Perp(a) =>
      (match PerpComponents(t, a) case None => None case Some(k) => Some(PerpCloseBooking(k, a)))
    case Carry(a) => Some(CarryBooking(t.size, a))
  }

  /** What closer p holds is what it would book, read while the trade was open. */
  predicate PcOk(pc: Pc, c: Closer, t: Trade, over: bool) {
    match pc
    case Priced(b) => BookingOf(c, t) == Some(b)
    case Holding(b, s) => BookingOf(c, t) == Some(b) && s == SnapshotOf(t)
    case Won => false
    case Lost => over
    case Raised => c.Perp?
    case Start => true
  }

  /** The database after a win by closer w, the original when there is none. */
  function AfterWin(db: Db, id: nat, closers: seq<Closer>, w: Option<nat>): Option<Db>
    requires id in db.trades && (w.Some? ==> w.value < |closers|)
  {
    match w
    case None => Some(db)
    case Some(i) =>
      match BookingOf(closers[i], db.trades[id])
      case None => None
      case Some(b) => Some(PersistClose(db, id, b).0)
  }

  ghost predicate RaceOk(r: Race, db: Db, id: nat, closers: seq<Closer>, w: Option<nat>) {
    && id in db.trades && |r.pcs| == |closers|
    && (w.Some? ==> w.value < |closers| && r.pcs[w.value].Won?)
    && AfterWin(db, id, closers, w) == Some(r.db)
    && (forall p :: 0 <= p < |closers| && Some(p) != w ==> PcOk(r.pcs[p], closers[p], db.trades[id], w.Some?))
  }

  lemma StepFromOpen(db: Db, id: nat, c: Closer, pc: Pc)
    requires IsOpen(db, id) && PcOk(pc, c, db.trades[id], false)
    ensures var (db', pc') := StepOf(db, id, c, pc);
      if pc'.Won? then BookingOf(c, db.trades[id]).Some? && db' == PersistClose(db, id, BookingOf(c, db.trades[id]).value).0
      else db' == db && PcOk(pc', c, db.trades[id], false)
  {
  }

  lemma StepFromClosed(db: Db, id: nat, t: Trade, c: Closer, pc: Pc)
    requires id in db.trades && !IsOpen(db, id) && db.trades[id].size == t.size
    requires pc.Won? || PcOk(pc, c, t, true)
    ensures var (db', pc') := StepOf(db, id, c, pc);
      db' == db && (if pc.Won? then pc'.Won? else PcOk(pc', c, t, true))
  {
  }

  lemma PersistClosedRow(db: Db, id: nat, b: CloseArgs)
    requires IsOpen(db, id)
    ensures var db' := PersistClose(db, id, b).0; id in db'.trades && !IsOpen(db', id) && db'.trades[id].size == db.trades[id].size
  {
  }

  lemma StepKeepsRaceOk(r: Race, db: Db, id: nat, closers: seq<Closer>, p: nat, w: Option<nat>) returns (w': Option<nat>)
    requires IsOpen(db, id) && p < |closers| && RaceOk(r, db, id, closers, w)
    ensures RaceOk(RaceStep(r, id, closers, p), db, id, closers, w')
  {
    w' := w;
    match w
    case None =>
      StepFromOpen(db, id, closers[p], r.pcs[p]);
      if StepOf(r.db, id, closers[p], r.pcs[p]).1.Won? {
        w' := Some(p);
        forall q | 0 <= q < |closers| && q != p
          ensures PcOk(r.pcs[q], closers[q], db.trades[id], true)
        {
          assert PcOk(r.pcs[q], closers[q], db.trades[id], false);
        }
      }
    case Some(i) =>
      PersistClosedRow(db, id, BookingOf(closers[i], db.trades[id]).value);
      StepFromClosed(r.db, id, db.trades[id], closers[p], r.pcs[p]);
  }

  lemma {:induction false} RunKeepsRaceOk(db: Db, id: nat, closers: seq<Closer>, schedule: seq<nat>) returns (w: Option<nat>)
    requires IsOpen(db, id)
    requires forall k :: 0 <= k < |schedule| ==> schedule[k] < |closers|
    ensures RaceOk(RunRace(db, id, closers, schedule), db, id, closers, w)
  {
    if schedule == [] {
      w := None;
    } else {
      var init := schedule[..|schedule| - 1];
      w := RunKeepsRaceOk(db, id, closers, init);
      w := StepKeepsRaceOk(RunRace(db, id, closers, init), db, id, closers, schedule[|schedule| - 1], w);
    }
  }

  function CloseCount(es: seq<Event>): nat {
    if es == [] then 0 else CloseCount(es[..|es| - 1]) + (if es[|es| - 1].kind.CloseEvent? then 1 else 0)
  }

  lemma {:induction false} NoCloseCounted(es: seq<Event>)
    requires forall i :: 0 <= i < |es| ==> !es[i].kind.CloseEvent?
    ensures CloseCount(es) == 0
  {
    if es != [] { NoCloseCounted(es[..|es| - 1]); }
  }

  lemma CloseAgrees(db: Db, id: nat, b: CloseArgs)
    requires Agrees(db)
    ensures Agrees(PersistClose(db, id, b).0)
  {
    PersistCloseLaw(db, id, b);
  }

  /** In every interleaving of any closers at most one wins, a loser has a
      winner before it, without a winner nothing is written, and only a locked
      close can raise. */
  lemma CloseRaceIsSafe(db: Db, id: nat, closers: seq<Closer>, schedule: seq<nat>)
    requires Agrees(db) && IsOpen(db, id)
    requires forall k :: 0 <= k < |schedule| ==> schedule[k] < |closers|
    ensures var r := RunRace(db, id, closers, schedule);
      && Agrees(r.db)
      && (forall p, q :: 0 <= p < |closers| && 0 <= q < |closers| && r.pcs[p].Won? && r.pcs[q].Won? ==> p == q)
      && ((forall p :: 0 <= p < |closers| ==> !r.pcs[p].Won?) ==> r.db == db)
      && (forall p :: 0 <= p < |closers| && r.pcs[p].Lost? ==> exists w :: 0 <= w < |closers| && r.pcs[w].Won?)
      && (forall p :: 0 <= p < |closers| && r.pcs[p].Raised? ==> closers[p].Perp?)
  {
    var w := RunKeepsRaceOk(db, id, closers, schedule);
    if w.Some? {
      CloseAgrees(db, id, BookingOf(closers[w.value], db.trades[id]).value);
    }
  }

  predicate Finished(pc: Pc) { pc.Won? || pc.Lost? || pc.Raised? }

  /** Exactly one CLOSE: once every closer has finished and one of them did not raise,
      one has won and no other. */
  lemma ExactlyOneCloses(db: Db, id: nat, closers: seq<Closer>, schedule: seq<nat>, p: nat) returns (w: nat)
    requires Agrees(db) && IsOpen(db, id)
    requires forall k :: 0 <= k < |schedule| ==> schedule[k] < |closers|
    requires forall q :: 0 <= q < |closers| ==> Finished(RunRace(db, id, closers, schedule).pcs[q])
    requires p < |closers| && !RunRace(db, id, closers, schedule).pcs[p].Raised?
    ensures var r := RunRace(db, id, closers, schedule);
      && w < |closers| && r.pcs[w].Won?
      && (forall q :: 0 <= q < |closers| && q != w ==> r.pcs[q].Lost? || (r.pcs[q].Raised? && closers[q].Perp?))
      && CloseCount(EventsOf(r.db, id)) == 1
  {
    var winner := RunKeepsRaceOk(db, id, closers, schedule);
    var r := RunRace(db, id, closers, schedule);
    w := winner.value;
    forall q | 0 <= q < |closers| && q != w
      ensures r.pcs[q].Lost? || (r.pcs[q].Raised? && closers[q].Perp?)
    {
      assert PcOk(r.pcs[q], closers[q], db.trades[id], true);
    }
    WinnerBooksOnce(db, id, closers, schedule, w);
  }

  /** What one close leaves: the row closed, its P&L added once to what was
      realized before, and one CLOSE event in the whole list. */
  lemma ClosedOnce(db: Db, id: nat, b: CloseArgs)
    requires Agrees(db) && IsOpen(db, id)
    ensures var db' := PersistClose(db, id, b).0;
      && id in db'.trades && !db'.trades[id].open
      && db'.trades[id].pnl == Some(Realized(db.trades[id]) + b.pnl)
      && EventsOf(db', id) == EventsOf(db, id) + [CloseEventOf(SnapshotOf(db.trades[id]), b)]
      && CloseCount(EventsOf(db', id)) == 1
  {
    var es, e := db.events[id], CloseEventOf(SnapshotOf(db.trades[id]), b);
    assert TradeOk(db.trades[id], es);
    NoEndWhileOpen(db.trades[id], es, e.kind, e.date);
    NoCloseCounted(es);
    assert (es + [e])[..|es|] == es;
  }

  /** The winner's booking is what the race leaves behind. */
  lemma WinnerBooksOnce(db: Db, id: nat, closers: seq<Closer>, schedule: seq<nat>, w: nat)
    requires Agrees(db) && IsOpen(db, id)
    requires forall k :: 0 <= k < |schedule| ==> schedule[k] < |closers|
    requires w < |closers| && RunRace(db, id, closers, schedule).pcs[w].Won?
    ensures BookingOf(closers[w], db.trades[id]).Some?
    ensures RunRace(db, id, closers, schedule).db == PersistClose(db, id, BookingOf(closers[w], db.trades[id]).value).0
    ensures CloseCount(EventsOf(RunRace(db, id, closers, schedule).db, id)) == 1
  {
    var winner := RunKeepsRaceOk(db, id, closers, schedule);
    assert winner == Some(w);
    ClosedOnce(db, id, BookingOf(closers[w], db.trades[id]).value);
  }

  // ---- other writers: exactly when a stale read breaks the ledger ----

  /** apply_scale's writes with the row read earlier: the UPDATE skips a closed
      row, the event is recorded either way, and its refusal rolls both back. */
  function CommitScale(db: Db, id: nat, read: Trade, newQty: real, price: real, fee: real, at: Stamp): (Db, bool)
    requires id in db.trades
  {
    var row := db.trades[id];
    var updated :=
      if row.open then db.(trades := db.trades[id := RescaledRow(row, read, newQty, price, fee)]) else db;
    match Record(updated, id, ScaleEventOf(read, newQty, price, fee, at))
    case None => (db, false)
    case Some(db') => (db', true)
  }

  /** Exactly when an appended event leaves row and ledger in agreement. */
  lemma AppendAgreesIff(t: Trade, es: seq<Event>, t': Trade, e: Event)
    requires TradeOk(t, es) && !HasEvent(es, e.kind, e.date) && !e.kind.OpenEvent?
    requires t'.direction == t.direction && e.qtyAfter == CurrentQty(t')
    requires t.open && (t'.open <==> !Ends(e.kind))
    requires !t'.open ==> CurrentQty(t') == 0.0 && t'.pnl == Some(Realized(t'))
    ensures TradeOk(t', es + [e])
      <==> Signed(t.direction, CurrentQty(t')) == Signed(t.direction, CurrentQty(t)) + e.qtyDelta
           && Realized(t') == Realized(t) + e.realizedDelta
  {
    TotalSnoc(es, e, QtyOf);
    TotalSnoc(es, e, RealizedOf);
  }

  lemma SignedDelta(d: Direction, current: real, read: real, newQty: real)
    ensures Signed(d, newQty) == Signed(d, current) + Signed(d, newQty - read) <==> current == read
    ensures Signed(d, newQty - read) == 0.0 <==> newQty == read
  {
  }

  /** apply_scale's row UPDATE from a row read earlier. */
  function RescaledRow(row: Trade, read: Trade, newQty: real, price: real, fee: real): Trade {
    row.(currentQty := Some(newQty), currentSize := Some(newQty * price),
         realized := Some(Realized(row) + ScaleRealized(read, newQty, price, fee)),
         avgEntry := Some(ScaleBasis(read, newQty, price)))
  }

  lemma RescaledIs(row: Trade, read: Trade, newQty: real, price: real, fee: real, booked: real)
    requires booked == Realized(row) + ScaleRealized(read, newQty, price, fee)
    ensures var t := ScaledTrade(read, newQty, price, fee);
      RescaledRow(row, read, newQty, price, fee)
      == row.(currentQty := t.currentQty, currentSize := t.currentSize, avgEntry := t.avgEntry, realized := Some(booked))
  {
    assert RescaledRow(row, read, newQty, price, fee).realized == Some(booked);
  }

  /** What a stale resize writes: the columns computed from the row it read, the realized P&L
      added to what the row holds by then. */
  lemma StaleResizeWrites(db: Db, id: nat, read: Trade, h: LedgerEffects.Position, held: LedgerEffects.Position,
                          newQty: real, price: real, fee: real, at: Stamp) returns (t: Trade, e: Event)
    requires id in db.trades && LedgerEffects.Holds(read, h) && LedgerEffects.Holds(db.trades[id], held) && newQty != h.qty
    ensures LedgerEffects.Resized(read, h, newQty, price, fee, at, t, e)
    ensures var (db', done) := CommitScale(db, id, read, newQty, price, fee, at);
      && (done <==> !LedgerEffects.Taken(EventsOf(db, id), if newQty > h.qty then ScaleUpEvent else ScaleDownEvent, at.time, at.date))
      && if !done then db' == db
         else
           && db'.events == db.events[id := EventsOf(db, id) + [e]]
           && db'.trades == if !db.trades[id].open then db.trades
                            else db.trades[id := db.trades[id].(currentQty := t.currentQty, currentSize := t.currentSize,
                                                                avgEntry := t.avgEntry,
                                                                realized := Some(held.realized + e.realizedDelta))]
  {
    t, e := ScaledTrade(read, newQty, price, fee), ScaleEventOf(read, newQty, price, fee, at);
    LedgerEffects.ResizedRow(read, h, newQty, price, fee, at);
    LedgerEffects.ReadsAs(db.trades[id], held);
    LedgerEffects.TakenIs(EventsOf(db, id), e.kind, at.time, at.date);
    var row, booked := db.trades[id], held.realized + e.realizedDelta;
    assert Realized(row) + ScaleRealized(read, newQty, price, fee) == booked;
    RescaledIs(row, read, newQty, price, fee, booked);
  }

  lemma StaleResizeOpenRow(row: Trade, es: seq<Event>, read: Trade, newQty: real, price: real, fee: real, at: Stamp)
    requires TradeOk(row, es) && row.open && read.direction == row.direction
    requires !HasEvent(es, ScaleEventOf(read, newQty, price, fee, at).kind, StampDate(at))
    ensures TradeOk(RescaledRow(row, read, newQty, price, fee), es + [ScaleEventOf(read, newQty, price, fee, at)])
      <==> CurrentQty(row) == CurrentQty(read)
  {
    SignedDelta(row.direction, CurrentQty(row), CurrentQty(read), newQty);
    AppendAgreesIff(row, es, RescaledRow(row, read, newQty, price, fee), ScaleEventOf(read, newQty, price, fee, at));
  }

  lemma StaleResizeClosedRow(row: Trade, es: seq<Event>, read: Trade, newQty: real, price: real, fee: real, at: Stamp)
    requires TradeOk(row, es) && !row.open && read.direction == row.direction
    requires newQty != CurrentQty(read)
    ensures !TradeOk(row, es + [ScaleEventOf(read, newQty, price, fee, at)])
  {
    TotalSnoc(es, ScaleEventOf(read, newQty, price, fee, at), QtyOf);
    SignedDelta(row.direction, CurrentQty(row), CurrentQty(read), newQty);
  }

  /** A recorded resize leaves row and ledger in agreement exactly when the row
      is still open with the quantity that was read. */
  lemma StaleResizeIff(db: Db, id: nat, read: Trade, newQty: real, price: real, fee: real, at: Stamp)
    requires Agrees(db) && id in db.trades && read.direction == db.trades[id].direction
    requires Abs(newQty - CurrentQty(read)) >= NO_OP
    requires CommitScale(db, id, read, newQty, price, fee, at).1
    ensures var db' := CommitScale(db, id, read, newQty, price, fee, at).0;
      TradeOk(db'.trades[id], EventsOf(db', id)) <==> IsOpen(db, id) && CurrentQty(db.trades[id]) == CurrentQty(read)
  {
    var row, es := db.trades[id], db.events[id];
    assert TradeOk(row, es);
    if row.open {
      StaleResizeOpenRow(row, es, read, newQty, price, fee, at);
    } else {
      StaleResizeClosedRow(row, es, read, newQty, price, fee, at);
    }
  }

  lemma StaleCloseRow(row: Trade, es: seq<Event>, s: Snapshot, c: CloseArgs)
    requires TradeOk(row, es) && row.open && s.direction == row.direction
    requires !HasEvent(es, CloseEvent, EventDate(c.time, None))
    ensures TradeOk(ClosedFrom(row, s, c), es + [CloseEventOf(s, c)])
      <==> s.remaining == CurrentQty(row) && s.prior == Realized(row)
  {
    SignedDelta(row.direction, CurrentQty(row), s.remaining, 0.0);
    AppendAgreesIff(row, es, ClosedFrom(row, s, c), CloseEventOf(s, c));
    assert -Signed(row.direction, s.remaining) == Signed(row.direction, (0.0 - s.remaining));
  }

  /** A close that commits values read before another writer's commit keeps row
      and ledger in agreement exactly when those values are still current. */
  lemma StaleCloseIff(db: Db, id: nat, s: Snapshot, c: CloseArgs)
    requires Agrees(db) && IsOpen(db, id) && s.direction == db.trades[id].direction
    ensures var db' := CommitClose(db, id, s, c).0;
      TradeOk(db'.trades[id], EventsOf(db', id))
      <==> s.remaining == CurrentQty(db.trades[id]) && s.prior == Realized(db.trades[id])
  {
    var row, es := db.trades[id], db.events[id];
    assert TradeOk(row, es);
    NoEndWhileOpen(row, es, CloseEvent, EventDate(c.time, None));
    StaleCloseRow(row, es, s, c);
  }

  // ---- two writers that break the ledger ----

  /** Two resizes from the same read: the second to commit, whatever it asks for, breaks
      the agreement of row and ledger. */
  lemma SecondResizeBreaks(db: Db, id: nat, q1: real, p1: real, fee1: real, at1: Stamp, q2: real, p2: real, fee2: real, at2: Stamp)
    requires Agrees(db) && IsOpen(db, id) && Scale(db, id, q1, p1, fee1, at1).1
    requires Abs(q2 - CurrentQty(db.trades[id])) >= NO_OP
    requires CommitScale(Scale(db, id, q1, p1, fee1, at1).0, id, db.trades[id], q2, p2, fee2, at2).1
    ensures var db' := CommitScale(Scale(db, id, q1, p1, fee1, at1).0, id, db.trades[id], q2, p2, fee2, at2).0;
      !TradeOk(db'.trades[id], EventsOf(db', id))
  {
    ScaleLaw(db, id, q1, p1, fee1, at1);
    StaleResizeIff(Scale(db, id, q1, p1, fee1, at1).0, id, db.trades[id], q2, p2, fee2, at2);
  }

  /** A close from a read before a resize, likewise. */
  lemma CloseAfterResizeBreaks(db: Db, id: nat, q: real, price: real, fee: real, at: Stamp, c: CloseArgs)
    requires Agrees(db) && IsOpen(db, id) && Scale(db, id, q, price, fee, at).1
    ensures var db' := CommitClose(Scale(db, id, q, price, fee, at).0, id, SnapshotOf(db.trades[id]), c).0;
      !TradeOk(db'.trades[id], EventsOf(db', id))
  {
    ScaleLaw(db, id, q, price, fee, at);
    StaleCloseIff(Scale(db, id, q, price, fee, at).0, id, SnapshotOf(db.trades[id]), c);
  }

  const ONE_OPEN := OpenArgs("v", 100.0, "s", "BTC", Long, 100.0, 100.0, 1.0, 0, "k")

  /** One LONG of quantity 1. */
  function OneLong(): Db {
    Db(map[1 := OpenedTrade(ONE_OPEN)], map[1 := [OpenedEvent(ONE_OPEN)]])
  }

  lemma OneLongAgrees()
    ensures Agrees(OneLong()) && IsOpen(OneLong(), 1) && CurrentQty(OneLong().trades[1]) == 1.0
  {
    OpenedRowOk(OpenedTrade(ONE_OPEN), 0, EventDate(0, None), 0.0);
  }

  lemma OneLongGrows()
    ensures Scale(OneLong(), 1, 2.0, 110.0, 0.0, Stamp(10, None)).1
    ensures EventsOf(Scale(OneLong(), 1, 2.0, 110.0, 0.0, Stamp(10, None)).0, 1)
         == [OpenedEvent(ONE_OPEN), ScaleEventOf(OneLong().trades[1], 2.0, 110.0, 0.0, Stamp(10, None))]
  {
    OneLongAgrees();
  }

  /** Both readers see quantity 1; one grows it to 2, the other then halves what it read,
      and both are recorded: the row holds 0.5, the ledger adds up to 1.5. */
  lemma TwoResizesBreak()
    ensures var grown := Scale(OneLong(), 1, 2.0, 110.0, 0.0, Stamp(10, None)).0;
            var (db', ok) := CommitScale(grown, 1, OneLong().trades[1], 0.5, 120.0, 0.0, Stamp(20, None));
      ok && !TradeOk(db'.trades[1], EventsOf(db', 1))
  {
    OneLongAgrees();
    OneLongGrows();
    SecondResizeBreaks(OneLong(), 1, 2.0, 110.0, 0.0, Stamp(10, None), 0.5, 120.0, 0.0, Stamp(20, None));
  }

  /** A carry close priced before the growth books the sale of 1 and leaves 1 in the
      ledger of a closed trade. */
  lemma ResizeAndCarryCloseBreak(c: CarryCloseArgs)
    ensures var grown := Scale(OneLong(), 1, 2.0, 110.0, 0.0, Stamp(10, None)).0;
            var (db', ok) := CommitClose(grown, 1, SnapshotOf(OneLong().trades[1]), CarryBooking(100.0, c));
      ok && !TradeOk(db'.trades[1], EventsOf(db', 1))
  {
    OneLongAgrees();
    OneLongGrows();
    ScaleLaw(OneLong(), 1, 2.0, 110.0, 0.0, Stamp(10, None));
    CloseAfterResizeBreaks(OneLong(), 1, 2.0, 110.0, 0.0, Stamp(10, None), CarryBooking(100.0, c));
  }
}
