/** What each ledger operation keeps: the row and the event list agree, and
    realized P&L moves with the cash flow of the fills. LedgerRuns.dfy lifts
    both to whole runs. */
module LedgerLaws {
  import opened Prelude
  import opened TradeLedger

  // ---- sums over a trade's events ----

  function Total(es: seq<Event>, f: Event -> real): real {
    if es == [] then 0.0 else Total(es[..|es| - 1], f) + f(es[|es| - 1])
  }

  function QtyOf(e: Event): real { e.qtyDelta }
  function RealizedOf(e: Event): real { e.realizedDelta }

  /** The signed cash of a fill: a purchase pays, a sale receives. */
  function CashOf(e: Event): real { -e.qtyDelta * e.price }

  /** The costs that reach realized P&L: those of reductions and closes. */
  function CostOf(e: Event): real {
    if e.kind.ScaleDownEvent? || e.kind.FlipEvent? || e.kind.CloseEvent? then e.fee else 0.0
  }

  lemma TotalSnoc(es: seq<Event>, e: Event, f: Event -> real)
    ensures Total(es + [e], f) == Total(es, f) + f(e)
  {
    assert (es + [e])[..|es + [e]| - 1] == es;
  }

  // ---- agreement of row and ledger ----

  predicate Ends(k: EventKind) { k.FlipEvent? || k.CloseEvent? }

  /** One OPEN, first; one closing event, last, exactly on a closed trade. */
  ghost predicate LifecycleOk(t: Trade, es: seq<Event>) {
    && es != [] && es[0].kind.OpenEvent?
    && (forall i :: 1 <= i < |es| ==> !es[i].kind.OpenEvent?)
    && (forall i :: 0 <= i < |es| - 1 ==> !Ends(es[i].kind))
    && (t.open <==> !Ends(es[|es| - 1].kind))
  }

  ghost predicate KeyedOnce(es: seq<Event>) {
    forall i, j :: 0 <= i < j < |es| ==> es[i].kind != es[j].kind || es[i].date != es[j].date
  }

  ghost predicate SumsOk(t: Trade, es: seq<Event>) {
    && es != []
    && Total(es, QtyOf) == Signed(t.direction, CurrentQty(t))
    && Total(es, RealizedOf) == Realized(t)
    && es[|es| - 1].qtyAfter == CurrentQty(t)
    && (!t.open ==> CurrentQty(t) == 0.0 && t.pnl == Some(Realized(t)))
  }

  ghost predicate TradeOk(t: Trade, es: seq<Event>) {
    LifecycleOk(t, es) && KeyedOnce(es) && SumsOk(t, es)
  }

  ghost predicate KeysUnique(db: Db) {
    forall i, j | i in db.trades && j in db.trades ::
      db.trades[i].key.Some? && db.trades[i].key == db.trades[j].key ==> i == j
  }

  ghost predicate Agrees(db: Db) {
    && db.trades.Keys == db.events.Keys
    && (forall id :: id in db.trades ==> TradeOk(db.trades[id], db.events[id]))
    && KeysUnique(db)
  }

  // ---- the cash-flow identity ----

  /** Realized P&L minus (cash of all fills + open position at its basis − costs). */
  function Imbalance(t: Trade, es: seq<Event>): real {
    Realized(t) - (Total(es, CashOf) + Signed(t.direction, CurrentQty(t)) * Basis(t) - Total(es, CostOf))
  }

  function ImbalanceOf(db: Db, id: nat): real {
    if id in db.trades then Imbalance(db.trades[id], EventsOf(db, id)) else 0.0
  }

  /** An appended event that moves the row as it says keeps agreement. */
  lemma AppendKeepsAgreement(t: Trade, es: seq<Event>, t': Trade, e: Event)
    requires TradeOk(t, es) && t.open && !HasEvent(es, e.kind, e.date) && !e.kind.OpenEvent?
    requires t'.direction == t.direction
    requires Signed(t.direction, CurrentQty(t')) == Signed(t.direction, CurrentQty(t)) + e.qtyDelta
    requires Realized(t') == Realized(t) + e.realizedDelta
    requires e.qtyAfter == CurrentQty(t')
    requires t'.open <==> !Ends(e.kind)
    requires !t'.open ==> CurrentQty(t') == 0.0 && t'.pnl == Some(Realized(t'))
    ensures TradeOk(t', es + [e])
  {
    TotalSnoc(es, e, QtyOf);
    TotalSnoc(es, e, RealizedOf);
  }

  /** How an appended event and a changed row move the imbalance. */
  lemma AppendMovesImbalance(t: Trade, es: seq<Event>, t': Trade, e: Event)
    ensures Imbalance(t', es + [e]) - Imbalance(t, es)
         == Realized(t') - Realized(t) - CashOf(e) + CostOf(e)
            - (Signed(t'.direction, CurrentQty(t')) * Basis(t') - Signed(t.direction, CurrentQty(t)) * Basis(t))
  {
    TotalSnoc(es, e, CashOf);
    TotalSnoc(es, e, CostOf);
  }

  lemma NoEndWhileOpen(t: Trade, es: seq<Event>, kind: EventKind, date: int)
    requires LifecycleOk(t, es) && t.open && Ends(kind)
    ensures !HasEvent(es, kind, date)
  {
  }

  // ---- the part of the imbalance each operation adds ----

  function ScaleLeak(t: Trade, newQty: real, price: real, fee: real): real {
    var delta := newQty - CurrentQty(t);
    if delta < 0.0 && Basis(t) > 0.0 then
      (if t.direction.Other? then -delta * (price - Basis(t)) * 2.0 else 0.0)
    else if delta > 0.0 && newQty > 0.0 then 0.0
    else Signed(t.direction, delta) * (price - Basis(t)) + (if delta < 0.0 then fee else 0.0)
  }

  function FlipLeak(t: Trade, price: real): real {
    if t.direction.Other? then 2.0 * CurrentQty(t) * (price - Basis(t)) else 0.0
  }

  function CarryLeak(t: Trade, c: CarryCloseArgs): real {
    t.size * c.fundingPct / 100.0 - Signed(t.direction, CurrentQty(t)) * (c.price - Basis(t))
  }

  // ---- one operation at a time: agreement and imbalance ----

  /** The database after one row changed and one event was appended to it. */
  function Appended(db: Db, id: nat, t: Trade, e: Event): Db {
    Db(db.trades[id := t], db.events[id := EventsOf(db, id) + [e]])
  }

  lemma AppendedTradeOk(db: Db, id: nat, t: Trade, e: Event, i: nat)
    requires id in db.trades && i in db.trades && db.trades.Keys == db.events.Keys
    requires TradeOk(if i == id then t else db.trades[i], if i == id then db.events[id] + [e] else db.events[i])
    ensures TradeOk(Appended(db, id, t, e).trades[i], Appended(db, id, t, e).events[i])
  {}

  lemma AppendedKeysUnique(db: Db, id: nat, t: Trade, e: Event)
    requires KeysUnique(db) && id in db.trades && t.key == db.trades[id].key
    ensures KeysUnique(Appended(db, id, t, e))
  {}

  lemma AppendedAgrees(db: Db, id: nat, t: Trade, e: Event)
    requires Agrees(db) && id in db.trades
    requires t.key == db.trades[id].key
    requires TradeOk(t, db.events[id] + [e])
    ensures Agrees(Appended(db, id, t, e))
  {
    var db' := Appended(db, id, t, e);
    AppendedKeysUnique(db, id, t, e);
    forall i | i in db'.trades
      ensures TradeOk(db'.trades[i], db'.events[i])
    {
      AppendedTradeOk(db, id, t, e, i);
    }
  }

  lemma ScaleTradeLaw(t: Trade, es: seq<Event>, newQty: real, price: real, fee: real, at: Stamp)
    requires TradeOk(t, es) && t.open && newQty != CurrentQty(t)
    requires !HasEvent(es, ScaleEventOf(t, newQty, price, fee, at).kind, StampDate(at))
    ensures var t', e := ScaledTrade(t, newQty, price, fee), ScaleEventOf(t, newQty, price, fee, at);
      && TradeOk(t', es + [e])
      && Imbalance(t', es + [e]) == Imbalance(t, es) + ScaleLeak(t, newQty, price, fee)
  {
    var t', e := ScaledTrade(t, newQty, price, fee), ScaleEventOf(t, newQty, price, fee, at);
    ScaleArithmetic(t, newQty, price, fee, at);
    AppendKeepsAgreement(t, es, t', e);
    AppendMovesImbalance(t, es, t', e);
  }

  lemma ScaleArithmetic(t: Trade, newQty: real, price: real, fee: real, at: Stamp)
    requires newQty != CurrentQty(t)
    ensures var t', e := ScaledTrade(t, newQty, price, fee), ScaleEventOf(t, newQty, price, fee, at);
      && Signed(t.direction, CurrentQty(t')) == Signed(t.direction, CurrentQty(t)) + e.qtyDelta
      && Realized(t') - Realized(t) - CashOf(e) + CostOf(e)
         - (Signed(t.direction, CurrentQty(t')) * Basis(t') - Signed(t.direction, CurrentQty(t)) * Basis(t))
         == ScaleLeak(t, newQty, price, fee)
  {
    var delta := newQty - CurrentQty(t);
    if delta > 0.0 && newQty > 0.0 {
      assert newQty * ScaleBasis(t, newQty, price) == CurrentQty(t) * Basis(t) + delta * price;
    }
  }

  lemma ScaleLaw(db: Db, id: nat, newQty: real, price: real, fee: real, at: Stamp)
    requires Agrees(db)
    ensures Agrees(Scale(db, id, newQty, price, fee, at).0)
    ensures !Scale(db, id, newQty, price, fee, at).1 ==> Scale(db, id, newQty, price, fee, at).0 == db
    ensures Scale(db, id, newQty, price, fee, at).1 ==>
      && IsOpen(db, id)
      && Scale(db, id, newQty, price, fee, at).0
         == Appended(db, id, ScaledTrade(db.trades[id], newQty, price, fee), ScaleEventOf(db.trades[id], newQty, price, fee, at))
      && ImbalanceOf(Scale(db, id, newQty, price, fee, at).0, id)
         == ImbalanceOf(db, id) + ScaleLeak(db.trades[id], newQty, price, fee)
  {
    var (db', ok) := Scale(db, id, newQty, price, fee, at);
    if ok {
      var t := db.trades[id];
      assert TradeOk(t, db.events[id]);
      var t', e := ScaledTrade(t, newQty, price, fee), ScaleEventOf(t, newQty, price, fee, at);
      assert db' == Appended(db, id, t', e);
      ScaleTradeLaw(t, db.events[id], newQty, price, fee, at);
      AppendedAgrees(db, id, t', e);
    }
  }

  /** An event that trades nothing moves no cash. */
  lemma NothingTraded(e: Event)
    requires e.qtyDelta == 0.0
    ensures CashOf(e) == 0.0
  {
    assert 0.0 * e.price == 0.0;
  }

  lemma LeverageTradeLaw(t: Trade, es: seq<Event>, newLeverage: real, price: real, fee: real, at: Stamp)
    requires TradeOk(t, es) && t.open && !HasEvent(es, LeverageEvent, StampDate(at))
    ensures var t', e := ReleveredTrade(t, newLeverage, price), LeverageEventOf(t, newLeverage, price, fee, at);
      TradeOk(t', es + [e]) && Imbalance(t', es + [e]) == Imbalance(t, es)
  {
    var t', e := ReleveredTrade(t, newLeverage, price), LeverageEventOf(t, newLeverage, price, fee, at);
    AppendKeepsAgreement(t, es, t', e);
    NothingTraded(e);
    AppendMovesImbalance(t, es, t', e);
  }

  lemma LeverageLaw(db: Db, id: nat, newLeverage: real, price: real, fee: real, at: Stamp)
    requires Agrees(db)
    ensures Agrees(AdjustLeverage(db, id, newLeverage, price, fee, at).0)
    ensures !AdjustLeverage(db, id, newLeverage, price, fee, at).1 ==> AdjustLeverage(db, id, newLeverage, price, fee, at).0 == db
    ensures AdjustLeverage(db, id, newLeverage, price, fee, at).1 ==>
      && IsOpen(db, id)
      && AdjustLeverage(db, id, newLeverage, price, fee, at).0
         == Appended(db, id, ReleveredTrade(db.trades[id], newLeverage, price), LeverageEventOf(db.trades[id], newLeverage, price, fee, at))
      && ImbalanceOf(AdjustLeverage(db, id, newLeverage, price, fee, at).0, id) == ImbalanceOf(db, id)
  {
    var (db', ok) := AdjustLeverage(db, id, newLeverage, price, fee, at);
    if ok {
      var t := db.trades[id];
      assert TradeOk(t, db.events[id]);
      var t', e := ReleveredTrade(t, newLeverage, price), LeverageEventOf(t, newLeverage, price, fee, at);
      assert db' == Appended(db, id, t', e);
      LeverageTradeLaw(t, db.events[id], newLeverage, price, fee, at);
      AppendedAgrees(db, id, t', e);
    }
  }

  function ClosedTrade(t: Trade, c: CloseArgs): Trade { ClosedFrom(t, SnapshotOf(t), c) }

  /** What a close books beyond the fill of the remaining position. */
  function CloseLeak(t: Trade, c: CloseArgs): real {
    c.pnl + c.fee - Signed(t.direction, CurrentQty(t)) * (c.price - Basis(t))
  }

  lemma CloseFill(signed: real, basis: real, price: real)
    ensures signed * (price - basis) == -(-signed * price) - signed * basis
  {
  }

  /** A close books onto a list that cannot already hold a CLOSE. */
  lemma CloseTradeLaw(t: Trade, es: seq<Event>, c: CloseArgs)
    requires TradeOk(t, es) && t.open
    ensures var t', e := ClosedTrade(t, c), CloseEventOf(SnapshotOf(t), c);
      && !HasEvent(es, e.kind, e.date)
      && TradeOk(t', es + [e])
      && Imbalance(t', es + [e]) == Imbalance(t, es) + CloseLeak(t, c)
  {
    var t', e := ClosedTrade(t, c), CloseEventOf(SnapshotOf(t), c);
    NoEndWhileOpen(t, es, e.kind, e.date);
    AppendKeepsAgreement(t, es, t', e);
    AppendMovesImbalance(t, es, t', e);
    CloseFill(Signed(t.direction, CurrentQty(t)), Basis(t), c.price);
  }

  lemma PersistCloseLaw(db: Db, id: nat, c: CloseArgs)
    requires Agrees(db)
    ensures Agrees(PersistClose(db, id, c).0)
    ensures PersistClose(db, id, c).1 == IsOpen(db, id)
    ensures !IsOpen(db, id) ==> PersistClose(db, id, c).0 == db
    ensures IsOpen(db, id) ==>
      var t := db.trades[id];
      && PersistClose(db, id, c).0 == Appended(db, id, ClosedTrade(t, c), CloseEventOf(SnapshotOf(t), c))
      && ImbalanceOf(PersistClose(db, id, c).0, id) == ImbalanceOf(db, id) + CloseLeak(t, c)
  {
    if IsOpen(db, id) {
      var t := db.trades[id];
      assert TradeOk(t, db.events[id]);
      CloseTradeLaw(t, db.events[id], c);
      AppendedAgrees(db, id, ClosedTrade(t, c), CloseEventOf(SnapshotOf(t), c));
    }
  }

  function FundingOf(t: Trade, p: PerpCloseArgs): real { CurrentSize(t) * p.fundingPct / 100.0 }

  /** Price P&L less cost plus funding: only the funding is not in the fills. */
  lemma PerpArithmetic(t: Trade, p: PerpCloseArgs)
    requires !t.direction.Other?
    ensures CloseLeak(t, PerpCloseBooking(PerpComponents(t, p).value, p)) == FundingOf(t, p)
  {
  }

  lemma ClosePerpLaw(db: Db, id: nat, p: PerpCloseArgs)
    requires Agrees(db)
    ensures Agrees(ClosePerp(db, id, p).0)
    ensures !ClosePerp(db, id, p).1.Closed? ==> ClosePerp(db, id, p).0 == db
    ensures ClosePerp(db, id, p).1.Closed? ==>
      && IsOpen(db, id)
      && ClosePerp(db, id, p).0 == PersistClose(db, id, PerpCloseBooking(PerpComponents(db.trades[id], p).value, p)).0
      && ImbalanceOf(ClosePerp(db, id, p).0, id) == ImbalanceOf(db, id) + FundingOf(db.trades[id], p)
  {
    if ClosePerp(db, id, p).1.Closed? {
      var t := db.trades[id];
      PerpArithmetic(t, p);
      PersistCloseLaw(db, id, PerpCloseBooking(PerpComponents(t, p).value, p));
    }
  }

  lemma CarryArithmetic(t: Trade, c: CarryCloseArgs)
    ensures CloseLeak(t, CarryBooking(t.size, c)) == CarryLeak(t, c)
  {
    var cost := c.costPct + c.slippagePct;
    assert t.size * (c.fundingPct - cost) == t.size * c.fundingPct - t.size * cost;
  }

  lemma CloseCarryLaw(db: Db, id: nat, c: CarryCloseArgs)
    requires Agrees(db)
    ensures Agrees(CloseCarry(db, id, c).0)
    ensures CloseCarry(db, id, c).1 == IsOpen(db, id)
    ensures !IsOpen(db, id) ==> CloseCarry(db, id, c).0 == db
    ensures IsOpen(db, id) ==>
      && CloseCarry(db, id, c).0 == PersistClose(db, id, CarryBooking(db.trades[id].size, c)).0
      && ImbalanceOf(CloseCarry(db, id, c).0, id) == ImbalanceOf(db, id) + CarryLeak(db.trades[id], c)
  {
    if IsOpen(db, id) {
      CarryArithmetic(db.trades[id], c);
      PersistCloseLaw(db, id, CarryBooking(db.trades[id].size, c));
    }
  }

  /** A fresh row agrees with its lone OPEN event and is balanced. */
  lemma OpenedRowOk(t: Trade, time: int, date: int, fee: real)
    requires t.open && t.currentQty == Some(t.qty) && t.realized == Some(0.0) && t.avgEntry == Some(t.entryPrice)
    ensures var e := OpenEventOf(t, time, date, fee); TradeOk(t, [e]) && Imbalance(t, [e]) == 0.0
  {
    var e := OpenEventOf(t, time, date, fee);
    TotalSnoc([], e, QtyOf);
    TotalSnoc([], e, RealizedOf);
    TotalSnoc([], e, CashOf);
    TotalSnoc([], e, CostOf);
    assert [] + [e] == [e];
    assert CashOf(e) == -(Signed(t.direction, t.qty)) * t.entryPrice;
  }

  /** The insert succeeds whole: no event can precede the OPEN of a new id. */
  lemma InsertLaw(db: Db, t: Trade, e: Event)
    requires Agrees(db) && TradeOk(t, [e]) && Imbalance(t, [e]) == 0.0
    requires t.key.Some? ==> !KeyTaken(db, t.key.value)
    ensures var id := NextId(db.trades); InsertTrade(db, t, e) == (Db(db.trades[id := t], db.events[id := [e]]), id)
    ensures Agrees(InsertTrade(db, t, e).0)
    ensures ImbalanceOf(InsertTrade(db, t, e).0, NextId(db.trades)) == 0.0
  {
    InsertedAgrees(db, NextId(db.trades), t, e);
    assert EventsOf(db, NextId(db.trades)) + [e] == [e];
  }

  lemma InsertedAgrees(db: Db, id: nat, t: Trade, e: Event)
    requires Agrees(db) && id !in db.trades && TradeOk(t, [e])
    requires t.key.Some? ==> !KeyTaken(db, t.key.value)
    ensures Agrees(Db(db.trades[id := t], db.events[id := [e]]))
  {
    var db' := Db(db.trades[id := t], db.events[id := [e]]);
    forall i | i in db'.trades
      ensures TradeOk(db'.trades[i], db'.events[i])
    {
      if i != id { assert TradeOk(db.trades[i], db.events[i]); }
    }
  }

  function OpenedEvent(a: OpenArgs): Event {
    OpenEventOf(OpenedTrade(a), a.time, EventDate(a.time, None), 0.0)
  }

  lemma OpenLaw(db: Db, a: OpenArgs)
    requires Agrees(db)
    ensures Agrees(OpenTrade(db, a).0)
    ensures KeyTaken(db, KeyOf(a)) ==> OpenTrade(db, a) == (db, HolderOf(db, KeyOf(a)))
    ensures !KeyTaken(db, KeyOf(a)) ==>
      var id := NextId(db.trades);
      && OpenTrade(db, a) == (Db(db.trades[id := OpenedTrade(a)], db.events[id := [OpenedEvent(a)]]), id)
      && ImbalanceOf(OpenTrade(db, a).0, id) == 0.0
  {
    if !KeyTaken(db, KeyOf(a)) {
      OpenedRowOk(OpenedTrade(a), a.time, EventDate(a.time, None), 0.0);
      InsertLaw(db, OpenedTrade(a), OpenedEvent(a));
    }
  }

  lemma FlipArithmetic(t: Trade, price: real)
    ensures CurrentQty(t) * Move(t.direction, Basis(t), price)
            - Signed(t.direction, CurrentQty(t)) * (price - Basis(t)) == FlipLeak(t, price)
  {
  }

  lemma FlipTradeLaw(t: Trade, es: seq<Event>, price: real, fee: real, at: Stamp)
    requires TradeOk(t, es) && t.open
    ensures var t', e := FlippedTrade(t, price, fee, at.time), FlipEventOf(t, price, fee, at);
      && !HasEvent(es, e.kind, e.date)
      && TradeOk(t', es + [e])
      && Imbalance(t', es + [e]) == Imbalance(t, es) + FlipLeak(t, price)
  {
    var t', e := FlippedTrade(t, price, fee, at.time), FlipEventOf(t, price, fee, at);
    NoEndWhileOpen(t, es, e.kind, e.date);
    AppendKeepsAgreement(t, es, t', e);
    AppendMovesImbalance(t, es, t', e);
    FlipArithmetic(t, price);
    assert CashOf(e) == Signed(t.direction, CurrentQty(t)) * price;
  }

  lemma SameKeysSameNext(a: map<nat, Trade>, b: map<nat, Trade>)
    requires a.Keys == b.Keys
    ensures NextId(a) == NextId(b)
  {
    if a.Keys != {} {
      assert NextId(a) - 1 in a.Keys && NextId(b) - 1 in b.Keys;
    }
  }

  lemma FlipLegLaw(db: Db, id: nat, price: real, fee: real, at: Stamp)
    requires Agrees(db) && IsOpen(db, id)
    ensures FlipLeg(db, id, price, fee, at)
         == Appended(db, id, FlippedTrade(db.trades[id], price, fee, at.time), FlipEventOf(db.trades[id], price, fee, at))
    ensures Agrees(FlipLeg(db, id, price, fee, at))
    ensures ImbalanceOf(FlipLeg(db, id, price, fee, at), id) == ImbalanceOf(db, id) + FlipLeak(db.trades[id], price)
  {
    var t := db.trades[id];
    assert TradeOk(t, db.events[id]);
    FlipTradeLaw(t, db.events[id], price, fee, at);
    AppendedAgrees(db, id, FlippedTrade(t, price, fee, at.time), FlipEventOf(t, price, fee, at));
  }

  predicate Flips(db: Db, id: nat, d: Direction) {
    IsOpen(db, id) && !d.Other? && db.trades[id].direction != d
  }

  /** The second leg, on any database that agrees. */
  lemma ReopenLaw(db: Db, t: Trade, id: nat, d: Direction, price: real, fee: real, at: Stamp)
    requires Agrees(db)
    ensures var t' := ReopenedTrade(t, id, d, price, at.time);
            var e := OpenEventOf(t', at.time, StampDate(at), fee / 2.0);
            var n := NextId(db.trades);
      && InsertTrade(db, t', e) == (Db(db.trades[n := t'], db.events[n := [e]]), n)
      && Agrees(InsertTrade(db, t', e).0)
      && ImbalanceOf(InsertTrade(db, t', e).0, n) == 0.0
  {
    var t' := ReopenedTrade(t, id, d, price, at.time);
    OpenedRowOk(t', at.time, StampDate(at), fee / 2.0);
    InsertLaw(db, t', OpenEventOf(t', at.time, StampDate(at), fee / 2.0));
  }

  /** A flip is the closing leg followed by an insert under the next id. */
  lemma FlipLaw(db: Db, id: nat, d: Direction, price: real, fee: real, at: Stamp)
    requires Agrees(db)
    ensures Flip(db, id, d, price, fee, at).1.Flipped? <==> Flips(db, id, d)
    ensures !Flips(db, id, d) ==> Flip(db, id, d, price, fee, at).0 == db
    ensures Flips(db, id, d) ==>
      var leg := FlipLeg(db, id, price, fee, at);
      var t := ReopenedTrade(db.trades[id], id, d, price, at.time);
      var e := OpenEventOf(t, at.time, StampDate(at), fee / 2.0);
      && Agrees(leg)
      && NextId(leg.trades) == NextId(db.trades)
      && Flip(db, id, d, price, fee, at) == (InsertTrade(leg, t, e).0, Flipped(NextId(db.trades)))
  {
    if Flips(db, id, d) {
      FlipLegLaw(db, id, price, fee, at);
      var leg := FlipLeg(db, id, price, fee, at);
      assert leg.trades.Keys == db.trades.Keys;
      SameKeysSameNext(leg.trades, db.trades);
    }
  }

  /** The rows a flip leaves. */
  lemma FlipRows(db: Db, id: nat, d: Direction, price: real, fee: real, at: Stamp)
    requires Agrees(db) && Flips(db, id, d)
    ensures Agrees(Flip(db, id, d, price, fee, at).0)
    ensures Flip(db, id, d, price, fee, at).0.trades
         == db.trades[id := FlippedTrade(db.trades[id], price, fee, at.time)]
                     [NextId(db.trades) := ReopenedTrade(db.trades[id], id, d, price, at.time)]
  {
    FlipLaw(db, id, d, price, fee, at);
    FlipLegLaw(db, id, price, fee, at);
    ReopenLaw(FlipLeg(db, id, price, fee, at), db.trades[id], id, d, price, fee, at);
  }
}
