/** What each ledger operation writes, in the stored columns before and after it. Only the
    outcome of an operation is named, not the functions that compute it
    (strategies/trades.py). */
module LedgerEffects {
  import opened Prelude
  import opened TradeLedger
  import opened LedgerLaws

  /** A nullable column that is read with a fallback. */
  predicate Reads(column: Option<real>, fallback: real, v: real) {
    column == Some(v) || (column == None && v == fallback)
  }

  /** The position a row stands for: its running columns, or the ones written at the entry
      where they are null. */
  datatype Position = Position(qty: real, size: real, basis: real, realized: real, leverage: real)

  predicate Holds(t: Trade, h: Position) {
    && Reads(t.currentQty, t.qty, h.qty)
    && Reads(t.currentSize, t.size, h.size)
    && Reads(t.avgEntry, t.entryPrice, h.basis)
    && Reads(t.realized, 0.0, h.realized)
    && Reads(t.currentLeverage, if t.leverage == 0.0 then 1.0 else t.leverage, h.leverage)
  }

  lemma ReadsAs(t: Trade, h: Position)
    requires Holds(t, h)
    ensures (CurrentQty(t), CurrentSize(t), Basis(t), Realized(t), CurrentLeverage(t)) == (h.qty, h.size, h.basis, h.realized, h.leverage)
  {}

  lemma SameProduct(x: real, y: real, z: real)
    requires x == y
    ensures x * z == y * z
  {}

  /** Buying is positive: an increase of a LONG and a reduction of anything else. */
  predicate BookedAs(d: Direction, increase: real, qtyDelta: real) {
    qtyDelta == match d case Long => increase case Short => -increase case Other => -increase
  }

  /** The UTC day of a time, unless the caller names another. */
  predicate DayIs(date: int, time: int, given: Option<int>) {
    match given
    case Some(day) => date == day
    case None => date * 86400 <= time < (date + 1) * 86400
  }

  predicate OnDay(e: Event, time: int, given: Option<int>) { e.time == time && DayIs(e.date, time, given) }

  /** The trade already has an event of the kind on that day. */
  predicate Taken(es: seq<Event>, kind: EventKind, time: int, given: Option<int>) {
    exists k :: 0 <= k < |es| && es[k].kind == kind && DayIs(es[k].date, time, given)
  }

  lemma DayOf(time: int)
    ensures time / 86400 * 86400 <= time < (time / 86400 + 1) * 86400
  {}

  lemma OneDay(date: int, time: int, given: Option<int>)
    ensures DayIs(date, time, given) <==> date == EventDate(time, given)
  {
    DayOf(time);
  }

  lemma TakenIs(es: seq<Event>, kind: EventKind, time: int, given: Option<int>)
    ensures Taken(es, kind, time, given) <==> HasEvent(es, kind, EventDate(time, given))
  {
    forall k | 0 <= k < |es|
      ensures DayIs(es[k].date, time, given) <==> es[k].date == EventDate(time, given)
    {
      OneDay(es[k].date, time, given);
    }
  }

  /** Text in capitals, letter by letter. */
  lemma UpperIs(s: string, i: nat)
    requires i < |s|
    ensures |Upper(s)| == |s|
    ensures s[i] in "abcdefghijklmnopqrstuvwxyz" ==> Upper(s)[i] as int == s[i] as int - 32
    ensures s[i] !in "abcdefghijklmnopqrstuvwxyz" ==> Upper(s)[i] == s[i]
  {
    var abc := "abcdefghijklmnopqrstuvwxyz";
    assert forall k :: 0 <= k < 26 ==> abc[k] as int == 'a' as int + k;
    if 'a' <= s[i] <= 'z' { assert abc[s[i] as int - 'a' as int] == s[i]; }
  }

  /** A row as it is born: the running columns repeat the entry, nothing is closed. */
  predicate Fresh(t: Trade) {
    && t.open
    && (t.currentQty, t.currentSize, t.avgEntry, t.realized, t.currentLeverage)
       == (Some(t.qty), Some(t.size), Some(t.entryPrice), Some(0.0), Some(t.leverage))
    && (t.pnl, t.pnlPct, t.exitPrice, t.exitTime) == (None, None, None, None)
  }

  /** Its one event trades the whole of it. */
  predicate Opening(t: Trade, e: Event, time: int, date: Option<int>, fee: real) {
    && e.kind.OpenEvent? && OnDay(e, time, date) && BookedAs(t.direction, t.qty, e.qtyDelta)
    && (e.qtyAfter, e.marginDelta, e.sizeAfter, e.price, e.fee, e.realizedDelta) == (t.qty, t.size, t.size, t.entryPrice, fee, 0.0)
  }

  // ---- open ----

  function KeyText(a: OpenArgs): string { a.variant + "|" + Upper(a.sleeve) + "|" + a.asset + "|" + a.keyTime }

  /** The caller's columns, and the size that capital, allocation and leverage multiply
      out to. */
  predicate OpenedAs(a: OpenArgs, t: Trade) {
    && t.key == Some(KeyText(a)) && t.variant == a.variant && t.strategy == Upper(a.sleeve) && t.asset == a.asset
    && t.direction == a.direction && t.entryTime == a.time && t.entryPrice == a.entryPrice && t.leverage == a.leverage
    && t.size * 100.0 == a.capital * a.allocationPct * a.leverage
    && (a.entryPrice > 0.0 ==> t.qty * a.entryPrice == t.size) && (a.entryPrice <= 0.0 ==> t.qty == 0.0)
    && t.parent == None && Fresh(t)
  }

  lemma SizeMultiplied(capital: real, allocationPct: real, leverage: real)
    ensures PaperSize(capital, allocationPct, leverage) * 100.0 == capital * allocationPct * leverage
  {
    var part := allocationPct / 100.0;
    assert part * 100.0 == allocationPct;
    assert capital * part * 100.0 == capital * allocationPct;
    ScaleBy(capital * part, leverage, 100.0);
  }

  lemma ScaleBy(x: real, y: real, z: real)
    ensures x * y * z == x * z * y
  {}

  lemma QtyTimesPrice(size: real, price: real)
    ensures price > 0.0 ==> QtyFor(size, price) * price == size
    ensures price <= 0.0 ==> QtyFor(size, price) == 0.0
  {}

  lemma OpenedRow(a: OpenArgs)
    ensures OpenedAs(a, OpenedTrade(a)) && Opening(OpenedTrade(a), OpenedEvent(a), a.time, None, 0.0)
  {
    SizeMultiplied(a.capital, a.allocationPct, a.leverage);
    QtyTimesPrice(PaperSize(a.capital, a.allocationPct, a.leverage), a.entryPrice);
    DayOf(a.time);
  }

  /** A new key inserts one row and one event; a taken one writes nothing and answers its
      holder. */
  lemma OpenWrites(db: Db, a: OpenArgs)
    requires Agrees(db)
    ensures var (db', id) := OpenTrade(db, a);
      if exists i :: i in db.trades && db.trades[i].key == Some(KeyText(a))
      then db' == db && id in db.trades && db.trades[id].key == Some(KeyText(a))
      else OpenedNew(db, db', id, a)
  {
    assert KeyTaken(db, KeyOf(a)) <==> exists i :: i in db.trades && db.trades[i].key == Some(KeyText(a));
    OpenLaw(db, a);
    if !KeyTaken(db, KeyOf(a)) { InsertedNew(db, NextId(db.trades), a); }
  }

  predicate OpenedNew(db: Db, db': Db, id: nat, a: OpenArgs) {
    && id !in db.trades && db'.trades.Keys == db.trades.Keys + {id} && id in db'.events && |db'.events[id]| == 1
    && OpenedAs(a, db'.trades[id]) && Opening(db'.trades[id], db'.events[id][0], a.time, None, 0.0)
  }

  lemma InsertedNew(db: Db, id: nat, a: OpenArgs)
    requires id !in db.trades
    ensures OpenedNew(db, Db(db.trades[id := OpenedTrade(a)], db.events[id := [OpenedEvent(a)]]), id, a)
  {
    OpenedRow(a);
  }

  // ---- resize ----

  /** The profit of qty units from basis to price. */
  predicate Gained(d: Direction, basis: real, price: real, qty: real, gain: real) {
    gain == match d
      case Long => qty * (price - basis)
      case Short => qty * (basis - price)
      case Other => qty * (price - basis)
  }

  predicate Resized(t: Trade, h: Position, newQty: real, price: real, fee: real, at: Stamp, t': Trade, e: Event) {
    && t' == t.(currentQty := Some(newQty), currentSize := Some(newQty * price),
                realized := Some(h.realized + e.realizedDelta), avgEntry := t'.avgEntry)
    && e.kind == (if newQty > h.qty then ScaleUpEvent else ScaleDownEvent)
    && OnDay(e, at.time, at.date) && BookedAs(t.direction, newQty - h.qty, e.qtyDelta)
    && (e.qtyAfter, e.sizeAfter, e.marginDelta, e.price, e.fee) == (newQty, newQty * price, newQty * price - h.size, price, fee)
    && if newQty < h.qty && h.basis > 0.0 then
         t'.avgEntry == Some(h.basis) && Gained(t.direction, h.basis, price, h.qty - newQty, e.realizedDelta + fee)
       else if newQty > h.qty && newQty > 0.0 then
         e.realizedDelta == 0.0 && t'.avgEntry.Some? && newQty * t'.avgEntry.value == h.qty * h.basis + (newQty - h.qty) * price
       else e.realizedDelta == 0.0 && t'.avgEntry == Some(h.basis)
  }

  lemma ResizedRow(t: Trade, h: Position, newQty: real, price: real, fee: real, at: Stamp)
    requires Holds(t, h) && newQty != h.qty
    ensures Resized(t, h, newQty, price, fee, at, ScaledTrade(t, newQty, price, fee), ScaleEventOf(t, newQty, price, fee, at))
  {
    DayOf(at.time);
    if newQty > h.qty && newQty > 0.0 { Weighted(h.qty * h.basis + (newQty - h.qty) * price, newQty); }
  }

  lemma Weighted(x: real, y: real)
    requires y > 0.0
    ensures y * (x / y) == x
  {}

  /** Recorded exactly on an open row, for a real change and a day not taken yet; refused
      without a trace. */
  lemma ScaleWrites(db: Db, id: nat, h: Position, newQty: real, price: real, fee: real, at: Stamp)
    requires IsOpen(db, id) ==> Holds(db.trades[id], h)
    ensures var (db', done) := Scale(db, id, newQty, price, fee, at);
      var kind := if newQty > h.qty then ScaleUpEvent else ScaleDownEvent;
      && (done <==> IsOpen(db, id) && !(-0.000000000001 < newQty - h.qty < 0.000000000001)
                    && !Taken(EventsOf(db, id), kind, at.time, at.date))
      && if done then WritesRow(db, db', id) && Resized(db.trades[id], h, newQty, price, fee, at, db'.trades[id], LastEvent(db', id))
         else db' == db
  {
    if IsOpen(db, id) && Abs(newQty - CurrentQty(db.trades[id])) >= NO_OP {
      ResizedRow(db.trades[id], h, newQty, price, fee, at);
      TakenIs(EventsOf(db, id), if newQty > h.qty then ScaleUpEvent else ScaleDownEvent, at.time, at.date);
    }
  }

  /** One row of the trade changes and one event follows its others. */
  predicate WritesRow(db: Db, db': Db, id: nat) {
    && id in db.trades && id in db'.trades && id in db'.events && |db'.events[id]| > 0
    && db'.trades == db.trades[id := db'.trades[id]]
    && db'.events == db.events[id := db'.events[id]]
    && db'.events[id][..|db'.events[id]| - 1] == EventsOf(db, id)
  }

  function LastEvent(db: Db, id: nat): Event
    requires id in db.events && |db.events[id]| > 0
  {
    db.events[id][|db.events[id]| - 1]
  }

  // ---- leverage ----

  /** A notional over its leverage; a leverage of zero or less backs it in full. */
  function Backing(notional: real, leverage: real): real { notional / (if leverage <= 0.0 then 1.0 else leverage) }

  predicate Relevered(t: Trade, h: Position, newLeverage: real, price: real, fee: real, at: Stamp, t': Trade, e: Event) {
    && t' == t.(currentLeverage := Some(newLeverage), currentSize := t'.currentSize)
    && t'.currentSize.Some? && t'.currentSize.value == h.qty * price
    && e.kind.LeverageEvent? && OnDay(e, at.time, at.date)
    && (e.qtyDelta, e.qtyAfter, e.price, e.fee, e.realizedDelta) == (0.0, h.qty, price, fee, 0.0)
    && e.sizeAfter == h.qty * price
    && e.marginDelta == Backing(h.qty * price, newLeverage) - Backing(h.qty * price, h.leverage)
  }

  lemma BackingIs(notional: real, leverage: real)
    ensures Collateral(notional, leverage) == Backing(notional, leverage)
  {}

  lemma ReleveredRow(t: Trade, h: Position, newLeverage: real, price: real, fee: real, at: Stamp)
    requires Holds(t, h)
    ensures Relevered(t, h, newLeverage, price, fee, at, ReleveredTrade(t, newLeverage, price), LeverageEventOf(t, newLeverage, price, fee, at))
  {
    ReadsAs(t, h);
    SameProduct(CurrentQty(t), h.qty, price);
    DayOf(at.time);
    BackingIs(h.qty * price, newLeverage);
    BackingIs(h.qty * price, h.leverage);
  }

  lemma LeverageWrites(db: Db, id: nat, h: Position, newLeverage: real, price: real, fee: real, at: Stamp)
    requires IsOpen(db, id) ==> Holds(db.trades[id], h)
    ensures var (db', done) := AdjustLeverage(db, id, newLeverage, price, fee, at);
      && (done <==> IsOpen(db, id) && !(-0.000000000001 < newLeverage - h.leverage < 0.000000000001)
                    && !Taken(EventsOf(db, id), LeverageEvent, at.time, at.date))
      && if done then WritesRow(db, db', id) && Relevered(db.trades[id], h, newLeverage, price, fee, at, db'.trades[id], LastEvent(db', id))
         else db' == db
  {
    if IsOpen(db, id) {
      ReleveredRow(db.trades[id], h, newLeverage, price, fee, at);
      TakenIs(EventsOf(db, id), LeverageEvent, at.time, at.date);
    }
  }

  // ---- close ----

  /** The row a close leaves: flat, and its P&L is all that was realized. */
  predicate ClosedOut(t: Trade, h: Position, price: real, time: int, t': Trade, e: Event) {
    && t' == t.(open := false, exitTime := Some(time), exitPrice := Some(price), pnl := Some(h.realized + e.realizedDelta),
                pnlPct := t'.pnlPct, currentQty := Some(0.0), realized := Some(h.realized + e.realizedDelta))
    && BookedAs(t.direction, -h.qty, e.qtyDelta) && (e.qtyAfter, e.sizeAfter, e.price) == (0.0, 0.0, price)
  }

  /** A CLOSE gives back the entry size. */
  predicate ClosingEvent(t: Trade, time: int, e: Event) {
    e.kind.CloseEvent? && OnDay(e, time, None) && e.marginDelta == -t.size
  }

  /** Price P&L of the whole position less fees and slippage on its size, plus funding. */
  predicate PerpClosed(t: Trade, h: Position, p: PerpCloseArgs, t': Trade, e: Event) {
    && ClosedOut(t, h, p.price, p.at, t', e) && ClosingEvent(t, p.at, e)
    && e.fee == h.size * (p.costBp + p.slippageBp) / 10000.0
    && Gained(t.direction, h.basis, p.price, h.qty, e.realizedDelta + e.fee - h.size * p.fundingPct / 100.0)
    && t'.pnlPct == Some(if h.size > 0.0 then e.realizedDelta / h.size * 100.0 else 0.0)
  }

  lemma PerpClosedRow(t: Trade, h: Position, p: PerpCloseArgs)
    requires Holds(t, h) && !t.direction.Other?
    ensures var c := PerpCloseBooking(PerpComponents(t, p).value, p);
      PerpClosed(t, h, p, ClosedTrade(t, c), CloseEventOf(SnapshotOf(t), c))
  {
    DayOf(p.at);
  }

  lemma ClosePerpWrites(db: Db, id: nat, h: Position, p: PerpCloseArgs)
    requires Agrees(db) && (IsOpen(db, id) ==> Holds(db.trades[id], h))
    ensures var (db', r) := ClosePerp(db, id, p);
      && (r.NotOpen? <==> !IsOpen(db, id))
      && (r.Closed? <==> IsOpen(db, id) && !db.trades[id].direction.Other? && db.trades[id].entryTime <= p.at <= p.now
                         && forall k :: 0 <= k < |EventsOf(db, id)| ==> EventsOf(db, id)[k].time <= p.at)
      && if r.Closed? then WritesRow(db, db', id) && PerpClosed(db.trades[id], h, p, db'.trades[id], LastEvent(db', id))
         else db' == db
  {
    ClosePerpLaw(db, id, p);
    if ClosePerp(db, id, p).1.Closed? {
      PerpClosedRow(db.trades[id], h, p);
      PersistCloseLaw(db, id, PerpCloseBooking(PerpComponents(db.trades[id], p).value, p));
    }
  }

  /** Funding less fees and slippage, all on the entry size. */
  predicate CarryClosed(t: Trade, h: Position, c: CarryCloseArgs, t': Trade, e: Event) {
    && ClosedOut(t, h, c.price, c.now, t', e) && ClosingEvent(t, c.now, e)
    && e.fee == t.size * (c.costPct + c.slippagePct) / 100.0
    && e.realizedDelta == t.size * c.fundingPct / 100.0 - e.fee
    && t'.pnlPct == Some(c.fundingPct - c.costPct - c.slippagePct)
  }

  lemma CarryClosedRow(t: Trade, h: Position, c: CarryCloseArgs)
    requires Holds(t, h)
    ensures CarryClosed(t, h, c, ClosedTrade(t, CarryBooking(t.size, c)), CloseEventOf(SnapshotOf(t), CarryBooking(t.size, c)))
  {
    DayOf(c.now);
    Less(t.size, c.fundingPct, c.costPct + c.slippagePct);
  }

  lemma Less(s: real, x: real, y: real)
    ensures s * (x - y) / 100.0 == s * x / 100.0 - s * y / 100.0
  {
    assert s * (x - y) == s * x - s * y;
  }

  lemma CloseCarryWrites(db: Db, id: nat, h: Position, c: CarryCloseArgs)
    requires Agrees(db) && (IsOpen(db, id) ==> Holds(db.trades[id], h))
    ensures var (db', closed) := CloseCarry(db, id, c);
      && (closed <==> IsOpen(db, id))
      && if closed then WritesRow(db, db', id) && CarryClosed(db.trades[id], h, c, db'.trades[id], LastEvent(db', id))
         else db' == db
  {
    CloseCarryLaw(db, id, c);
    if IsOpen(db, id) {
      CarryClosedRow(db.trades[id], h, c);
      PersistCloseLaw(db, id, CarryBooking(db.trades[id].size, c));
    }
  }

  // ---- flip ----

  /** The closing leg: price P&L less half the fee. */
  predicate FlippedOut(t: Trade, h: Position, price: real, fee: real, at: Stamp, t': Trade, e: Event) {
    && ClosedOut(t, h, price, at.time, t', e) && e.kind.FlipEvent? && OnDay(e, at.time, at.date)
    && e.fee == fee / 2.0 && Gained(t.direction, h.basis, price, h.qty, e.realizedDelta + fee / 2.0)
    && e.marginDelta == -(if h.size != 0.0 then h.size else t.size)
    && t'.pnlPct == Some(if h.size != 0.0 then (h.realized + e.realizedDelta) / h.size * 100.0 else 0.0)
  }

  /** The successor: the other way, the same quantity and leverage at the flip's price. */
  predicate Successor(t: Trade, h: Position, id: nat, d: Direction, price: real, time: int, n: Trade) {
    && n.key == None && n.parent == Some(id) && Fresh(n)
    && (n.variant, n.strategy, n.asset, n.direction) == (t.variant, t.strategy, t.asset, d)
    && (n.entryTime, n.entryPrice, n.leverage) == (time, price, h.leverage) && n.size == h.qty * price
    && n.qty == if price > 0.0 then h.qty else 0.0
  }

  predicate FlippedPair(db: Db, db': Db, id: nat, n: nat, h: Position, d: Direction, price: real, fee: real, at: Stamp) {
    && id in db.trades && id in db'.trades && id in db'.events && |db'.events[id]| > 0
    && db'.events[id][..|db'.events[id]| - 1] == EventsOf(db, id)
    && FlippedOut(db.trades[id], h, price, fee, at, db'.trades[id], LastEvent(db', id))
    && n !in db.trades && n in db'.trades && n in db'.events && |db'.events[n]| == 1
    && db'.trades.Keys == db.trades.Keys + {n}
    && Successor(db.trades[id], h, id, d, price, at.time, db'.trades[n])
    && Opening(db'.trades[n], db'.events[n][0], at.time, at.date, fee / 2.0)
  }

  lemma FlippedRow(t: Trade, h: Position, price: real, fee: real, at: Stamp)
    requires Holds(t, h)
    ensures FlippedOut(t, h, price, fee, at, FlippedTrade(t, price, fee, at.time), FlipEventOf(t, price, fee, at))
  {
    DayOf(at.time);
  }

  lemma SuccessorRow(t: Trade, h: Position, id: nat, d: Direction, price: real, fee: real, at: Stamp)
    requires Holds(t, h)
    ensures var n := ReopenedTrade(t, id, d, price, at.time);
      Successor(t, h, id, d, price, at.time, n) && Opening(n, OpenEventOf(n, at.time, StampDate(at), fee / 2.0), at.time, at.date, fee / 2.0)
  {
    ReadsAs(t, h);
    SameProduct(CurrentQty(t), h.qty, price);
    DayOf(at.time);
    QtyBack(h.qty, price);
  }

  lemma QtyBack(qty: real, price: real)
    ensures QtyFor(qty * price, price) == if price > 0.0 then qty else 0.0
  {}

  /** What a flip leaves is two rows: the old leg closed, and the successor. */
  lemma FlipLeaves(db: Db, id: nat, d: Direction, price: real, fee: real, at: Stamp)
    requires Agrees(db) && Flips(db, id, d)
    ensures var t, n := db.trades[id], NextId(db.trades);
      var s := ReopenedTrade(t, id, d, price, at.time);
      Flip(db, id, d, price, fee, at)
      == (Db(db.trades[id := FlippedTrade(t, price, fee, at.time)][n := s],
             db.events[id := EventsOf(db, id) + [FlipEventOf(t, price, fee, at)]]
                      [n := [OpenEventOf(s, at.time, StampDate(at), fee / 2.0)]]),
          Flipped(n))
  {
    FlipLaw(db, id, d, price, fee, at);
    FlipLegLaw(db, id, price, fee, at);
    ReopenLaw(FlipLeg(db, id, price, fee, at), db.trades[id], id, d, price, fee, at);
  }

  /** Which rows and events that is, wherever the successor goes. */
  lemma TwoRows(db: Db, id: nat, n: nat, t: Trade, e: Event, s: Trade, o: Event)
    requires id in db.trades && n !in db.trades && id != n
    ensures var db' := Db(db.trades[id := t][n := s], db.events[id := EventsOf(db, id) + [e]][n := [o]]);
      && db'.trades.Keys == db.trades.Keys + {n} && db'.trades[id] == t && db'.trades[n] == s
      && db'.events[n] == [o] && EventsOf(db', id) == EventsOf(db, id) + [e]
      && id in db'.events && LastEvent(db', id) == e
  {}

  /** Refused on a direction that is neither, nothing on a row that is not open or already
      that way; otherwise one row closed and one opened. */
  lemma FlipWrites(db: Db, id: nat, h: Position, d: Direction, price: real, fee: real, at: Stamp)
    requires Agrees(db) && (IsOpen(db, id) ==> Holds(db.trades[id], h))
    ensures var (db', r) := Flip(db, id, d, price, fee, at);
      && (r.BadDirection? <==> d != Long && d != Short)
      && (r.Flipped? <==> IsOpen(db, id) && (d == Long || d == Short) && db.trades[id].direction != d)
      && if r.Flipped? then FlippedPair(db, db', id, r.newId, h, d, price, fee, at) else db' == db
  {
    FlipLaw(db, id, d, price, fee, at);
    if Flips(db, id, d) {
      var t, n := db.trades[id], NextId(db.trades);
      var s := ReopenedTrade(t, id, d, price, at.time);
      FlippedRow(t, h, price, fee, at);
      SuccessorRow(t, h, id, d, price, fee, at);
      FlipLeaves(db, id, d, price, fee, at);
      TwoRows(db, id, n, FlippedTrade(t, price, fee, at.time), FlipEventOf(t, price, fee, at),
              s, OpenEventOf(s, at.time, StampDate(at), fee / 2.0));
    }
  }
}
