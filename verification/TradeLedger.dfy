/** The paper-trade ledger: a mutable row per trade beside an append-only list
    of adjustment events per trade, and the operations that change both
    (strategies/trades.py, strategies/support/trade_adjustments.py).

    Prices, quantities and money are reals. Times are epoch seconds; an event's
    date is its UTC day number unless the caller supplies one. A nullable column
    is an Option. The operations are functions from one database value to the
    next; the class in PaperLedger.dfy performs them in place. */
module TradeLedger {
  import opened Prelude

  /** The direction column; Other is any text but LONG and SHORT. */
  datatype Direction = Long | Short | Other

  datatype EventKind = OpenEvent | ScaleUpEvent | ScaleDownEvent | LeverageEvent | FlipEvent | CloseEvent

  /** One row of trade_adjustments; its seq is its index in the trade's list. */
  datatype Event = Event(
    kind: EventKind, time: int, date: int,
    qtyDelta: real, qtyAfter: real, marginDelta: real, sizeAfter: real,
    price: real, fee: real, realizedDelta: real)

  datatype Trade = Trade(
    key: Option<string>, variant: string, strategy: string, asset: string,
    direction: Direction, open: bool,
    entryTime: int, entryPrice: real, qty: real, size: real, leverage: real,
    currentQty: Option<real>, currentSize: Option<real>, currentLeverage: Option<real>,
    avgEntry: Option<real>, realized: Option<real>,
    pnl: Option<real>, pnlPct: Option<real>, exitPrice: Option<real>, exitTime: Option<int>,
    parent: Option<nat>)

  datatype Db = Db(trades: map<nat, Trade>, events: map<nat, seq<Event>>)

  const SECONDS_PER_DAY := 86400
  const NO_OP := 0.000000000001

  // ---- column fallbacks ----

  function CurrentQty(t: Trade): real { t.currentQty.GetOr(t.qty) }
  function CurrentSize(t: Trade): real { t.currentSize.GetOr(t.size) }
  function Basis(t: Trade): real { t.avgEntry.GetOr(t.entryPrice) }
  function Realized(t: Trade): real { t.realized.GetOr(0.0) }

  function CurrentLeverage(t: Trade): real {
    match t.currentLeverage
    case Some(l) => l
    case None => if t.leverage == 0.0 then 1.0 else t.leverage
  }

  /** A quantity in the event list: an increase of a LONG is a purchase, of anything
      else a sale. */
  function Signed(d: Direction, qty: real): real { if d.Long? then qty else -qty }

  /** The profit on one unit when the price moves from basis to price. */
  function Move(d: Direction, basis: real, price: real): real {
    if d.Short? then -(price - basis) else price - basis
  }

  function EventDate(time: int, given: Option<int>): int {
    given.GetOr(time / SECONDS_PER_DAY)
  }

  function EventsOf(db: Db, id: nat): seq<Event> {
    if id in db.events then db.events[id] else []
  }

  predicate IsOpen(db: Db, id: nat) {
    id in db.trades && db.trades[id].open
  }

  // ---- record_adjustment ----

  predicate HasEvent(es: seq<Event>, kind: EventKind, date: int) {
    exists i :: 0 <= i < |es| && es[i].kind == kind && es[i].date == date
  }

  /** Append at the next seq, or refuse a repeated (trade, date, kind). */
  function Record(db: Db, id: nat, e: Event): Option<Db> {
    if HasEvent(EventsOf(db, id), e.kind, e.date) then None
    else Some(db.(events := db.events[id := EventsOf(db, id) + [e]]))
  }

  // ---- open_paper_trade ----

  function UpperChar(c: char): char { if 'a' <= c <= 'z' then c - 'a' + 'A' else c }

  /** str.upper() on the letters a sleeve name is made of. */
  function Upper(s: string): (r: string)
    ensures |r| == |s|
  {
    seq(|s|, i requires 0 <= i < |s| => UpperChar(s[i]))
  }

  function BuildUniqueKey(variant: string, sleeve: string, asset: string, time: string): string {
    variant + "|" + Upper(sleeve) + "|" + asset + "|" + time
  }

  datatype OpenArgs = OpenArgs(
    variant: string, capital: real, sleeve: string, asset: string, direction: Direction,
    entryPrice: real, allocationPct: real, leverage: real, time: int, keyTime: string)

  function KeyOf(a: OpenArgs): string {
    BuildUniqueKey(a.variant, a.sleeve, a.asset, a.keyTime)
  }

  function PaperSize(capital: real, allocationPct: real, leverage: real): real {
    capital * (allocationPct / 100.0) * leverage
  }

  function QtyFor(size: real, price: real): real {
    if price > 0.0 then size / price else 0.0
  }

  /** The id after the largest one stored, 1 for an empty table. */
  ghost function NextId(trades: map<nat, Trade>): (n: nat)
    ensures forall i :: i in trades ==> i < n
    ensures n >= 1 && n !in trades
    ensures trades.Keys == {} ==> n == 1
    ensures trades.Keys != {} ==> n - 1 in trades
  {
    if trades.Keys == {} then 1 else MaxOf(trades.Keys) + 1
  }

  ghost predicate KeyTaken(db: Db, key: string) {
    exists i :: i in db.trades && db.trades[i].key == Some(key)
  }

  ghost function HolderOf(db: Db, key: string): (i: nat)
    requires KeyTaken(db, key)
    ensures i in db.trades && db.trades[i].key == Some(key)
  {
    var i :| i in db.trades && db.trades[i].key == Some(key); i
  }

  function OpenedTrade(a: OpenArgs): Trade {
    var size := PaperSize(a.capital, a.allocationPct, a.leverage);
    var qty := QtyFor(size, a.entryPrice);
    Trade(Some(KeyOf(a)), a.variant, Upper(a.sleeve), a.asset, a.direction, true,
          a.time, a.entryPrice, qty, size, a.leverage,
          Some(qty), Some(size), Some(a.leverage), Some(a.entryPrice), Some(0.0),
          None, None, None, None, None)
  }

  function OpenEventOf(t: Trade, time: int, date: int, fee: real): Event {
    Event(OpenEvent, time, date, Signed(t.direction, t.qty), t.qty,
          t.size, t.size, t.entryPrice, fee, 0.0)
  }

  /** A new row under the next id with its OPEN event; a refused event does not
      stop the insert. */
  ghost function InsertTrade(db: Db, t: Trade, e: Event): (r: (Db, nat)) {
    var id := NextId(db.trades);
    var inserted := db.(trades := db.trades[id := t]);
    (Record(inserted, id, e).GetOr(inserted), id)
  }

  /** One write transaction: the existing id of the key, or a new row and its
      OPEN event. */
  ghost function OpenTrade(db: Db, a: OpenArgs): (r: (Db, nat)) {
    if KeyTaken(db, KeyOf(a)) then (db, HolderOf(db, KeyOf(a)))
    else
      var t := OpenedTrade(a);
      InsertTrade(db, t, OpenEventOf(t, a.time, EventDate(a.time, None), 0.0))
  }

  // ---- apply_scale ----

  datatype Stamp = Stamp(time: int, date: Option<int>)

  function StampDate(s: Stamp): int { EventDate(s.time, s.date) }

  /** What a resize books on the closed slice. */
  function ScaleRealized(t: Trade, newQty: real, price: real, fee: real): real {
    var delta := newQty - CurrentQty(t);
    if delta < 0.0 && Basis(t) > 0.0 then -delta * Move(t.direction, Basis(t), price) - fee else 0.0
  }

  /** The weighted average basis after a resize. */
  function ScaleBasis(t: Trade, newQty: real, price: real): real {
    var delta := newQty - CurrentQty(t);
    if delta < 0.0 && Basis(t) > 0.0 then Basis(t)
    else if delta > 0.0 && newQty > 0.0 then (CurrentQty(t) * Basis(t) + delta * price) / newQty
    else Basis(t)
  }

  function ScaledTrade(t: Trade, newQty: real, price: real, fee: real): Trade {
    t.(currentQty := Some(newQty), currentSize := Some(newQty * price),
       realized := Some(Realized(t) + ScaleRealized(t, newQty, price, fee)),
       avgEntry := Some(ScaleBasis(t, newQty, price)))
  }

  function ScaleEventOf(t: Trade, newQty: real, price: real, fee: real, at: Stamp): Event {
    var delta := newQty - CurrentQty(t);
    Event(if delta > 0.0 then ScaleUpEvent else ScaleDownEvent, at.time, StampDate(at),
          Signed(t.direction, delta), newQty, newQty * price - CurrentSize(t), newQty * price,
          price, fee, ScaleRealized(t, newQty, price, fee))
  }

  function Scale(db: Db, id: nat, newQty: real, price: real, fee: real, at: Stamp): (Db, bool) {
    if !IsOpen(db, id) then (db, false)
    else
      var t := db.trades[id];
      if Abs(newQty - CurrentQty(t)) < NO_OP then (db, false)
      else
        var updated := db.(trades := db.trades[id := ScaledTrade(t, newQty, price, fee)]);
        match Record(updated, id, ScaleEventOf(t, newQty, price, fee, at))
        case None => (db, false)
        case Some(db') => (db', true)
  }

  // ---- apply_leverage_adjust ----

  /** The collateral a notional needs; a leverage of zero or less counts as one. */
  function Collateral(notional: real, leverage: real): real {
    if leverage > 0.0 then notional / leverage else notional
  }

  function ReleveredTrade(t: Trade, newLeverage: real, price: real): Trade {
    t.(currentLeverage := Some(newLeverage), currentSize := Some(CurrentQty(t) * price))
  }

  function LeverageEventOf(t: Trade, newLeverage: real, price: real, fee: real, at: Stamp): Event {
    var notional := CurrentQty(t) * price;
    Event(LeverageEvent, at.time, StampDate(at), 0.0, CurrentQty(t),
          Collateral(notional, newLeverage) - Collateral(notional, CurrentLeverage(t)), notional,
          price, fee, 0.0)
  }

  function AdjustLeverage(db: Db, id: nat, newLeverage: real, price: real, fee: real, at: Stamp): (Db, bool) {
    if !IsOpen(db, id) then (db, false)
    else
      var t := db.trades[id];
      if Abs(newLeverage - CurrentLeverage(t)) < NO_OP then (db, false)
      else
        var updated := db.(trades := db.trades[id := ReleveredTrade(t, newLeverage, price)]);
        match Record(updated, id, LeverageEventOf(t, newLeverage, price, fee, at))
        case None => (db, false)
        case Some(db') => (db', true)
  }

  // ---- apply_flip ----

  datatype FlipResult = Flipped(newId: nat) | NotFlipped | BadDirection

  function FlipRealized(t: Trade, price: real, fee: real): real {
    CurrentQty(t) * Move(t.direction, Basis(t), price) - fee / 2.0
  }

  function FlippedTrade(t: Trade, price: real, fee: real, time: int): Trade {
    var total := Realized(t) + FlipRealized(t, price, fee);
    var reference := CurrentSize(t);
    t.(open := false, exitTime := Some(time), exitPrice := Some(price), pnl := Some(total),
       pnlPct := Some(if reference != 0.0 then total / reference * 100.0 else 0.0),
       currentQty := Some(0.0), realized := Some(total))
  }

  function FlipEventOf(t: Trade, price: real, fee: real, at: Stamp): Event {
    var recordedSize := if t.currentSize.Some? && t.currentSize.value != 0.0 then t.currentSize.value else t.size;
    Event(FlipEvent, at.time, StampDate(at), -Signed(t.direction, CurrentQty(t)), 0.0,
          -recordedSize, 0.0, price, fee / 2.0, FlipRealized(t, price, fee))
  }

  function ReopenedTrade(t: Trade, id: nat, direction: Direction, price: real, time: int): Trade {
    var size := CurrentQty(t) * price;
    var qty := QtyFor(size, price);
    Trade(None, t.variant, t.strategy, t.asset, direction, true,
          time, price, qty, size, CurrentLeverage(t),
          Some(qty), Some(size), Some(CurrentLeverage(t)), Some(price), Some(0.0),
          None, None, None, None, Some(id))
  }

  /** The closing leg: the recording's refusal is not checked. */
  function FlipLeg(db: Db, id: nat, price: real, fee: real, at: Stamp): Db
    requires id in db.trades
  {
    var t := db.trades[id];
    var closed := db.(trades := db.trades[id := FlippedTrade(t, price, fee, at.time)]);
    Record(closed, id, FlipEventOf(t, price, fee, at)).GetOr(closed)
  }

  /** Close and reopen the other way, at the same notional and leverage. */
  ghost function Flip(db: Db, id: nat, direction: Direction, price: real, fee: real, at: Stamp): (Db, FlipResult) {
    if direction.Other? then (db, BadDirection)
    else if !IsOpen(db, id) || db.trades[id].direction == direction then (db, NotFlipped)
    else
      var successor := ReopenedTrade(db.trades[id], id, direction, price, at.time);
      var (db', newId) := InsertTrade(FlipLeg(db, id, price, fee, at), successor,
                                      OpenEventOf(successor, at.time, StampDate(at), fee / 2.0));
      (db', Flipped(newId))
  }

  // ---- compute_perp_close, persist_close and the two end-to-end closes ----

  datatype CloseComponents = CloseComponents(pricePnl: real, cost: real, funding: real, pnl: real, pnlPct: real)

  /** None stands for the ValueError on a direction that is not LONG or SHORT. */
  function ComputePerpClose(direction: Direction, entry: real, exit: real, qty: real, size: real,
                            costBp: real, slippageBp: real, fundingPct: real): Option<CloseComponents>
  {
    if direction.Other? then None
    else
      var pricePnl := if direction.Long? then (exit - entry) * qty else (entry - exit) * qty;
      var cost := size * (costBp + slippageBp) / 10000.0;
      var funding := size * fundingPct / 100.0;
      var pnl := pricePnl - cost + funding;
      Some(CloseComponents(pricePnl, cost, funding, pnl, if size > 0.0 then pnl / size * 100.0 else 0.0))
  }

  /** What persist_close reads before its conditional UPDATE. */
  datatype Snapshot = Snapshot(prior: real, remaining: real, direction: Direction, entrySize: real)

  function SnapshotOf(t: Trade): Snapshot {
    Snapshot(Realized(t), CurrentQty(t), t.direction, t.size)
  }

  datatype CloseArgs = CloseArgs(price: real, time: int, pnl: real, pnlPct: real, fee: real)

  function ClosedFrom(t: Trade, s: Snapshot, c: CloseArgs): Trade {
    var total := s.prior + c.pnl;
    t.(open := false, exitTime := Some(c.time), exitPrice := Some(c.price), pnl := Some(total),
       pnlPct := Some(c.pnlPct), currentQty := Some(0.0), realized := Some(total))
  }

  function CloseEventOf(s: Snapshot, c: CloseArgs): Event {
    Event(CloseEvent, c.time, EventDate(c.time, None), -Signed(s.direction, s.remaining), 0.0,
          -s.entrySize, 0.0, c.price, c.fee, c.pnl)
  }

  /** The UPDATE ... WHERE status='open' and its CLOSE event, from values read
      earlier; nothing at all when the row is no longer open. */
  function CommitClose(db: Db, id: nat, s: Snapshot, c: CloseArgs): (Db, bool) {
    if !IsOpen(db, id) then (db, false)
    else
      var updated := db.(trades := db.trades[id := ClosedFrom(db.trades[id], s, c)]);
      (Record(updated, id, CloseEventOf(s, c)).GetOr(updated), true)
  }

  function PersistClose(db: Db, id: nat, c: CloseArgs): (Db, bool) {
    if !IsOpen(db, id) then (db, false) else CommitClose(db, id, SnapshotOf(db.trades[id]), c)
  }

  datatype PerpCloseArgs = PerpCloseArgs(
    price: real, at: int, now: int, costBp: real, slippageBp: real, fundingPct: real)

  datatype CloseResult = Closed | NotOpen | Refused

  predicate ExitTimeAllowed(t: Trade, es: seq<Event>, at: int, now: int) {
    t.entryTime <= at <= now && forall i :: 0 <= i < |es| ==> es[i].time <= at
  }

  function PerpComponents(t: Trade, p: PerpCloseArgs): Option<CloseComponents> {
    ComputePerpClose(t.direction, Basis(t), p.price, CurrentQty(t), CurrentSize(t),
                     p.costBp, p.slippageBp, p.fundingPct)
  }

  function PerpCloseBooking(c: CloseComponents, p: PerpCloseArgs): CloseArgs {
    CloseArgs(p.price, p.at, c.pnl, c.pnlPct, c.cost)
  }

  function ClosePerp(db: Db, id: nat, p: PerpCloseArgs): (Db, CloseResult) {
    if !IsOpen(db, id) then (db, NotOpen)
    else if !ExitTimeAllowed(db.trades[id], EventsOf(db, id), p.at, p.now) then (db, Refused)
    else
      match PerpComponents(db.trades[id], p)
      case None => (db, Refused)
      case Some(c) => (PersistClose(db, id, PerpCloseBooking(c, p)).0, Closed)
  }

  datatype CarryCloseArgs = CarryCloseArgs(price: real, now: int, costPct: real, slippagePct: real, fundingPct: real)

  /** A carry close books funding less costs on the entry size and no price P&L. */
  function CarryBooking(size: real, c: CarryCloseArgs): CloseArgs {
    var totalCost := c.costPct + c.slippagePct;
    var net := c.fundingPct - totalCost;
    CloseArgs(c.price, c.now, size * net / 100.0, net, size * totalCost / 100.0)
  }

  function CloseCarry(db: Db, id: nat, c: CarryCloseArgs): (Db, bool) {
    if id !in db.trades then (db, false)
    else PersistClose(db, id, CarryBooking(db.trades[id].size, c))
  }
}
