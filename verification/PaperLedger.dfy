/** The ledger updated in place: two tables, and the operations of
    strategies/trades.py as transactions over them. A transaction that ends
    without a commit puts back the tables it saved. Each method is proved equal
    to the function of the same operation in TradeLedger.dfy, and keeps
    Agrees, the class invariant. */
module PaperLedger {
  import opened Prelude
  import opened TradeLedger
  import opened LedgerLaws
  import opened LedgerRuns

  class Ledger {
    var trades: map<nat, Trade>
    var events: map<nat, seq<Event>>

    ghost function View(): Db
      reads this
    {
      Db(trades, events)
    }

    ghost predicate Valid()
      reads this
    {
      Agrees(View())
    }

    constructor ()
      ensures Valid() && View() == Db(map[], map[])
    {
      trades, events := map[], map[];
    }

    /** SELECT MAX(id) + 1, 1 when the table is empty. */
    method NextSjId() returns (n: nat)
      ensures n == NextId(trades)
    {
      n := 1;
      var ids := trades.Keys;
      var first := true;
      while ids != {}
        invariant ids <= trades.Keys
        invariant first <==> ids == trades.Keys
        invariant first ==> n == 1
        invariant !first ==> n >= 1 && n - 1 in trades
        invariant forall i :: i in trades && i !in ids ==> i < n
        decreases ids
      {
        var i :| i in ids;
        if first || n <= i { n := i + 1; }
        first := false;
        ids := ids - {i};
      }
    }

    /** SELECT id WHERE unique_key = key. */
    method FindKey(key: string) returns (found: Option<nat>)
      requires Valid()
      ensures found.Some? <==> KeyTaken(View(), key)
      ensures found.Some? ==> found.value == HolderOf(View(), key)
    {
      var ids := trades.Keys;
      while ids != {}
        invariant ids <= trades.Keys
        invariant forall i :: i in trades && i !in ids ==> trades[i].key != Some(key)
        decreases ids
      {
        var i :| i in ids;
        if trades[i].key == Some(key) {
          assert KeyTaken(View(), key);
          return Some(i);
        }
        ids := ids - {i};
      }
      return None;
    }

    /** INSERT the event, or answer false on a repeated (trade, date, kind). */
    method RecordAdjustment(id: nat, e: Event) returns (recorded: bool)
      modifies this`events
      ensures recorded <==> !HasEvent(EventsOf(old(View()), id), e.kind, e.date)
      ensures View() == Record(old(View()), id, e).GetOr(old(View()))
    {
      var es := if id in events then events[id] else [];
      for i := 0 to |es|
        invariant forall k :: 0 <= k < i ==> es[k].kind != e.kind || es[k].date != e.date
      {
        if es[i].kind == e.kind && es[i].date == e.date { return false; }
      }
      events := events[id := es + [e]];
      return true;
    }

    /** The size and quantity an open computes from capital, allocation and leverage. */
    static method SizeOf(a: OpenArgs) returns (size: real, qty: real)
      ensures size == PaperSize(a.capital, a.allocationPct, a.leverage) && qty == QtyFor(size, a.entryPrice)
    {
      size := a.capital * (a.allocationPct / 100.0) * a.leverage;
      qty := if a.entryPrice > 0.0 then size / a.entryPrice else 0.0;
    }

    /** None when this process is standing down; no entry is made then. */
    method OpenPaperTrade(a: OpenArgs, standingDown: bool) returns (r: Option<nat>)
      requires Valid()
      modifies this
      ensures Valid()
      ensures standingDown ==> r == None && View() == old(View())
      ensures !standingDown ==> r == Some(OpenTrade(old(View()), a).1) && View() == OpenTrade(old(View()), a).0
    {
      if standingDown { return None; }
      OpenLaw(View(), a);
      var size, qty := SizeOf(a);
      var key := BuildUniqueKey(a.variant, a.sleeve, a.asset, a.keyTime);
      var existing := FindKey(key);
      if existing.Some? { return existing; }
      var id := NextSjId();
      var row := Trade(Some(key), a.variant, Upper(a.sleeve), a.asset, a.direction, true,
                       a.time, a.entryPrice, qty, size, a.leverage,
                       Some(qty), Some(size), Some(a.leverage), Some(a.entryPrice), Some(0.0),
                       None, None, None, None, None);
      assert row == OpenedTrade(a);
      trades := trades[id := row];
      var _ := RecordAdjustment(id, OpenEventOf(row, a.time, EventDate(a.time, None), 0.0));
      return Some(id);
    }

    /** What a resize books, and the basis it leaves. */
    static method ResizeBooking(row: Trade, newQty: real, price: real, fee: real) returns (realizedDelta: real, newAvg: real)
      ensures realizedDelta == ScaleRealized(row, newQty, price, fee) && newAvg == ScaleBasis(row, newQty, price)
    {
      var prevQty, prevAvg := CurrentQty(row), Basis(row);
      var delta := newQty - prevQty;
      realizedDelta, newAvg := 0.0, prevAvg;
      if delta < 0.0 && prevAvg > 0.0 {
        realizedDelta := -delta * Move(row.direction, prevAvg, price) - fee;
      } else if delta > 0.0 && newQty > 0.0 {
        newAvg := (prevQty * prevAvg + delta * price) / newQty;
      }
    }

    /** The row the UPDATE writes. */
    static method ResizedRow(row: Trade, newQty: real, price: real, fee: real) returns (r: Trade)
      ensures r == ScaledTrade(row, newQty, price, fee)
    {
      var realizedDelta, newAvg := ResizeBooking(row, newQty, price, fee);
      r := row.(currentQty := Some(newQty), currentSize := Some(newQty * price),
                realized := Some(Realized(row) + realizedDelta), avgEntry := Some(newAvg));
    }

    /** The UPDATE of a row and its event; a refused event takes the UPDATE back. */
    method UpdateAndRecord(id: nat, row: Trade, e: Event) returns (recorded: bool)
      requires id in trades
      modifies this
      ensures recorded == !HasEvent(EventsOf(old(View()), id), e.kind, e.date)
      ensures View() == if recorded then Appended(old(View()), id, row, e) else old(View())
    {
      var saved := trades;
      trades := trades[id := row];
      recorded := RecordAdjustment(id, e);
      if !recorded { trades := saved; }
    }

    method ApplyScale(id: nat, newQty: real, price: real, fee: real, at: Stamp) returns (recorded: bool)
      requires Valid()
      modifies this
      ensures Valid()
      ensures (View(), recorded) == Scale(old(View()), id, newQty, price, fee, at)
    {
      StepAgrees(View(), OpScale(id, newQty, price, fee, at));
      if id !in trades || !trades[id].open { return false; }
      var row := trades[id];
      if Abs(newQty - CurrentQty(row)) < NO_OP { return false; }
      var resized := ResizedRow(row, newQty, price, fee);
      recorded := UpdateAndRecord(id, resized, ScaleEventOf(row, newQty, price, fee, at));
    }

    method ApplyLeverageAdjust(id: nat, newLeverage: real, price: real, fee: real, at: Stamp) returns (recorded: bool)
      requires Valid()
      modifies this
      ensures Valid()
      ensures (View(), recorded) == AdjustLeverage(old(View()), id, newLeverage, price, fee, at)
    {
      LeverageLaw(View(), id, newLeverage, price, fee, at);
      if id !in trades || !trades[id].open { return false; }
      var row := trades[id];
      if Abs(newLeverage - CurrentLeverage(row)) < NO_OP { return false; }
      recorded := UpdateAndRecord(id, ReleveredTrade(row, newLeverage, price), LeverageEventOf(row, newLeverage, price, fee, at));
    }

    method ApplyFlip(id: nat, newDirection: Direction, price: real, fee: real, at: Stamp) returns (r: FlipResult)
      requires Valid()
      modifies this
      ensures Valid()
      ensures (View(), r) == Flip(old(View()), id, newDirection, price, fee, at)
    {
      if newDirection.Other? { return BadDirection; }
      if id !in trades || !trades[id].open { return NotFlipped; }
      var row := trades[id];
      if row.direction == newDirection { return NotFlipped; }
      ghost var before := View();
      FlipLaw(before, id, newDirection, price, fee, at);
      trades := trades[id := FlippedTrade(row, price, fee, at.time)];
      var _ := RecordAdjustment(id, FlipEventOf(row, price, fee, at));
      assert View() == FlipLeg(before, id, price, fee, at);
      ReopenLaw(View(), row, id, newDirection, price, fee, at);
      var newId := NextSjId();
      var successor := ReopenedTrade(row, id, newDirection, price, at.time);
      trades := trades[newId := successor];
      var _ := RecordAdjustment(newId, OpenEventOf(successor, at.time, StampDate(at), fee / 2.0));
      return Flipped(newId);
    }

    /** False when no open row matched: then neither table changes. */
    method PersistCloseRow(id: nat, c: CloseArgs) returns (closed: bool)
      requires Valid()
      modifies this
      ensures Valid()
      ensures (View(), closed) == PersistClose(old(View()), id, c)
    {
      PersistCloseLaw(View(), id, c);
      if id !in trades || !trades[id].open { return false; }
      var row := trades[id];
      trades := trades[id := ClosedFrom(row, SnapshotOf(row), c)];
      var _ := RecordAdjustment(id, CloseEventOf(SnapshotOf(row), c));
      return true;
    }

    /** The event-time guard of a perp close. */
    static method ExitTimeOk(row: Trade, es: seq<Event>, at: int, now: int) returns (ok: bool)
      ensures ok <==> ExitTimeAllowed(row, es, at, now)
    {
      if at < row.entryTime || now < at { return false; }
      for i := 0 to |es|
        invariant forall k :: 0 <= k < i ==> es[k].time <= at
      {
        if es[i].time > at { return false; }
      }
      return true;
    }

    /** Refused stands for the ValueErrors: nothing is committed. */
    method ClosePerpTrade(id: nat, p: PerpCloseArgs) returns (r: CloseResult)
      requires Valid()
      modifies this
      ensures Valid()
      ensures (View(), r) == ClosePerp(old(View()), id, p)
    {
      if id !in trades || !trades[id].open { return NotOpen; }
      var row := trades[id];
      var inTime := ExitTimeOk(row, EventsOf(Db(trades, events), id), p.at, p.now);
      if !inTime { return Refused; }
      var components := PerpComponents(row, p);
      if components.None? { return Refused; }
      var _ := PersistCloseRow(id, PerpCloseBooking(components.value, p));
      return Closed;
    }

    method CloseCarryTrade(id: nat, c: CarryCloseArgs) returns (closed: bool)
      requires Valid()
      modifies this
      ensures Valid()
      ensures (View(), closed) == CloseCarry(old(View()), id, c)
    {
      if id !in trades { return false; }
      var totalCost := c.costPct + c.slippagePct;
      var net := c.fundingPct - totalCost;
      var size := trades[id].size;
      var booking := CloseArgs(c.price, c.now, size * net / 100.0, net, size * totalCost / 100.0);
      assert booking == CarryBooking(size, c);
      closed := PersistCloseRow(id, booking);
    }
  }
}
