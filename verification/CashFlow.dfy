/** When the booked P&L of a closed trade is exactly the cash flow of its fills,
    less the costs of reductions and of the close, plus the closing funding. */
module CashFlow {
  import opened Prelude
  import opened TradeLedger
  import opened LedgerLaws
  import opened LedgerRuns

  /** What a caller can check before the call. */
  predicate WellPriced(op: Op) {
    match op
    case OpOpen(a) => !a.direction.Other? && PaperSize(a.capital, a.allocationPct, a.leverage) >= 0.0
    case OpScale(_, q, p, _, _) => q >= 0.0 && p > 0.0
    case OpLeverage(_, _, _, _, _) => true
    case OpFlip(_, _, p, _, _) => p > 0.0
    case OpClosePerp(_, _) => true
    case OpCloseCarry(_, _) => true
  }

  predicate Sound(t: Trade) {
    !t.direction.Other? && CurrentQty(t) >= 0.0 && (CurrentQty(t) > 0.0 ==> Basis(t) > 0.0)
  }

  /** The open ones of these trades are sound. */
  ghost predicate SoundOn(db: Db, ids: iset<nat>) {
    forall i :: i in ids && i in db.trades && db.trades[i].open ==> Sound(db.trades[i])
  }

  /** With a trade, the one it was flipped from. */
  ghost predicate WithAncestors(db: Db, ids: iset<nat>) {
    forall i :: i in ids && i in db.trades && db.trades[i].parent.Some? ==> db.trades[i].parent.value in ids
  }

  /** Operations on these trades, and the open of one of them, are well priced; what is
      done to other trades does not matter. */
  ghost predicate WellPricedOn(db: Db, op: Op, ids: iset<nat>) {
    if op.OpOpen? then !KeyTaken(db, KeyOf(op.a)) && NextId(db.trades) in ids ==> WellPriced(op)
    else Target(op).value in ids ==> WellPriced(op)
  }

  lemma OpenedSound(a: OpenArgs)
    requires WellPriced(OpOpen(a))
    ensures Sound(OpenedTrade(a))
  {
    var size := PaperSize(a.capital, a.allocationPct, a.leverage);
    if a.entryPrice > 0.0 { assert size / a.entryPrice >= 0.0; }
  }

  lemma ScaledSound(t: Trade, newQty: real, price: real, fee: real)
    requires Sound(t) && newQty >= 0.0 && price > 0.0
    ensures Sound(ScaledTrade(t, newQty, price, fee))
  {
    var q, b, delta := CurrentQty(t), Basis(t), newQty - CurrentQty(t);
    if delta > 0.0 {
      assert q * b >= 0.0 && delta * price > 0.0;
      assert (q * b + delta * price) / newQty > 0.0;
    }
  }

  lemma ReopenedSound(t: Trade, id: nat, d: Direction, price: real, time: int)
    requires Sound(t) && price > 0.0 && !d.Other?
    ensures Sound(ReopenedTrade(t, id, d, price, time))
  {
    assert CurrentQty(t) * price >= 0.0;
    assert CurrentQty(t) * price / price >= 0.0;
  }

  lemma AppendedSound(db: Db, id: nat, t: Trade, e: Event, ids: iset<nat>)
    requires SoundOn(db, ids) && (id in ids && t.open ==> Sound(t))
    ensures SoundOn(Appended(db, id, t, e), ids)
  {
  }

  lemma InsertedSound(db: Db, t: Trade, e: Event, ids: iset<nat>)
    requires SoundOn(db, ids) && (NextId(db.trades) in ids ==> Sound(t))
    ensures SoundOn(Db(db.trades[NextId(db.trades) := t], db.events[NextId(db.trades) := [e]]), ids)
  {
  }

  lemma ClosedAndNewSound(db: Db, db': Db, id: nat, closed: Trade, n: nat, t: Trade, ids: iset<nat>)
    requires SoundOn(db, ids) && !closed.open && (n in ids ==> Sound(t))
    requires db'.trades == db.trades[id := closed][n := t]
    ensures SoundOn(db', ids)
  {
  }

  /** The successor is watched only with its predecessor. */
  lemma SuccessorSound(db: Db, id: nat, d: Direction, price: real, time: int, db': Db, ids: iset<nat>)
    requires id in db.trades && Sound(db.trades[id]) && (id in ids ==> price > 0.0) && !d.Other?
    requires NextId(db.trades) in db'.trades && db'.trades[NextId(db.trades)] == ReopenedTrade(db.trades[id], id, d, price, time)
    requires WithAncestors(db', ids) && NextId(db.trades) in ids
    ensures Sound(ReopenedTrade(db.trades[id], id, d, price, time))
  {
    assert id in ids;
    ReopenedSound(db.trades[id], id, d, price, time);
  }

  /** A flip writes its two rows or nothing. */
  lemma FlipWrites(db: Db, id: nat, d: Direction, price: real, fee: real, at: Stamp)
    requires Agrees(db)
    ensures var db' := Flip(db, id, d, price, fee, at).0;
            if Flips(db, id, d)
            then db'.trades == db.trades[id := FlippedTrade(db.trades[id], price, fee, at.time)]
                                        [NextId(db.trades) := ReopenedTrade(db.trades[id], id, d, price, at.time)]
            else db' == db
  {
    FlipLaw(db, id, d, price, fee, at);
    if Flips(db, id, d) { FlipRows(db, id, d, price, fee, at); }
  }

  lemma FlipSound(db: Db, id: nat, d: Direction, price: real, fee: real, at: Stamp, ids: iset<nat>)
    requires Agrees(db) && SoundOn(db, ids) && (id in ids ==> price > 0.0)
    requires WithAncestors(Flip(db, id, d, price, fee, at).0, ids)
    ensures SoundOn(Step(db, OpFlip(id, d, price, fee, at)), ids)
  {
    FlipWrites(db, id, d, price, fee, at);
    if Flips(db, id, d) {
      var t, db' := db.trades[id], Flip(db, id, d, price, fee, at).0;
      if NextId(db.trades) in ids {
        assert db'.trades[NextId(db.trades)].parent == Some(id);
        SuccessorSound(db, id, d, price, at.time, db', ids);
      }
      ClosedAndNewSound(db, db', id, FlippedTrade(t, price, fee, at.time), NextId(db.trades),
                        ReopenedTrade(t, id, d, price, at.time), ids);
    }
  }

  lemma OpenSound(db: Db, a: OpenArgs, ids: iset<nat>)
    requires Agrees(db) && SoundOn(db, ids) && WellPricedOn(db, OpOpen(a), ids)
    ensures SoundOn(Step(db, OpOpen(a)), ids)
  {
    OpenLaw(db, a);
    if !KeyTaken(db, KeyOf(a)) {
      if NextId(db.trades) in ids { OpenedSound(a); }
      InsertedSound(db, OpenedTrade(a), OpenedEvent(a), ids);
    }
  }

  lemma ScaleSound(db: Db, id: nat, newQty: real, price: real, fee: real, at: Stamp, ids: iset<nat>)
    requires SoundOn(db, ids) && (id in ids ==> newQty >= 0.0 && price > 0.0)
    ensures SoundOn(Step(db, OpScale(id, newQty, price, fee, at)), ids)
  {
    var done := ScaleAppends(db, id, newQty, price, fee, at);
    if done {
      var t := db.trades[id];
      if id in ids { ScaledSound(t, newQty, price, fee); }
      AppendedSound(db, id, ScaledTrade(t, newQty, price, fee), ScaleEventOf(t, newQty, price, fee, at), ids);
    }
  }

  lemma LeverageSound(db: Db, id: nat, newLeverage: real, price: real, fee: real, at: Stamp, ids: iset<nat>)
    requires SoundOn(db, ids)
    ensures SoundOn(Step(db, OpLeverage(id, newLeverage, price, fee, at)), ids)
  {
    var done := LeverageAppends(db, id, newLeverage, price, fee, at);
    if done {
      var t := db.trades[id];
      AppendedSound(db, id, ReleveredTrade(t, newLeverage, price), LeverageEventOf(t, newLeverage, price, fee, at), ids);
    }
  }

  lemma CloseSound(db: Db, id: nat, c: CloseArgs, ids: iset<nat>)
    requires Agrees(db) && SoundOn(db, ids)
    ensures SoundOn(PersistClose(db, id, c).0, ids)
  {
    PersistCloseLaw(db, id, c);
    if IsOpen(db, id) {
      AppendedSound(db, id, ClosedTrade(db.trades[id], c), CloseEventOf(SnapshotOf(db.trades[id]), c), ids);
    }
  }

  lemma PerpSound(db: Db, id: nat, p: PerpCloseArgs, ids: iset<nat>)
    requires Agrees(db) && SoundOn(db, ids)
    ensures SoundOn(Step(db, OpClosePerp(id, p)), ids)
  {
    if ClosePerp(db, id, p).1.Closed? {
      CloseSound(db, id, PerpCloseBooking(PerpComponents(db.trades[id], p).value, p), ids);
    }
  }

  lemma CarrySound(db: Db, id: nat, c: CarryCloseArgs, ids: iset<nat>)
    requires Agrees(db) && SoundOn(db, ids)
    ensures SoundOn(Step(db, OpCloseCarry(id, c)), ids)
  {
    if id in db.trades { CloseSound(db, id, CarryBooking(db.trades[id].size, c), ids); }
  }

  lemma StepSound(db: Db, op: Op, ids: iset<nat>)
    requires Agrees(db) && SoundOn(db, ids) && WellPricedOn(db, op, ids) && WithAncestors(Step(db, op), ids)
    ensures SoundOn(Step(db, op), ids)
  {
    match op
    case OpOpen(a) => OpenSound(db, a, ids);
    case OpScale(id, q, p, f, at) => ScaleSound(db, id, q, p, f, at, ids);
    case OpLeverage(id, l, p, f, at) => LeverageSound(db, id, l, p, f, at, ids);
    case OpFlip(id, d, p, f, at) => FlipSound(db, id, d, p, f, at, ids);
    case OpClosePerp(id, p) => PerpSound(db, id, p, ids);
    case OpCloseCarry(id, c) => CarrySound(db, id, c, ids);
  }

  /** Every operation of a run is well priced where it matters. */
  ghost predicate RunWellPricedOn(db: Db, ops: seq<Op>, ids: iset<nat>) {
    forall k :: 0 <= k < |ops| ==> WellPricedOn(Run(db, ops[..k]), ops[k], ids)
  }

  lemma AncestorsEarlier(db: Db, db': Db, ids: iset<nat>)
    requires Extends(db, db') && WithAncestors(db', ids)
    ensures WithAncestors(db, ids)
  {
    forall i | i in ids && i in db.trades && db.trades[i].parent.Some?
      ensures db.trades[i].parent.value in ids
    {
      assert SameIdentity(db.trades[i], db'.trades[i]);
    }
  }

  lemma WellPricedPrefix(db: Db, ops: seq<Op>, ids: iset<nat>)
    requires ops != [] && RunWellPricedOn(db, ops, ids)
    ensures RunWellPricedOn(db, ops[..|ops| - 1], ids)
    ensures WellPricedOn(Run(db, ops[..|ops| - 1]), ops[|ops| - 1], ids)
  {
    var init := ops[..|ops| - 1];
    forall k | 0 <= k < |init|
      ensures WellPricedOn(Run(db, init[..k]), init[k], ids)
    {
      assert init[..k] == ops[..k] && init[k] == ops[k];
    }
  }

  /** Well-priced operations keep quantities non-negative and bases positive, on any
      trades that come with those they were flipped from. */
  lemma {:induction false} RunSound(db: Db, ops: seq<Op>, ids: iset<nat>)
    requires Agrees(db) && SoundOn(db, ids) && RunWellPricedOn(db, ops, ids) && WithAncestors(Run(db, ops), ids)
    ensures SoundOn(Run(db, ops), ids)
  {
    if ops != [] {
      var init, op := ops[..|ops| - 1], ops[|ops| - 1];
      RunAgrees(db, init);
      StepExtends(Run(db, init), op);
      AncestorsEarlier(Run(db, init), Run(db, ops), ids);
      WellPricedPrefix(db, ops, ids);
      RunSound(db, init, ids);
      StepSound(Run(db, init), op, ids);
    }
  }

  /** The funding a perp close books on trade id. */
  function FundingBooked(db: Db, op: Op, id: nat): real {
    match op
    case OpClosePerp(i, p) =>
      if i == id && IsOpen(db, id) && ClosePerp(db, i, p).1.Closed? then FundingOf(db.trades[id], p) else 0.0
    case _ => 0.0
  }

  ghost function FundingSum(db: Db, ops: seq<Op>, id: nat): real {
    if ops == [] then 0.0
    else FundingSum(db, ops[..|ops| - 1], id) + FundingBooked(Run(db, ops[..|ops| - 1]), ops[|ops| - 1], id)
  }

  /** On a sound row a well-priced operation leaks nothing but closing funding. */
  lemma SoundLeak(db: Db, op: Op, id: nat, ids: iset<nat>)
    requires id in ids && SoundOn(db, ids) && WellPricedOn(db, op, ids) && !(op.OpCloseCarry? && op.id == id)
    ensures Leak(db, op, id) == FundingBooked(db, op, id)
  {
    if IsOpen(db, id) {
      assert Sound(db.trades[id]);
    }
  }

  /** No carry close of trade id. */
  predicate NoCarryClose(ops: seq<Op>, id: nat) {
    forall k :: 0 <= k < |ops| ==> !(ops[k].OpCloseCarry? && ops[k].id == id)
  }

  lemma {:induction false} LeakIsFunding(db: Db, ops: seq<Op>, id: nat, ids: iset<nat>)
    requires Agrees(db) && id in ids && SoundOn(db, ids) && RunWellPricedOn(db, ops, ids) && WithAncestors(Run(db, ops), ids)
    requires NoCarryClose(ops, id)
    ensures LeakSum(db, ops, id) == FundingSum(db, ops, id)
  {
    if ops != [] {
      var init, op := ops[..|ops| - 1], ops[|ops| - 1];
      RunAgrees(db, init);
      StepExtends(Run(db, init), op);
      AncestorsEarlier(Run(db, init), Run(db, ops), ids);
      WellPricedPrefix(db, ops, ids);
      LeakIsFunding(db, init, id, ids);
      RunSound(db, init, ids);
      SoundLeak(Run(db, init), op, id, ids);
    }
  }

  lemma NonZeroProduct(x: real, y: real)
    ensures x * y == 0.0 <==> x == 0.0 || y == 0.0
  {}

  lemma ClosedBalance(t: Trade, es: seq<Event>)
    requires TradeOk(t, es) && !t.open
    ensures t.pnl == Some(Imbalance(t, es) + Total(es, CashOf) - Total(es, CostOf))
  {
    NonZeroProduct(Signed(t.direction, CurrentQty(t)), Basis(t));
  }

  /** The cash of all fills of a trade, less the booked costs, plus something more. */
  function CashLessCosts(db: Db, id: nat, more: real): real {
    Total(EventsOf(db, id), CashOf) - Total(EventsOf(db, id), CostOf) + more
  }

  lemma ClosedPnl(db: Db, id: nat, more: real)
    requires Agrees(db) && id in db.trades && !db.trades[id].open && ImbalanceOf(db, id) == more
    ensures db.trades[id].pnl == Some(CashLessCosts(db, id, more))
  {
    ClosedBalance(db.trades[id], db.events[id]);
  }

  lemma FinalImbalance(db: Db, ops: seq<Op>, end: Db, id: nat)
    requires Agrees(db) && ImbalanceOf(db, id) == 0.0 && end == Run(db, ops)
    ensures Agrees(end) && ImbalanceOf(end, id) == LeakSum(db, ops, id)
  {
    RunMovesImbalance(db, ops, id);
    RunAgrees(db, ops);
  }

  /** Over any run at all, of any operations at any prices: the booked P&L is the cash
      flow plus the leaks of the operations, each known from the row it met. */
  lemma BookedPnlOfAnyRun(db: Db, ops: seq<Op>, end: Db, id: nat)
    requires Agrees(db) && ImbalanceOf(db, id) == 0.0 && end == Run(db, ops)
    requires id in end.trades && !end.trades[id].open
    ensures end.trades[id].pnl == Some(CashLessCosts(end, id, LeakSum(db, ops, id)))
  {
    var leaks := LeakSum(db, ops, id);
    FinalImbalance(db, ops, end, id);
    ClosedPnl(end, id, leaks);
  }

  /** Average-cost conservation: the operations on the trade and on those it was
      flipped from are well priced; the others may be anything. */
  lemma BookedPnlIsCashFlow(db: Db, ops: seq<Op>, end: Db, id: nat, ids: iset<nat>)
    requires Agrees(db) && ImbalanceOf(db, id) == 0.0 && end == Run(db, ops)
    requires id in ids && SoundOn(db, ids) && RunWellPricedOn(db, ops, ids) && WithAncestors(end, ids)
    requires NoCarryClose(ops, id)
    requires id in end.trades && !end.trades[id].open
    ensures end.trades[id].pnl == Some(CashLessCosts(end, id, FundingSum(db, ops, id)))
  {
    BookedPnlOfAnyRun(db, ops, end, id);
    LeakIsFunding(db, ops, id, ids);
  }

  lemma ProductSigns(x: real, y: real)
    ensures -x * y == -(x * y) && x * -y == -(x * y) && -x * -y == x * y
  {}

  /** An unbooked increase leaks unless the price is the basis. */
  lemma UnbookedIncrease(d: Direction, delta: real, gap: real)
    requires delta != 0.0
    ensures Signed(d, delta) * gap == 0.0 <==> gap == 0.0
  {
    NonZeroProduct(Signed(d, delta), gap);
  }

  /** An unbooked reduction leaks unless its profit is the fee. */
  lemma UnbookedReduction(d: Direction, delta: real, basis: real, price: real, fee: real)
    requires !d.Other?
    ensures Signed(d, delta) * (price - basis) + fee == 0.0 <==> -delta * Move(d, basis, price) == fee
  {
    ProductSigns(delta, price - basis);
  }

  /** When a resize leaks nothing. */
  lemma NoLeakIff(t: Trade, newQty: real, price: real, fee: real)
    requires !t.direction.Other? && newQty != CurrentQty(t)
    ensures ScaleLeak(t, newQty, price, fee) == 0.0
      <==> if newQty < CurrentQty(t) then Basis(t) > 0.0 || -(newQty - CurrentQty(t)) * Move(t.direction, Basis(t), price) == fee
           else newQty > 0.0 || price == Basis(t)
  {
    var delta := newQty - CurrentQty(t);
    if delta < 0.0 {
      UnbookedReduction(t.direction, delta, Basis(t), price, fee);
    } else {
      UnbookedIncrease(t.direction, delta, price - Basis(t));
    }
  }

  /** One resize keeps the cash-flow identity exactly when the branch of the
      code that books it is taken, or the price makes the difference vanish. */
  lemma ScaleConservesIff(t: Trade, es: seq<Event>, newQty: real, price: real, fee: real, at: Stamp)
    requires TradeOk(t, es) && t.open && !t.direction.Other? && newQty != CurrentQty(t)
    requires !HasEvent(es, ScaleEventOf(t, newQty, price, fee, at).kind, StampDate(at))
    ensures Imbalance(ScaledTrade(t, newQty, price, fee), es + [ScaleEventOf(t, newQty, price, fee, at)]) == Imbalance(t, es)
      <==> if newQty < CurrentQty(t) then Basis(t) > 0.0 || -(newQty - CurrentQty(t)) * Move(t.direction, Basis(t), price) == fee
           else newQty > 0.0 || price == Basis(t)
  {
    ScaleTradeLaw(t, es, newQty, price, fee, at);
    NoLeakIff(t, newQty, price, fee);
  }

  /** A position sold below zero and partly bought back: the purchase at 90
      against a basis of 100 realizes nothing and moves no basis. */
  lemma OversoldLeaks()
    ensures var a := OpenArgs("v", 100.0, "S", "BTC", Long, 100.0, 100.0, 1.0, 0, "k");
            var opened' := OpenedTrade(a);
            var short := ScaledTrade(opened', -1.0, 110.0, 0.0);
      && CurrentQty(opened') == 1.0
      && ScaleLeak(opened', -1.0, 110.0, 0.0) == 0.0
      && ScaleLeak(short, -0.5, 90.0, 0.0) == -5.0
  {
  }

  /** The basis after an increase is the average of the two fills' prices,
      weighted by quantity, and lies between them. */
  lemma BasisIsWeightedAverage(t: Trade, newQty: real, price: real)
    requires CurrentQty(t) >= 0.0 && newQty > CurrentQty(t)
    ensures newQty * ScaleBasis(t, newQty, price) == CurrentQty(t) * Basis(t) + (newQty - CurrentQty(t)) * price
    ensures Basis(t) <= price ==> Basis(t) <= ScaleBasis(t, newQty, price) <= price
    ensures price <= Basis(t) ==> price <= ScaleBasis(t, newQty, price) <= Basis(t)
  {
    var q, b, x := CurrentQty(t), Basis(t), ScaleBasis(t, newQty, price);
    assert newQty * x == q * b + (newQty - q) * price;
    Between(newQty, q, x, b, price);
  }

  lemma Between(n: real, q: real, x: real, b: real, p: real)
    requires 0.0 <= q < n && n * x == q * b + (n - q) * p
    ensures b <= p ==> b <= x <= p
    ensures p <= b ==> p <= x <= b
  {
    assert n * (x - b) == (n - q) * (p - b);
    assert n * (p - x) == q * (p - b);
    SignOfFactor(n, x - b, n - q, p - b);
    SignOfFactor(n, p - x, q, p - b);
  }

  lemma SignOfFactor(n: real, u: real, w: real, v: real)
    requires n > 0.0 && w >= 0.0 && n * u == w * v
    ensures v >= 0.0 ==> u >= 0.0
    ensures v <= 0.0 ==> u <= 0.0
  {
    if u < 0.0 { assert n * u < 0.0; }
    if u > 0.0 { assert n * u > 0.0; }
    if v >= 0.0 { assert w * v >= 0.0; }
    if v <= 0.0 { assert w * v <= 0.0; }
  }

  // ---- the margin column ----

  function MarginOf(e: Event): real { e.marginDelta }

  /** The margin deltas of a trade add up to its notional. */
  ghost predicate MarginsAddUp(db: Db, id: nat) {
    id in db.trades ==> Total(EventsOf(db, id), MarginOf) == CurrentSize(db.trades[id])
  }

  lemma OneEvent(e: Event)
    ensures Total([e], MarginOf) == MarginOf(e)
  {
    assert [e][..0] == [];
  }

  /** Only opens and flips make rows. */
  lemma NoNewRow(db: Db, op: Op, id: nat)
    requires !op.OpOpen? && !op.OpFlip? && id !in db.trades
    ensures id !in Step(db, op).trades
  {
  }

  lemma NewRowMargin(db: Db, op: Op, id: nat)
    requires Agrees(db) && id !in db.trades
    ensures MarginsAddUp(Step(db, op), id)
  {
    match op
    case OpOpen(a) =>
      OpenLaw(db, a);
      OneEvent(OpenedEvent(a));
    case OpFlip(i, d, p, f, at) => FlipNewRowMargin(db, i, d, p, f, at, id);
    case _ => NoNewRow(db, op, id);
  }

  lemma FlipNewRowMargin(db: Db, i: nat, d: Direction, price: real, fee: real, at: Stamp, id: nat)
    requires Agrees(db) && id !in db.trades
    ensures MarginsAddUp(Flip(db, i, d, price, fee, at).0, id)
  {
    FlipLaw(db, i, d, price, fee, at);
    if Flips(db, i, d) {
      FlipRows(db, i, d, price, fee, at);
      var t := ReopenedTrade(db.trades[i], i, d, price, at.time);
      ReopenLaw(FlipLeg(db, i, price, fee, at), db.trades[i], i, d, price, fee, at);
      OneEvent(OpenEventOf(t, at.time, StampDate(at), fee / 2.0));
    }
  }

  lemma ScaleMargin(db: Db, id: nat, newQty: real, price: real, fee: real, at: Stamp)
    requires Agrees(db) && MarginsAddUp(db, id)
    ensures MarginsAddUp(Scale(db, id, newQty, price, fee, at).0, id)
  {
    ScaleLaw(db, id, newQty, price, fee, at);
    if Scale(db, id, newQty, price, fee, at).1 {
      TotalSnoc(EventsOf(db, id), ScaleEventOf(db.trades[id], newQty, price, fee, at), MarginOf);
    }
  }

  /** Only opens and resizes touch trade id. */
  predicate OnlyResized(ops: seq<Op>, id: nat) {
    forall k :: 0 <= k < |ops| && Target(ops[k]) == Some(id) ==> ops[k].OpScale?
  }

  /** Over any run in which a trade is opened, or born of a flip, and then only resized,
      its margin deltas add up to its current notional. (They do not through a leverage
      change, which moves collateral, or a close, which records the entry size.) */
  lemma {:induction false} MarginsTrackNotional(db: Db, ops: seq<Op>, id: nat)
    requires Agrees(db) && MarginsAddUp(db, id) && OnlyResized(ops, id)
    ensures MarginsAddUp(Run(db, ops), id)
  {
    if ops != [] {
      var init, op := ops[..|ops| - 1], ops[|ops| - 1];
      RunAgrees(db, init);
      MarginsTrackNotional(db, init, id);
      MarginStep(Run(db, init), op, id);
    }
  }

  lemma MarginStep(db: Db, op: Op, id: nat)
    requires Agrees(db) && MarginsAddUp(db, id) && (Target(op) == Some(id) ==> op.OpScale?)
    ensures MarginsAddUp(Step(db, op), id)
  {
    if id !in db.trades {
      NewRowMargin(db, op, id);
    } else if Target(op) == Some(id) {
      ScaleMargin(db, id, op.newQty, op.price, op.fee, op.at);
    } else {
      StepLeavesOthers(db, op, id);
    }
  }
}
