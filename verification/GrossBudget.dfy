/** The co-fire budget of the R4 bot: each fire is sized against what is already
    open, expressed as allocation and leverage, and multiplied out again by the
    ledger's open (bots/r4/runner.py, botlib.py). */
module GrossBudget {
  import opened Prelude
  import opened TradeLedger
  import opened LedgerLaws
  import opened LedgerRuns
  import LedgerEffects
  import PaperLedger

  const VARIANT_WEIGHT := 0.20
  const LEV_CAP := 7.5
  const GROSS_MAX_X := 3.0
  const MIN_NOTIONAL_USDT := 250.0

  function Min(x: real, y: real): real { if x < y then x else y }
  function Max(x: real, y: real): real { if x < y then y else x }

  // ---- open_gross_usdt ----

  function OpenSize(trades: map<nat, Trade>, variant: string, i: nat): real {
    if i in trades && trades[i].open && trades[i].variant == variant then CurrentSize(trades[i]) else 0.0
  }

  function GrossBelow(trades: map<nat, Trade>, variant: string, n: nat): real {
    if n == 0 then 0.0 else GrossBelow(trades, variant, n - 1) + OpenSize(trades, variant, n - 1)
  }

  ghost function Gross(trades: map<nat, Trade>, variant: string): real {
    GrossBelow(trades, variant, NextId(trades))
  }

  lemma {:induction false} GrossFrame(a: map<nat, Trade>, b: map<nat, Trade>, variant: string, n: nat)
    requires forall i: nat :: i < n ==> OpenSize(a, variant, i) == OpenSize(b, variant, i)
    ensures GrossBelow(a, variant, n) == GrossBelow(b, variant, n)
  {
    if n > 0 { GrossFrame(a, b, variant, n - 1); }
  }

  lemma {:induction false} GrossBeyond(trades: map<nat, Trade>, variant: string, n: nat)
    requires n >= NextId(trades)
    ensures GrossBelow(trades, variant, n) == Gross(trades, variant)
  {
    if n > NextId(trades) {
      GrossBeyond(trades, variant, n - 1);
      assert n - 1 !in trades;
    }
  }

  /** Writing one row moves the sum by that row's change. */
  lemma {:induction false} GrossUpdate(trades: map<nat, Trade>, variant: string, i: nat, t: Trade, n: nat)
    ensures GrossBelow(trades[i := t], variant, n)
         == GrossBelow(trades, variant, n)
            + (if i < n then OpenSize(trades[i := t], variant, i) - OpenSize(trades, variant, i) else 0.0)
  {
    if n > 0 { GrossUpdate(trades, variant, i, t, n - 1); }
  }

  lemma GrossWrite(trades: map<nat, Trade>, variant: string, i: nat, t: Trade)
    ensures Gross(trades[i := t], variant)
         == Gross(trades, variant) + OpenSize(trades[i := t], variant, i) - OpenSize(trades, variant, i)
  {
    var n := NextId(trades) + NextId(trades[i := t]);
    GrossBeyond(trades, variant, n);
    GrossBeyond(trades[i := t], variant, n);
    GrossUpdate(trades, variant, i, t, n);
  }

  // ---- size_intent ----

  datatype Sized = Sized(allocationPct: real, leverage: real, notional: real, capped: bool)

  function Budget(capital: real, openGross: real): real { GROSS_MAX_X * capital - openGross }

  function Wanted(capital: real, sleeveLeverage: real): real {
    capital * VARIANT_WEIGHT * Min(sleeveLeverage, LEV_CAP)
  }

  function Notional(sleeveLeverage: real, capital: real, openGross: real): real {
    var wanted := Wanted(capital, sleeveLeverage);
    var budget := Budget(capital, openGross);
    if wanted > budget then Max(budget, 0.0) else wanted
  }

  /** Without capital there is never a notional to divide by it. */
  lemma NoCapitalNoNotional(sleeveLeverage: real, openGross: real)
    ensures Notional(sleeveLeverage, 0.0, openGross) <= 0.0
  {
    assert 0.0 * VARIANT_WEIGHT * Min(sleeveLeverage, LEV_CAP) == 0.0;
  }

  /** None when what is left is under the minimum. */
  function SizeIntent(sleeveLeverage: real, capital: real, openGross: real): Option<Sized> {
    var notional := Notional(sleeveLeverage, capital, openGross);
    if notional < MIN_NOTIONAL_USDT then None
    else
      NoCapitalNoNotional(sleeveLeverage, openGross);
      Some(Sized(100.0 * VARIANT_WEIGHT, notional / (capital * VARIANT_WEIGHT), notional,
                 Wanted(capital, sleeveLeverage) > Budget(capital, openGross)))
  }

  /** A fifth of the capital at the sleeve's leverage, up to seven and a half; or what is left
      of three times the capital, when that is less. Under 250 nothing is opened. The sleeve's
      leverage is kept when the budget does not bind. */
  lemma SizedAs(sleeveLeverage: real, capital: real, openGross: real)
    ensures var r := SizeIntent(sleeveLeverage, capital, openGross);
      var leverage := if sleeveLeverage < 7.5 then sleeveLeverage else 7.5;
      var wanted, left := capital * 0.20 * leverage, 3.0 * capital - openGross;
      var notional := if wanted <= left then wanted else left;
      && (r.None? <==> notional < 250.0)
      && (r.Some? ==>
            && r.value.notional == notional && r.value.allocationPct == 20.0
            && (r.value.capped <==> wanted > left)
            && r.value.leverage * (capital * 0.20) == notional
            && (wanted <= left ==> r.value.leverage == leverage))
  {
    var r := SizeIntent(sleeveLeverage, capital, openGross);
    if r.Some? {
      NoCapitalNoNotional(sleeveLeverage, openGross);
      var base := capital * 0.20;
      assert base != 0.0;
      BackToLeverage(base, Min(sleeveLeverage, LEV_CAP), r.value.notional);
    }
  }

  lemma BackToLeverage(base: real, leverage: real, notional: real)
    requires base != 0.0
    ensures notional / base * base == notional
    ensures notional == base * leverage ==> notional / base == leverage
  {}

  /** What open_paper_trade multiplies out is exactly the notional that was
      sized: the wanted one, or the budget when that is less. */
  lemma SizedIsOpened(sleeveLeverage: real, capital: real, openGross: real)
    ensures var r := SizeIntent(sleeveLeverage, capital, openGross);
      && (r.None? <==> Min(Wanted(capital, sleeveLeverage), Budget(capital, openGross)) < MIN_NOTIONAL_USDT)
      && (r.Some? ==>
            && PaperSize(capital, r.value.allocationPct, r.value.leverage) == r.value.notional
            && r.value.notional == Min(Wanted(capital, sleeveLeverage), Budget(capital, openGross))
            && r.value.notional >= MIN_NOTIONAL_USDT)
  {
    var r := SizeIntent(sleeveLeverage, capital, openGross);
    if r.Some? {
      NoCapitalNoNotional(sleeveLeverage, openGross);
      Multiplied(capital, r.value.notional);
    }
  }

  lemma Multiplied(capital: real, notional: real)
    requires capital != 0.0
    ensures capital * VARIANT_WEIGHT != 0.0
    ensures PaperSize(capital, 100.0 * VARIANT_WEIGHT, notional / (capital * VARIANT_WEIGHT)) == notional
  {
    var base := capital * VARIANT_WEIGHT;
    assert base != 0.0;
    assert 100.0 * VARIANT_WEIGHT / 100.0 == VARIANT_WEIGHT;
    assert base * (notional / base) == notional;
  }

  // ---- one fire, and whole runs ----

  datatype Fire = Fire(sleeve: string, asset: string, direction: Direction, sleeveLeverage: real,
                       entryPrice: real, time: int, keyTime: string)

  function FireArgs(variant: string, capital: real, f: Fire, s: Sized): OpenArgs {
    OpenArgs(variant, capital, f.sleeve, f.asset, f.direction, f.entryPrice, s.allocationPct, s.leverage, f.time, f.keyTime)
  }

  ghost function FireOn(db: Db, variant: string, capital: real, f: Fire): (r: (Db, Option<nat>)) {
    match SizeIntent(f.sleeveLeverage, capital, Gross(db.trades, variant))
    case None => (db, None)
    case Some(s) => var (db', id) := OpenTrade(db, FireArgs(variant, capital, f, s)); (db', Some(id))
  }

  ghost predicate SizesNonNegative(db: Db, variant: string) {
    forall i :: i in db.trades ==> OpenSize(db.trades, variant, i) >= 0.0
  }

  ghost predicate WithinBudget(db: Db, variant: string, limit: real) {
    Agrees(db) && SizesNonNegative(db, variant) && Gross(db.trades, variant) <= limit
  }

  lemma InsertKeepsBudget(trades: map<nat, Trade>, variant: string, t: Trade, limit: real)
    requires forall i :: i in trades ==> OpenSize(trades, variant, i) >= 0.0
    requires CurrentSize(t) >= 0.0 && Gross(trades, variant) + CurrentSize(t) <= limit
    ensures var trades' := trades[NextId(trades) := t];
      Gross(trades', variant) <= limit && forall i :: i in trades' ==> OpenSize(trades', variant, i) >= 0.0
  {
    GrossWrite(trades, variant, NextId(trades), t);
    assert OpenSize(trades, variant, NextId(trades)) == 0.0;
  }

  lemma FireKeepsBudget(db: Db, variant: string, capital: real, f: Fire, limit: real)
    requires WithinBudget(db, variant, limit) && GROSS_MAX_X * capital <= limit
    ensures WithinBudget(FireOn(db, variant, capital, f).0, variant, limit)
  {
    var gross := Gross(db.trades, variant);
    SizedIsOpened(f.sleeveLeverage, capital, gross);
    match SizeIntent(f.sleeveLeverage, capital, gross)
    case None =>
    case Some(s) =>
      var a := FireArgs(variant, capital, f, s);
      OpenLaw(db, a);
      if !KeyTaken(db, KeyOf(a)) {
        assert CurrentSize(OpenedTrade(a)) == s.notional;
        InsertKeepsBudget(db.trades, variant, OpenedTrade(a), limit);
      }
  }

  /** A fire of this bot, or anyone's operation that does not resize, flip or
      open under this variant. */
  datatype BotOp = Fired(f: Fire) | Other(op: Op)

  predicate LeavesVariant(db: Db, op: Op, variant: string) {
    match op
    case OpOpen(a) => a.variant != variant
    case OpScale(i, _, _, _, _) => i in db.trades ==> db.trades[i].variant != variant
    case OpLeverage(i, _, _, _, _) => i in db.trades ==> db.trades[i].variant != variant
    case OpFlip(i, _, _, _, _) => i in db.trades ==> db.trades[i].variant != variant
    case _ => true
  }

  ghost function BotStep(db: Db, variant: string, capital: real, op: BotOp): Db {
    match op
    case Fired(f) => FireOn(db, variant, capital, f).0
    case Other(o) => Step(db, o)
  }

  ghost function BotRun(db: Db, variant: string, capital: real, ops: seq<BotOp>): Db {
    if ops == [] then db else BotStep(BotRun(db, variant, capital, ops[..|ops| - 1]), variant, capital, ops[|ops| - 1])
  }

  ghost predicate BotSchedule(db: Db, variant: string, capital: real, ops: seq<BotOp>) {
    ops == []
    || (BotSchedule(db, variant, capital, ops[..|ops| - 1])
        && (ops[|ops| - 1].Other? ==> LeavesVariant(BotRun(db, variant, capital, ops[..|ops| - 1]), ops[|ops| - 1].op, variant)))
  }

  /** No row of the variant grows under someone else's operation. */
  lemma OtherShrinks(db: Db, op: Op, variant: string, i: nat)
    requires Agrees(db) && LeavesVariant(db, op, variant) && SizesNonNegative(db, variant)
    ensures 0.0 <= OpenSize(Step(db, op).trades, variant, i) <= OpenSize(db.trades, variant, i)
  {
    if i in db.trades {
      StepExtends(db, op);
      if Target(op) != Some(i) { StepLeavesOthers(db, op, i); }
    } else {
      NewRowOfOther(db, op, variant, i);
    }
  }

  lemma NewRowOfOthersFlip(db: Db, id: nat, d: Direction, price: real, fee: real, at: Stamp, variant: string, i: nat)
    requires Agrees(db) && i !in db.trades && (id in db.trades ==> db.trades[id].variant != variant)
    ensures OpenSize(Flip(db, id, d, price, fee, at).0.trades, variant, i) == 0.0
  {
    FlipLaw(db, id, d, price, fee, at);
    if Flips(db, id, d) { FlipRows(db, id, d, price, fee, at); }
  }

  lemma NewRowOfOther(db: Db, op: Op, variant: string, i: nat)
    requires Agrees(db) && LeavesVariant(db, op, variant) && i !in db.trades
    ensures OpenSize(Step(db, op).trades, variant, i) == 0.0
  {
    match op
    case OpOpen(a) => OpenLaw(db, a);
    case OpFlip(id, d, p, f, at) => NewRowOfOthersFlip(db, id, d, p, f, at, variant, i);
    case _ =>
  }

  lemma {:induction false} SumShrinks(a: map<nat, Trade>, b: map<nat, Trade>, variant: string, n: nat)
    requires forall i: nat :: OpenSize(b, variant, i) <= OpenSize(a, variant, i)
    ensures GrossBelow(b, variant, n) <= GrossBelow(a, variant, n)
  {
    if n > 0 { SumShrinks(a, b, variant, n - 1); }
  }

  lemma OtherKeepsBudget(db: Db, op: Op, variant: string, limit: real)
    requires WithinBudget(db, variant, limit) && LeavesVariant(db, op, variant)
    ensures WithinBudget(Step(db, op), variant, limit)
  {
    StepAgrees(db, op);
    var db' := Step(db, op);
    forall i: nat
      ensures 0.0 <= OpenSize(db'.trades, variant, i) <= OpenSize(db.trades, variant, i)
    {
      OtherShrinks(db, op, variant, i);
    }
    var n := NextId(db.trades) + NextId(db'.trades);
    SumShrinks(db.trades, db'.trades, variant, n);
    GrossBeyond(db.trades, variant, n);
    GrossBeyond(db'.trades, variant, n);
  }

  /** After any schedule of fires and closes the variant's open notional is at
      most GROSS_MAX_X times capital, or what it was at the start if that was
      already more. */
  lemma {:induction false} GrossNeverExceedsBudget(db: Db, variant: string, capital: real, ops: seq<BotOp>)
    requires Agrees(db) && SizesNonNegative(db, variant) && BotSchedule(db, variant, capital, ops)
    ensures var limit := Max(GROSS_MAX_X * capital, Gross(db.trades, variant));
      WithinBudget(BotRun(db, variant, capital, ops), variant, limit)
  {
    if ops != [] {
      var before := BotRun(db, variant, capital, ops[..|ops| - 1]);
      var limit := Max(GROSS_MAX_X * capital, Gross(db.trades, variant));
      GrossNeverExceedsBudget(db, variant, capital, ops[..|ops| - 1]);
      match ops[|ops| - 1]
      case Fired(f) => FireKeepsBudget(before, variant, capital, f, limit);
      case Other(op) => OtherKeepsBudget(before, op, variant, limit);
    }
  }

  // ---- the entry loop of a tick, in place ----

  ghost function FireAll(db: Db, variant: string, capital: real, fires: seq<Fire>): Db {
    if fires == [] then db
    else FireOn(FireAll(db, variant, capital, fires[..|fires| - 1]), variant, capital, fires[|fires| - 1]).0
  }

  lemma FireAllSnoc(db: Db, variant: string, capital: real, fires: seq<Fire>, k: nat)
    requires k < |fires|
    ensures FireAll(db, variant, capital, fires[..k + 1])
         == FireOn(FireAll(db, variant, capital, fires[..k]), variant, capital, fires[k]).0
  {
    assert fires[..k + 1][..k] == fires[..k];
  }

  /** What the k-th fire gets: an id, or nothing when it is sized to None. */
  ghost function Outcome(db: Db, variant: string, capital: real, fires: seq<Fire>, k: nat): Option<nat>
    requires k < |fires|
  {
    FireOn(FireAll(db, variant, capital, fires[..k]), variant, capital, fires[k]).1
  }

  /** The ids of the first k fires, in order. */
  ghost function OpenedIds(db: Db, variant: string, capital: real, fires: seq<Fire>, k: nat): seq<nat>
    requires k <= |fires|
  {
    if k == 0 then []
    else
      var id := Outcome(db, variant, capital, fires, k - 1);
      OpenedIds(db, variant, capital, fires, k - 1) + (if id.Some? then [id.value] else [])
  }

  /** Those of the first k fires that were sized to None, in order. */
  ghost function ExhaustedFires(db: Db, variant: string, capital: real, fires: seq<Fire>, k: nat): seq<Fire>
    requires k <= |fires|
  {
    if k == 0 then []
    else
      var id := Outcome(db, variant, capital, fires, k - 1);
      ExhaustedFires(db, variant, capital, fires, k - 1) + (if id.None? then [fires[k - 1]] else [])
  }

  /** One more fire adds to exactly one of the two lists. */
  lemma FireListed(db: Db, variant: string, capital: real, fires: seq<Fire>, k: nat)
    requires k < |fires|
    ensures var id := Outcome(db, variant, capital, fires, k);
      && (FireAll(db, variant, capital, fires[..k + 1]), id)
         == FireOn(FireAll(db, variant, capital, fires[..k]), variant, capital, fires[k])
      && OpenedIds(db, variant, capital, fires, k + 1)
         == OpenedIds(db, variant, capital, fires, k) + (if id.Some? then [id.value] else [])
      && ExhaustedFires(db, variant, capital, fires, k + 1)
         == ExhaustedFires(db, variant, capital, fires, k) + (if id.None? then [fires[k]] else [])
  {
    FireAllSnoc(db, variant, capital, fires, k);
  }

  lemma FireExtends(db: Db, variant: string, capital: real, f: Fire)
    requires Agrees(db)
    ensures var (after, id) := FireOn(db, variant, capital, f);
      && Agrees(after) && Extends(db, after)
      && (id.Some? ==> id.value in after.trades
                       && after.trades[id.value].key == Some(BuildUniqueKey(variant, f.sleeve, f.asset, f.keyTime)))
  {
    match SizeIntent(f.sleeveLeverage, capital, Gross(db.trades, variant))
    case None => ExtendsSelf(db);
    case Some(s) =>
      OpenLaw(db, FireArgs(variant, capital, f, s));
      OpenExtends(db, FireArgs(variant, capital, f, s));
  }

  lemma {:induction false} FireAllExtends(db: Db, variant: string, capital: real, fires: seq<Fire>, k: nat)
    requires Agrees(db) && k <= |fires|
    ensures Agrees(FireAll(db, variant, capital, fires))
    ensures Agrees(FireAll(db, variant, capital, fires[..k]))
    ensures Extends(FireAll(db, variant, capital, fires[..k]), FireAll(db, variant, capital, fires))
  {
    if k == |fires| {
      assert fires[..k] == fires;
      if k > 0 {
        FireAllExtends(db, variant, capital, fires[..k - 1], k - 1);
        FireExtends(FireAll(db, variant, capital, fires[..k - 1]), variant, capital, fires[k - 1]);
      }
      ExtendsSelf(FireAll(db, variant, capital, fires));
    } else {
      var init := fires[..|fires| - 1];
      assert init[..k] == fires[..k];
      FireAllExtends(db, variant, capital, init, k);
      FireExtends(FireAll(db, variant, capital, init), variant, capital, fires[|fires| - 1]);
      ExtendsTrans(FireAll(db, variant, capital, fires[..k]), FireAll(db, variant, capital, init), FireAll(db, variant, capital, fires));
    }
  }

  /** The row a fire opens is its own: the bot's variant, the fire's sleeve, asset, direction,
      price and times, at the notional it was sized to. */
  lemma FireWrites(db: Db, variant: string, capital: real, f: Fire)
    requires Agrees(db)
    ensures var (after, id) := FireOn(db, variant, capital, f);
      id.Some? && id.value !in db.trades ==>
        && id.value in after.trades
        && var t, sized := after.trades[id.value], SizeIntent(f.sleeveLeverage, capital, Gross(db.trades, variant));
        && (t.variant, t.strategy, t.asset, t.direction) == (variant, Upper(f.sleeve), f.asset, f.direction)
        && (t.entryPrice, t.entryTime) == (f.entryPrice, f.time) && t.open
        && sized.Some? && t.size == sized.value.notional && t.leverage == sized.value.leverage
  {
    var gross := Gross(db.trades, variant);
    match SizeIntent(f.sleeveLeverage, capital, gross)
    case None =>
    case Some(s) =>
      LedgerEffects.OpenWrites(db, FireArgs(variant, capital, f, s));
      SizedIsOpened(f.sleeveLeverage, capital, gross);
      LedgerEffects.SizeMultiplied(capital, s.allocationPct, s.leverage);
  }

  /** A fire with an id has its own trade in the ledger at the end of the loop; one
      without found too little left of the budget by the fires before it. */
  lemma FireBooked(db: Db, variant: string, capital: real, fires: seq<Fire>, k: nat)
    requires Agrees(db) && k < |fires|
    ensures var f, id, before, after := fires[k], Outcome(db, variant, capital, fires, k),
                FireAll(db, variant, capital, fires[..k]), FireAll(db, variant, capital, fires);
      && (id.Some? ==> id.value in after.trades
                       && after.trades[id.value].key == Some(BuildUniqueKey(variant, f.sleeve, f.asset, f.keyTime)))
      && (id.None? <==> Min(Wanted(capital, f.sleeveLeverage), Budget(capital, Gross(before.trades, variant))) < MIN_NOTIONAL_USDT)
  {
    var before := FireAll(db, variant, capital, fires[..k]);
    FireAllExtends(db, variant, capital, fires, k);
    FireAllExtends(db, variant, capital, fires, k + 1);
    FireAllSnoc(db, variant, capital, fires, k);
    FireExtends(before, variant, capital, fires[k]);
    SizedIsOpened(fires[k].sleeveLeverage, capital, Gross(before.trades, variant));
  }

  method OpenGrossUsdt(l: PaperLedger.Ledger, variant: string) returns (gross: real)
    ensures gross == Gross(l.trades, variant)
  {
    var n := l.NextSjId();
    gross := 0.0;
    for i := 0 to n
      invariant gross == GrossBelow(l.trades, variant, i)
    {
      if i in l.trades && l.trades[i].open && l.trades[i].variant == variant {
        gross := gross + CurrentSize(l.trades[i]);
      }
    }
  }

  /** Size one fire against the open gross, and open it when anything is left. */
  method FireOnce(l: PaperLedger.Ledger, variant: string, capital: real, f: Fire, ghost limit: real) returns (id: Option<nat>)
    requires WithinBudget(l.View(), variant, limit) && GROSS_MAX_X * capital <= limit
    modifies l
    ensures (l.View(), id) == FireOn(old(l.View()), variant, capital, f)
    ensures WithinBudget(l.View(), variant, limit)
  {
    FireKeepsBudget(l.View(), variant, capital, f, limit);
    var gross := OpenGrossUsdt(l, variant);
    var sized := SizeIntent(f.sleeveLeverage, capital, gross);
    if sized.None? { return None; }
    id := l.OpenPaperTrade(FireArgs(variant, capital, f, sized.value), false);
  }

  /** The fires of one tick, each sized against what the earlier ones left. */
  method EntryLoop(l: PaperLedger.Ledger, variant: string, capital: real, fires: seq<Fire>)
    returns (opened': seq<nat>, exhausted: seq<Fire>)
    requires l.Valid() && SizesNonNegative(l.View(), variant)
    modifies l
    ensures l.Valid() && l.View() == FireAll(old(l.View()), variant, capital, fires)
    ensures Gross(l.trades, variant) <= Max(GROSS_MAX_X * capital, old(Gross(l.trades, variant)))
    ensures opened' == OpenedIds(old(l.View()), variant, capital, fires, |fires|)
    ensures exhausted == ExhaustedFires(old(l.View()), variant, capital, fires, |fires|)
  {
    opened', exhausted := [], [];
    ghost var before := l.View();
    ghost var limit := Max(GROSS_MAX_X * capital, Gross(l.trades, variant));
    for k := 0 to |fires|
      invariant WithinBudget(l.View(), variant, limit)
      invariant l.View() == FireAll(before, variant, capital, fires[..k])
      invariant opened' == OpenedIds(before, variant, capital, fires, k)
      invariant exhausted == ExhaustedFires(before, variant, capital, fires, k)
    {
      FireListed(before, variant, capital, fires, k);
      var id := FireOnce(l, variant, capital, fires[k], limit);
      if id.Some? { opened' := opened' + [id.value]; } else { exhausted := exhausted + [fires[k]]; }
    }
    assert fires[..|fires|] == fires;
  }
}
