/** Fixed-risk sizing (botlib.py `size_intent_fixed_r`): the notional that makes the
    way to the stop cost a fixed share of capital, expressed as leverage for the
    ledger's open. */
module FixedRisk {
  import opened Prelude
  import opened TradeLedger

  datatype Sizing =
    | Failed
    | Sized(allocationPct: real, leverage: real, stopPct: real, notional: real, atCap: bool)

  /** Failed stands for the division by a zero entry or capital and for the refusal of a
      stop at the entry. */
  function SizeFixedR(entry: real, stop: real, capital: real, riskPct: real, maxX: real): Sizing {
    if entry == 0.0 || capital == 0.0 then Failed
    else
      var stopPct := Abs(entry - stop) / entry;
      if stopPct <= 0.0 then Failed
      else
        var notional := capital * (riskPct / 100.0) / stopPct;
        var capped := if maxX * capital < notional then maxX * capital else notional;
        Sized(100.0, capped / capital, stopPct, capped, capped < notional)
  }

  /** Sized exactly when there is a capital and a stop away from a positive entry; the whole
      capital is allocated, and the notional loses the risked share of it on the way to the
      stop or is the cap, whichever is less. */
  lemma SizedIff(entry: real, stop: real, capital: real, riskPct: real, maxX: real)
    ensures var s := SizeFixedR(entry, stop, capital, riskPct, maxX);
      && (s.Sized? <==> entry > 0.0 && stop != entry && capital != 0.0)
      && (s.Sized? ==>
            && s.allocationPct == 100.0 && s.leverage * capital == s.notional
            && s.stopPct * entry == (if stop < entry then entry - stop else stop - entry)
            && s.notional <= maxX * capital
            && (s.atCap ==> s.notional == maxX * capital && s.notional * s.stopPct * 100.0 < capital * riskPct)
            && (!s.atCap ==> s.notional * s.stopPct * 100.0 == capital * riskPct))
  {
    if entry != 0.0 && capital != 0.0 {
      var away := Abs(entry - stop);
      var stopPct := away / entry;
      Quotient(away, entry);
      RatioSign(away, entry);
      if stopPct > 0.0 {
        var risked := capital * (riskPct / 100.0);
        Quotient(risked, stopPct);
        Percent(capital, riskPct);
        Quotient(SizeFixedR(entry, stop, capital, riskPct, maxX).notional, capital);
        if maxX * capital < risked / stopPct { Smaller(maxX * capital, risked / stopPct, stopPct); }
      }
    }
  }

  lemma RatioSign(x: real, y: real)
    requires x >= 0.0 && y != 0.0
    ensures x / y > 0.0 <==> x > 0.0 && y > 0.0
  {
    Quotient(x, y);
    var q := x / y;
    if y > 0.0 { assert q > 0.0 <==> q * y > 0.0; } else { assert q > 0.0 ==> q * -y > 0.0; }
  }

  lemma Percent(x: real, p: real)
    ensures x * (p / 100.0) * 100.0 == x * p
  {
    var q := p / 100.0;
    assert q * 100.0 == p;
  }

  lemma Quotient(x: real, y: real)
    requires y != 0.0
    ensures y * (x / y) == x && x / y * y == x
  {}

  /** The ledger multiplies the leverage out to the notional again. */
  lemma OpenedAtNotional(entry: real, stop: real, capital: real, riskPct: real, maxX: real)
    requires SizeFixedR(entry, stop, capital, riskPct, maxX).Sized?
    ensures var s := SizeFixedR(entry, stop, capital, riskPct, maxX); PaperSize(capital, s.allocationPct, s.leverage) == s.notional
  {
    var s := SizeFixedR(entry, stop, capital, riskPct, maxX);
    Quotient(s.notional, capital);
    assert capital * (100.0 / 100.0) == capital;
  }

  /** The stop is where the position loses. */
  predicate LosingStop(d: Direction, entry: real, stop: real) {
    (d.Long? && stop < entry) || (d.Short? && stop > entry)
  }

  lemma PerUnit(size: real, entry: real, away: real)
    requires entry > 0.0
    ensures away * (size / entry) == size * (away / entry)
  {
    Quotient(size, entry);
    Quotient(away, entry);
    Cancel(away * (size / entry), size * (away / entry), away * size, entry);
  }

  lemma Cancel(u: real, v: real, w: real, e: real)
    requires e > 0.0
    requires u * e == w && v * e == w
    ensures u == v
  {
    assert u * e / e == u && v * e / e == v;
  }

  lemma LossToStop(d: Direction, entry: real, stop: real, size: real, costBp: real, slippageBp: real, fundingPct: real)
    requires entry > 0.0 && LosingStop(d, entry, stop)
    ensures ComputePerpClose(d, entry, stop, QtyFor(size, entry), size, costBp, slippageBp, fundingPct).value.pricePnl
         == -(size * (Abs(entry - stop) / entry))
  {
    var away := Abs(entry - stop);
    PerUnit(size, entry, away);
    assert -away * (size / entry) == -(away * (size / entry));
  }

  lemma Smaller(a: real, b: real, p: real)
    requires a < b && p > 0.0
    ensures a * p < b * p
  {
    assert (b - a) * p > 0.0;
  }

  /** Opened at the entry and closed at the stop, the trade loses exactly the risked
      share of capital, and less when the cap binds. */
  lemma StopLosesFixedR(d: Direction, entry: real, stop: real, capital: real, riskPct: real, maxX: real,
                        costBp: real, slippageBp: real, fundingPct: real)
    requires entry > 0.0 && LosingStop(d, entry, stop)
    requires SizeFixedR(entry, stop, capital, riskPct, maxX).Sized?
    ensures var s := SizeFixedR(entry, stop, capital, riskPct, maxX);
            var size := PaperSize(capital, s.allocationPct, s.leverage);
            var loss := -ComputePerpClose(d, entry, stop, QtyFor(size, entry), size, costBp, slippageBp, fundingPct).value.pricePnl;
            if s.atCap then loss < capital * (riskPct / 100.0) && size == maxX * capital else loss == capital * (riskPct / 100.0)
  {
    var s := SizeFixedR(entry, stop, capital, riskPct, maxX);
    var risked := capital * (riskPct / 100.0);
    OpenedAtNotional(entry, stop, capital, riskPct, maxX);
    LossToStop(d, entry, stop, s.notional, costBp, slippageBp, fundingPct);
    Quotient(risked, s.stopPct);
    if s.atCap { Smaller(s.notional, risked / s.stopPct, s.stopPct); }
  }
}
