/** Integer division and grid facts with a variable step. */
module GridMath {

  predicate OnGrid(x: int, step: int)
    requires step > 0
  {
    x % step == 0
  }

  lemma ProductNonNegative(a: int, c: int)
    requires a >= 0 && c > 0
    ensures a * c >= 0
  {
  }

  lemma ProductAtLeast(a: int, c: int)
    requires a >= 1 && c > 0
    ensures a * c >= c
  {
    ProductNonNegative(a - 1, c);
    assert (a - 1) * c == a * c - c;
  }

  /** Quotient and remainder are determined by the defining equation. */
  lemma QuotientUnique(x: int, c: int, q: int, r: int)
    requires c > 0 && x == q * c + r && 0 <= r < c
    ensures x / c == q && x % c == r
  {
    var d := x / c - q;
    assert x == x / c * c + x % c;
    assert d * c == r - x % c by { assert (x / c - q) * c == x / c * c - q * c; }
    if d >= 1 { ProductAtLeast(d, c); }
    assert (-d) * c == -(d * c);
    if d <= -1 { ProductAtLeast(-d, c); }
  }

  lemma Parts(x: int, c: int)
    requires c > 0
    ensures x == x / c * c + x % c && 0 <= x % c < c
  {
  }

  lemma DivStep(n: int, c: int)
    requires c > 0
    ensures n / c == (n - c) / c + 1 && n % c == (n - c) % c
  {
    Parts(n, c);
    assert (n / c - 1) * c == n / c * c - c;
    QuotientUnique(n - c, c, n / c - 1, n % c);
  }

  /** Adding multiples of the step moves the quotient and keeps the remainder. */
  lemma DivShift(n: int, k: int, c: int)
    requires c > 0
    ensures (n + k * c) / c == n / c + k && (n + k * c) % c == n % c
  {
    Parts(n, c);
    assert (n / c + k) * c == n / c * c + k * c;
    QuotientUnique(n + k * c, c, n / c + k, n % c);
  }

  lemma DivMonotone(x: int, y: int, c: int)
    requires c > 0 && x <= y
    ensures x / c <= y / c
  {
    Parts(x, c);
    Parts(y, c);
    var d := x / c - y / c;
    assert d * c == x / c * c - y / c * c;
    if d >= 1 { ProductAtLeast(d, c); }
  }

  /** Neighbours on the grid are a whole number of steps apart. */
  lemma GridStep(x: int, y: int, step: int)
    requires step > 0 && OnGrid(x, step) && OnGrid(y, step) && x < y
    ensures x + step <= y
    ensures (y - x) / step * step == y - x && (y - x) / step >= 1
  {
    Parts(x, step);
    Parts(y, step);
    var d := y / step - x / step;
    assert d * step == y - x by { assert (y / step - x / step) * step == y / step * step - x / step * step; }
    assert (-d) * step == -(d * step);
    if d <= 0 { ProductNonNegative(-d, step); }
    ProductAtLeast(d, step);
    QuotientUnique(y - x, step, d, 0);
  }

  lemma GridNext(x: int, y: int, step: int)
    requires step > 0 && OnGrid(x, step) && OnGrid(y, step) && x < y
    ensures x + step <= y
  {
    GridStep(x, y, step);
  }

  lemma GridShift(x: int, step: int)
    requires step > 0 && OnGrid(x, step)
    ensures OnGrid(x + step, step) && OnGrid(x - step, step)
  {
    DivStep(x, step);
    DivStep(x + step, step);
  }

  /** The grid point at or below x. */
  lemma FloorOnGrid(x: int, step: int)
    requires step > 0
    ensures OnGrid(x / step * step, step) && x / step * step <= x < x / step * step + step
  {
    Parts(x, step);
    QuotientUnique(x / step * step, step, x / step, 0);
  }

  /** (x // step) * step, by steps: the solver then needs no division. */
  function FloorTo(x: int, step: int): (r: int)
    requires step > 0
    ensures r <= x < r + step
    decreases if x < 0 then -x else x
  {
    if x >= step then FloorTo(x - step, step) + step
    else if x < 0 then if x + step < 0 then FloorTo(x + step, step) - step else -step
    else 0
  }

  lemma FloorStep(x: int, step: int)
    requires step > 0
    ensures x / step * step == (x - step) / step * step + step
  {
    DivStep(x, step);
    assert ((x - step) / step + 1) * step == (x - step) / step * step + step;
  }

  lemma FloorOfSmall(x: int, step: int)
    requires 0 <= x < step
    ensures x / step * step == 0
  {
    QuotientUnique(x, step, 0, x);
  }

  lemma {:induction false} FloorToIs(x: int, step: int)
    requires step > 0
    ensures FloorTo(x, step) == x / step * step
    decreases if x < 0 then -x else x
  {
    if x >= step {
      FloorToIs(x - step, step);
      FloorStep(x, step);
    } else if x < 0 {
      FloorStep(x + step, step);
      if x + step < 0 { FloorToIs(x + step, step); } else { FloorOfSmall(x + step, step); }
    } else {
      FloorOfSmall(x, step);
    }
  }

  lemma FactorOrder(a: int, b: int, c: int)
    requires c > 0 && a <= b
    ensures a * c <= b * c
  {
    ProductNonNegative(b - a, c);
    assert (b - a) * c == b * c - a * c;
  }

  lemma FloorToMonotone(x: int, y: int, step: int)
    requires step > 0 && x <= y
    ensures FloorTo(x, step) <= FloorTo(y, step)
  {
    FloorToIs(x, step);
    FloorToIs(y, step);
    DivMonotone(x, y, step);
    FactorOrder(x / step, y / step, step);
  }

  lemma FloorToMultiple(q: int, step: int)
    requires step > 0
    ensures FloorTo(q * step, step) == q * step
  {
    FloorToIs(q * step, step);
    QuotientUnique(q * step, step, q, 0);
  }

  lemma FloorToTwice(y: int, step: int)
    requires step > 0
    ensures FloorTo(FloorTo(y, step), step) == FloorTo(y, step)
  {
    FloorToIs(y, step);
    FloorToMultiple(y / step, step);
  }
}
