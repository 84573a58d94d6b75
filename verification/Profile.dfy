/** Delta by price (dashboard/market.py): each bar's taker delta is spread over the
    price buckets its low..high range crosses, in proportion to the overlap. */
module Profile {
  import opened Prelude

  /** A 15m row; the volumes and the range may be null. */
  datatype Row = Row(high: Option<real>, low: Option<real>, close: real, buy: Option<real>, sell: Option<real>)

  datatype Bar = Bar(high: real, low: real, close: real, delta: real)

  datatype Grid = Grid(lo: real, width: real, n: nat)

  datatype Outcome =
    | BadWindow
    | Empty
    | Profiled(lo: real, hi: real, width: real, last: real, total: real, maxAbs: real, buckets: seq<real>)

  /** Rows with all four numbers. */
  function Usable(rows: seq<Row>): seq<Bar> {
    if rows == [] then []
    else
      var r := rows[|rows| - 1];
      Usable(rows[..|rows| - 1]) +
      if r.buy.Some? && r.sell.Some? && r.high.Some? && r.low.Some?
      then [Bar(r.high.value, r.low.value, r.close, r.buy.value - r.sell.value)] else []
  }

  function MinR(a: real, b: real): real { if a <= b then a else b }

  function MaxR(a: real, b: real): real { if a >= b then a else b }

  /** Conversion to an integer drops the fraction, towards zero. */
  function Trunc(x: real): int { if x >= 0.0 then x.Floor else -(-x).Floor }

  function Edge(g: Grid, k: int): real { g.lo + k as real * g.width }

  /** The bucket of a price, clamped to the grid. */
  function Kidx(g: Grid, p: real): nat
    requires g.n >= 1
  {
    if g.width <= 0.0 then 0
    else
      var k := Trunc((p - g.lo) / g.width);
      if k < 0 then 0 else if k > g.n - 1 then g.n - 1 else k
  }

  function Overlap(g: Grid, k: int, l: real, h: real): real {
    MaxR(0.0, MinR(Edge(g, k) + g.width, h) - MaxR(Edge(g, k), l))
  }

  /** The part of d that falls on ov out of span. */
  function Part(d: real, ov: real, span: real): real
    requires span > 0.0
  {
    d * ov / span
  }

  predicate Degenerate(g: Grid, b: Bar) { g.width <= 0.0 || b.high - b.low <= 0.0 }

  /** What bar b contributes to bucket k, over every bucket of the grid. */
  function Share(g: Grid, b: Bar, k: nat): real
    requires g.n >= 1
  {
    if Degenerate(g, b) then if k == Kidx(g, b.close) then b.delta else 0.0
    else Part(b.delta, Overlap(g, k, b.low, b.high), b.high - b.low)
  }

  function Bucket(g: Grid, bars: seq<Bar>, k: nat): real
    requires g.n >= 1
  {
    if bars == [] then 0.0 else Bucket(g, bars[..|bars| - 1], k) + Share(g, bars[|bars| - 1], k)
  }

  /** The contribution of one bar to the first m buckets. */
  function Prefix(g: Grid, b: Bar, m: nat): real
    requires g.n >= 1
  {
    if m == 0 then 0.0 else Prefix(g, b, m - 1) + Share(g, b, m - 1)
  }

  /** The contribution of all bars to the first m buckets. */
  function PrefixAll(g: Grid, bars: seq<Bar>, m: nat): real
    requires g.n >= 1
  {
    if m == 0 then 0.0 else PrefixAll(g, bars, m - 1) + Bucket(g, bars, m - 1)
  }

  function TotalDelta(bars: seq<Bar>): real {
    if bars == [] then 0.0 else TotalDelta(bars[..|bars| - 1]) + bars[|bars| - 1].delta
  }

  /** The grid spans the bars: from the lowest low to the highest high. */
  predicate Covers(g: Grid, bars: seq<Bar>) {
    g.n >= 1 && forall i :: 0 <= i < |bars| ==> g.lo <= bars[i].low && bars[i].high <= Edge(g, g.n)
  }

  // ---- a bar's overlaps telescope ----

  function Clamp(x: real, l: real, h: real): real { MaxR(l, MinR(x, h)) }

  lemma EdgeStep(g: Grid, k: int)
    ensures Edge(g, k + 1) == Edge(g, k) + g.width
  {
    assert (k + 1) as real * g.width == k as real * g.width + g.width;
  }

  lemma PartSum(d: real, a: real, b: real, span: real)
    requires span > 0.0
    ensures Part(d, a, span) + Part(d, b, span) == Part(d, a + b, span)
  {
    assert d * a + d * b == d * (a + b);
  }

  lemma PartEnds(d: real, span: real)
    requires span > 0.0
    ensures Part(d, 0.0, span) == 0.0 && Part(d, span, span) == d
  {}

  lemma ClampStep(e: real, f: real, l: real, h: real)
    requires e <= f && l <= h
    ensures MaxR(0.0, MinR(f, h) - MaxR(e, l)) == Clamp(f, l, h) - Clamp(e, l, h)
  {}

  lemma OverlapTelescopes(g: Grid, k: int, l: real, h: real)
    requires g.width > 0.0 && l <= h
    ensures Overlap(g, k, l, h) == Clamp(Edge(g, k + 1), l, h) - Clamp(Edge(g, k), l, h)
  {
    EdgeStep(g, k);
    ClampStep(Edge(g, k), Edge(g, k + 1), l, h);
  }

  lemma FirstEdge(g: Grid)
    ensures Edge(g, 0) == g.lo
  {}

  /** What of a bar's range lies below the m-th edge. */
  function Below(g: Grid, b: Bar, m: nat): real { Clamp(Edge(g, m), b.low, b.high) - b.low }

  lemma BelowStep(g: Grid, b: Bar, m: nat)
    requires m > 0 && !Degenerate(g, b)
    ensures Below(g, b, m) == Below(g, b, m - 1) + Overlap(g, m - 1, b.low, b.high)
  {
    OverlapTelescopes(g, m - 1, b.low, b.high);
  }

  lemma BelowEnds(g: Grid, b: Bar)
    requires Covers(g, [b]) && !Degenerate(g, b)
    ensures Below(g, b, 0) == 0.0 && Below(g, b, g.n) == b.high - b.low
  {
    assert g.lo <= [b][0].low && [b][0].high <= Edge(g, g.n);
    FirstEdge(g);
  }

  /** The first m buckets of a bar hold the part of its delta traded below the
      m-th edge. */
  lemma {:induction false} PrefixIsBelowEdge(g: Grid, b: Bar, m: nat)
    requires Covers(g, [b]) && !Degenerate(g, b)
    ensures Prefix(g, b, m) == Part(b.delta, Below(g, b, m), b.high - b.low)
  {
    if m == 0 {
      BelowEnds(g, b);
      PartEnds(b.delta, b.high - b.low);
    } else {
      PrefixIsBelowEdge(g, b, m - 1);
      BelowStep(g, b, m);
      PartSum(b.delta, Below(g, b, m - 1), Overlap(g, m - 1, b.low, b.high), b.high - b.low);
    }
  }

  lemma {:induction false} PrefixDegenerate(g: Grid, b: Bar, m: nat)
    requires g.n >= 1 && Degenerate(g, b)
    ensures Prefix(g, b, m) == if m > Kidx(g, b.close) then b.delta else 0.0
  {
    if m > 0 { PrefixDegenerate(g, b, m - 1); }
  }

  /** A bar's shares add up to its delta. */
  lemma BarConserved(g: Grid, b: Bar)
    requires Covers(g, [b])
    ensures Prefix(g, b, g.n) == b.delta
  {
    if Degenerate(g, b) {
      PrefixDegenerate(g, b, g.n);
    } else {
      PrefixIsBelowEdge(g, b, g.n);
      BelowEnds(g, b);
      PartEnds(b.delta, b.high - b.low);
    }
  }

  /** Summing by bucket or by bar is the same. */
  lemma {:induction false} ByBar(g: Grid, bars: seq<Bar>, m: nat)
    requires g.n >= 1 && bars != []
    ensures PrefixAll(g, bars, m) == PrefixAll(g, bars[..|bars| - 1], m) + Prefix(g, bars[|bars| - 1], m)
  {
    if m > 0 { ByBar(g, bars, m - 1); }
  }

  lemma {:induction false} NoBars(g: Grid, m: nat)
    requires g.n >= 1
    ensures PrefixAll(g, [], m) == 0.0
  {
    if m > 0 { NoBars(g, m - 1); }
  }

  /** Conservation: for any bars and any number of buckets, the buckets add up to
      the total taker delta. */
  lemma {:induction false} DeltaConserved(g: Grid, bars: seq<Bar>)
    requires Covers(g, bars)
    ensures PrefixAll(g, bars, g.n) == TotalDelta(bars)
  {
    if bars == [] {
      NoBars(g, g.n);
    } else {
      var b := bars[|bars| - 1];
      DeltaConserved(g, bars[..|bars| - 1]);
      ByBar(g, bars, g.n);
      BarConserved(g, b);
    }
  }

  // ---- only the buckets from kidx(low) to kidx(high) are visited ----

  lemma OneMore(f: real, w: real)
    ensures (f + 1.0) * w == f * w + w
  {}

  lemma MulMono(a: real, b: real, w: real)
    requires w > 0.0
    ensures a <= b ==> a * w <= b * w
    ensures a < b ==> a * w < b * w
  {
    var d := b - a;
    assert d * w == b * w - a * w;
    assert d >= 0.0 ==> d * w >= 0.0;
    assert d > 0.0 ==> d * w > 0.0;
  }

  lemma NextAbove(x: real, w: real, q: real, f: real)
    requires w > 0.0 && q < f + 1.0 && q * w == x
    ensures x < f * w + w
  {
    MulMono(q, f + 1.0, w);
    OneMore(f, w);
  }

  lemma FloorBelow(x: real, w: real, q: real, f: real)
    requires w > 0.0 && f <= q && q * w == x
    ensures f * w <= x
  {
    MulMono(f, q, w);
  }

  lemma QuotientFloor(x: real, w: real)
    requires w > 0.0
    ensures (x / w).Floor as real * w <= x
    ensures x < (x / w).Floor as real * w + w
  {
    FloorBelow(x, w, x / w, (x / w).Floor as real);
    NextAbove(x, w, x / w, (x / w).Floor as real);
  }

  lemma EdgeMono(g: Grid, i: int, j: int)
    requires g.width > 0.0 && i <= j
    ensures Edge(g, i) <= Edge(g, j)
  {
    MulMono(i as real, j as real, g.width);
  }

  lemma NonNegativeQuotient(x: real, w: real)
    requires w > 0.0 && x >= 0.0
    ensures x / w >= 0.0
  {}

  /** Which bucket holds a price inside the grid. */
  lemma KidxHolds(g: Grid, p: real)
    requires g.n >= 1 && g.width > 0.0 && g.lo <= p <= Edge(g, g.n)
    ensures Edge(g, Kidx(g, p)) <= p <= Edge(g, Kidx(g, p) + 1)
    ensures Kidx(g, p) < g.n - 1 ==> p < Edge(g, Kidx(g, p) + 1)
  {
    var x := p - g.lo;
    QuotientFloor(x, g.width);
    NonNegativeQuotient(x, g.width);
    var f := (x / g.width).Floor;
    EdgeStep(g, f);
    assert Edge(g, f) <= p < Edge(g, f + 1);
    if f > g.n - 1 { EdgeMono(g, g.n, f); }
  }

  lemma NoOverlap(e: real, w: real, l: real, h: real)
    requires e + w <= l || h <= e
    ensures MaxR(0.0, MinR(e + w, h) - MaxR(e, l)) == 0.0
  {}

  /** Buckets outside that range would get nothing. */
  lemma OutsideIsZero(g: Grid, b: Bar, k: nat)
    requires Covers(g, [b]) && !Degenerate(g, b)
    requires k < Kidx(g, b.low) || k > Kidx(g, b.high)
    ensures Share(g, b, k) == 0.0
  {
    BarBuckets(g, b);
    EdgeStep(g, k);
    if k < Kidx(g, b.low) {
      EdgeMono(g, k + 1, Kidx(g, b.low));
    } else {
      EdgeMono(g, Kidx(g, b.high) + 1, k);
    }
    NoOverlap(Edge(g, k), g.width, b.low, b.high);
    PartEnds(b.delta, b.high - b.low);
  }

  /** Where the ends of a bar lie. */
  lemma BarBuckets(g: Grid, b: Bar)
    requires Covers(g, [b]) && !Degenerate(g, b)
    ensures Edge(g, Kidx(g, b.low)) <= b.low && b.high <= Edge(g, Kidx(g, b.high) + 1)
    ensures Kidx(g, b.low) <= Kidx(g, b.high) < g.n
  {
    assert g.lo <= [b][0].low && [b][0].high <= Edge(g, g.n);
    KidxHolds(g, b.low);
    KidxHolds(g, b.high);
    if Kidx(g, b.high) < Kidx(g, b.low) {
      EdgeMono(g, Kidx(g, b.high) + 1, Kidx(g, b.low));
    }
  }

  // ---- the loops ----

  /** Add one bar to the accumulator. */
  method AddBar(acc: array<real>, g: Grid, b: Bar)
    requires Covers(g, [b]) && acc.Length == g.n
    modifies acc
    ensures forall k :: 0 <= k < g.n ==> acc[k] == old(acc[k]) + Share(g, b, k)
  {
    if g.width <= 0.0 || b.high - b.low <= 0.0 {
      var i := Kidx(g, b.close);
      acc[i] := acc[i] + b.delta;
    } else {
      var first, last := Kidx(g, b.low), Kidx(g, b.high);
      BarBuckets(g, b);
      for k := first to last + 1
        invariant forall j :: 0 <= j < g.n && !(first <= j < k) ==> acc[j] == old(acc[j])
        invariant forall j :: first <= j < k ==> acc[j] == old(acc[j]) + Share(g, b, j)
      {
        var ov := Overlap(g, k, b.low, b.high);
        acc[k] := acc[k] + Part(b.delta, ov, b.high - b.low);
      }
      forall k | 0 <= k < g.n && !(first <= k <= last)
        ensures Share(g, b, k) == 0.0
      {
        OutsideIsZero(g, b, k);
      }
    }
  }

  lemma GridCovers(lo: real, hi: real, n: nat, bars: seq<Bar>)
    requires n >= 1 && forall i :: 0 <= i < |bars| ==> lo <= bars[i].low && bars[i].high <= hi
    ensures Covers(Grid(lo, (hi - lo) / n as real, n), bars)
  {
    var w := (hi - lo) / n as real;
    assert n as real * w == hi - lo;
    assert Edge(Grid(lo, w, n), n) == hi;
  }

  predicate Lowest(lo: real, bars: seq<Bar>) {
    (exists i :: 0 <= i < |bars| && bars[i].low == lo) && forall i :: 0 <= i < |bars| ==> lo <= bars[i].low
  }

  predicate Highest(hi: real, bars: seq<Bar>) {
    (exists i :: 0 <= i < |bars| && bars[i].high == hi) && forall i :: 0 <= i < |bars| ==> bars[i].high <= hi
  }

  predicate LargestAbs(m: real, s: seq<real>) {
    (exists i :: 0 <= i < |s| && (s[i] == m || s[i] == -m)) && forall i :: 0 <= i < |s| ==> -m <= s[i] <= m
  }

  method PriceRange(bars: seq<Bar>) returns (lo: real, hi: real)
    requires bars != []
    ensures Lowest(lo, bars) && Highest(hi, bars)
  {
    lo, hi := bars[0].low, bars[0].high;
    for i := 1 to |bars|
      invariant Lowest(lo, bars[..i]) && Highest(hi, bars[..i])
    {
      assert bars[..i + 1] == bars[..i] + [bars[i]];
      if bars[i].low < lo { lo := bars[i].low; }
      if bars[i].high > hi { hi := bars[i].high; }
    }
    assert bars[..|bars|] == bars;
  }

  method MaxAbs(s: seq<real>) returns (m: real)
    requires s != []
    ensures m >= 0.0 && LargestAbs(m, s)
  {
    m := if s[0] < 0.0 then -s[0] else s[0];
    for i := 1 to |s|
      invariant m >= 0.0 && LargestAbs(m, s[..i])
    {
      var v := if s[i] < 0.0 then -s[i] else s[i];
      assert s[..i + 1] == s[..i] + [s[i]];
      if v > m { m := v; }
    }
    assert s[..|s|] == s;
  }

  /** Fill the accumulator bar by bar. */
  method Accumulate(g: Grid, bars: seq<Bar>) returns (buckets: seq<real>, total: real)
    requires Covers(g, bars)
    ensures |buckets| == g.n && total == TotalDelta(bars)
    ensures forall k :: 0 <= k < g.n ==> buckets[k] == Bucket(g, bars, k)
  {
    var acc := new real[g.n](_ => 0.0);
    total := 0.0;
    for i := 0 to |bars|
      invariant total == TotalDelta(bars[..i])
      invariant forall k :: 0 <= k < g.n ==> acc[k] == Bucket(g, bars[..i], k)
    {
      assert bars[..i + 1][..i] == bars[..i];
      total := total + bars[i].delta;
      AddBar(acc, g, bars[i]);
    }
    assert bars[..|bars|] == bars;
    buckets := acc[..];
  }

  /** The whole profile of the bars over n buckets. */
  predicate IsProfile(r: Outcome, bars: seq<Bar>, n: nat)
    requires n >= 1
  {
    && r.Profiled? && |r.buckets| == n && Lowest(r.lo, bars) && Highest(r.hi, bars)
    && r.width == (r.hi - r.lo) / n as real && LargestAbs(r.maxAbs, r.buckets)
    && bars != [] && r.last == bars[|bars| - 1].close && r.total == TotalDelta(bars)
    && forall k :: 0 <= k < n ==> r.buckets[k] == Bucket(Grid(r.lo, r.width, n), bars, k)
  }

  /** The buckets shown add up to the total shown. */
  lemma ShownAddUp(r: Outcome, bars: seq<Bar>, n: nat)
    requires n >= 1 && IsProfile(r, bars, n)
    ensures PrefixAll(Grid(r.lo, r.width, n), bars, n) == r.total
  {
    GridCovers(r.lo, r.hi, n, bars);
    DeltaConserved(Grid(r.lo, r.width, n), bars);
  }

  method ProfileBars(bars: seq<Bar>, n: nat) returns (r: Outcome)
    requires bars != [] && n >= 1
    ensures IsProfile(r, bars, n)
  {
    var lo, hi := PriceRange(bars);
    var width := (hi - lo) / n as real;
    GridCovers(lo, hi, n, bars);
    var buckets, total := Accumulate(Grid(lo, width, n), bars);
    var m := MaxAbs(buckets);
    r := Profiled(lo, hi, width, bars[|bars| - 1].close, total, m, buckets);
  }

  // ---- the bars in terms of the stored rows ----

  predicate Complete(r: Row) { r.buy.Some? && r.sell.Some? && r.high.Some? && r.low.Some? }

  /** The rows before the n-th that have all four numbers. */
  function CompleteBefore(rows: seq<Row>, n: nat): set<nat> { set j: nat | j < n && j < |rows| && Complete(rows[j]) }

  /** Bought, and sold, over the complete rows. */
  function Bought(rows: seq<Row>): real {
    if rows == [] then 0.0
    else Bought(rows[..|rows| - 1]) + if Complete(rows[|rows| - 1]) then rows[|rows| - 1].buy.value else 0.0
  }

  function Sold(rows: seq<Row>): real {
    if rows == [] then 0.0
    else Sold(rows[..|rows| - 1]) + if Complete(rows[|rows| - 1]) then rows[|rows| - 1].sell.value else 0.0
  }

  lemma CompleteSnoc(rows: seq<Row>)
    requires rows != []
    ensures var n := |rows| - 1;
      CompleteBefore(rows, |rows|) == CompleteBefore(rows[..n], n) + if Complete(rows[n]) then {n} else {}
  {}

  lemma {:induction false} UsableCount(rows: seq<Row>)
    ensures |Usable(rows)| == |CompleteBefore(rows, |rows|)|
  {
    if rows != [] {
      UsableCount(rows[..|rows| - 1]);
      CompleteSnoc(rows);
    }
  }

  /** A complete row is the bar with as many bars before it as it has complete rows before
      it: its own range and close, and bought less sold. */
  lemma {:induction false} UsableIs(rows: seq<Row>, i: nat)
    requires i < |rows| && Complete(rows[i])
    ensures var k, r := |CompleteBefore(rows, i)|, rows[i];
      && k < |Usable(rows)| && (Usable(rows)[k].high, Usable(rows)[k].low) == (r.high.value, r.low.value)
      && Usable(rows)[k].close == r.close && Usable(rows)[k].delta == r.buy.value - r.sell.value
  {
    var init := rows[..|rows| - 1];
    if i < |init| {
      UsableIs(init, i);
      assert CompleteBefore(init, i) == CompleteBefore(rows, i);
    } else {
      UsableCount(init);
      assert CompleteBefore(init, i) == CompleteBefore(rows, i);
    }
  }

  lemma {:induction false} UsableFrom(rows: seq<Row>, k: nat) returns (i: nat)
    requires k < |Usable(rows)|
    ensures i < |rows| && Complete(rows[i]) && |CompleteBefore(rows, i)| == k
  {
    var init := rows[..|rows| - 1];
    if k < |Usable(init)| {
      i := UsableFrom(init, k);
      assert CompleteBefore(init, i) == CompleteBefore(rows, i);
    } else {
      i := |init|;
      UsableCount(init);
      assert CompleteBefore(init, i) == CompleteBefore(rows, i);
    }
  }

  lemma {:induction false} DeltaIsNet(rows: seq<Row>)
    ensures TotalDelta(Usable(rows)) == Bought(rows) - Sold(rows)
  {
    if rows != [] {
      var init := rows[..|rows| - 1];
      DeltaIsNet(init);
      if Complete(rows[|rows| - 1]) {
        assert Usable(rows)[..|Usable(init)|] == Usable(init);
      } else {
        assert Usable(rows) == Usable(init);
      }
    }
  }

  /** The range and the last price of the complete rows. */
  ghost predicate Ranged(rows: seq<Row>, lo: real, hi: real, last: real) {
    && (exists i :: 0 <= i < |rows| && Complete(rows[i]) && rows[i].low == Some(lo))
    && (exists i :: 0 <= i < |rows| && Complete(rows[i]) && rows[i].high == Some(hi))
    && (forall i :: 0 <= i < |rows| && Complete(rows[i]) ==> lo <= rows[i].low.value && rows[i].high.value <= hi)
    && (exists i :: 0 <= i < |rows| && Complete(rows[i]) && rows[i].close == last && forall j :: i < j < |rows| ==> !Complete(rows[j]))
  }

  lemma {:induction false} LastUsable(rows: seq<Row>) returns (i: nat)
    requires Usable(rows) != []
    ensures i < |rows| && Complete(rows[i]) && rows[i].close == Usable(rows)[|Usable(rows)| - 1].close
    ensures forall j :: i < j < |rows| ==> !Complete(rows[j])
  {
    if Complete(rows[|rows| - 1]) { i := |rows| - 1; } else { i := LastUsable(rows[..|rows| - 1]); }
  }

  lemma RangedIs(rows: seq<Row>, lo: real, hi: real)
    requires Usable(rows) != [] && Lowest(lo, Usable(rows)) && Highest(hi, Usable(rows))
    ensures Ranged(rows, lo, hi, Usable(rows)[|Usable(rows)| - 1].close)
  {
    var bars := Usable(rows);
    var l :| 0 <= l < |bars| && bars[l].low == lo;
    var h :| 0 <= h < |bars| && bars[h].high == hi;
    var i := UsableFrom(rows, l);
    UsableIs(rows, i);
    var j := UsableFrom(rows, h);
    UsableIs(rows, j);
    forall m | 0 <= m < |rows| && Complete(rows[m])
      ensures lo <= rows[m].low.value && rows[m].high.value <= hi
    {
      UsableIs(rows, m);
    }
    var n := LastUsable(rows);
  }

  /** The endpoint, on the rows of its window. */
  method ProfileRows(rows: seq<Row>, hours: int, n: int) returns (r: Outcome)
    ensures r == BadWindow <==> !(1 <= hours <= 168) || !(4 <= n <= 100)
    ensures r == Empty <==> 1 <= hours <= 168 && 4 <= n <= 100 && forall i :: 0 <= i < |rows| ==> !Complete(rows[i])
    ensures r.Profiled? ==> r.total == Bought(rows) - Sold(rows) && Ranged(rows, r.lo, r.hi, r.last)
    ensures r.Profiled? ==> 4 <= n && IsProfile(r, Usable(rows), n)
  {
    if !(1 <= hours <= 168) || !(4 <= n <= 100) { return BadWindow; }
    var bars := Usable(rows);
    if bars == [] {
      forall i | 0 <= i < |rows|
        ensures !Complete(rows[i])
      {
        if Complete(rows[i]) { UsableIs(rows, i); }
      }
      return Empty;
    }
    r := ProfileBars(bars, n);
    DeltaIsNet(rows);
    RangedIs(rows, r.lo, r.hi);
  }
}
