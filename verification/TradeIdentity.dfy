/** The text forms of a trade's identity: the id SJ-NNNN and the idempotency
    key variant|SLEEVE|asset|time. Both determine what they were made from, so
    the numbers and fields the ledger keeps can stand for the strings. */
module TradeIdentity {
  import opened TradeLedger

  const ID_WIDTH := 4

  function Digit(d: nat): char
    requires d < 10
  {
    '0' + d as char
  }

  function Digits(n: nat): (s: string)
    ensures |s| >= 1 && forall i :: 0 <= i < |s| ==> '0' <= s[i] <= '9'
  {
    if n < 10 then [Digit(n)] else Digits(n / 10) + [Digit(n % 10)]
  }

  function ZeroPadded(s: string, width: nat): (r: string)
    ensures |r| >= width
    decreases width - |s|
  {
    if |s| >= width then s else ZeroPadded("0" + s, width)
  }

  /** f"SJ-{n:04d}" */
  function FormatId(n: nat): string { "SJ-" + ZeroPadded(Digits(n), ID_WIDTH) }

  /** Four digits at least, and no zero before a longer number. */
  lemma IdIs(n: nat)
    ensures FormatId(n)[..3] == "SJ-"
    ensures n < 10000 ==> |FormatId(n)| == 7
    ensures n >= 10000 ==> FormatId(n) == "SJ-" + Digits(n) && FormatId(n)[3] != '0'
  {
    if n < 10000 { ShortDigits(n); } else { LongDigits(n); }
  }

  lemma ShortDigits(n: nat)
    requires n < 10000
    ensures |Digits(n)| <= 4 && |ZeroPadded(Digits(n), 4)| == 4
  {
    assert n / 10 < 1000 && n / 10 / 10 < 100 && n / 10 / 10 / 10 < 10;
    assert |Digits(n / 10 / 10 / 10)| == 1;
    assert |Digits(n / 10 / 10)| <= 2;
    assert |Digits(n / 10)| <= 3;
    PaddedLength(Digits(n), 4);
  }

  lemma {:induction false} PaddedLength(s: string, width: nat)
    requires |s| <= width
    ensures |ZeroPadded(s, width)| == width
    decreases width - |s|
  {
    if |s| < width { PaddedLength("0" + s, width); }
  }

  lemma {:induction false} LongDigits(n: nat)
    requires n >= 10000
    ensures |Digits(n)| >= 5 && Digits(n)[0] != '0' && ZeroPadded(Digits(n), 4) == Digits(n)
  {
    if n >= 100000 { LongDigits(n / 10); } else { FiveDigits(n); }
  }

  lemma FiveDigits(n: nat)
    requires 10000 <= n < 100000
    ensures |Digits(n)| == 5 && Digits(n)[0] != '0'
  {
    var a := n / 10;
    var b := a / 10;
    var c := b / 10;
    var d := c / 10;
    assert 1 <= d < 10;
    assert Digits(d) == [Digit(d)] && Digits(c) == Digits(d) + [Digit(c % 10)];
    assert Digits(b) == Digits(c) + [Digit(b % 10)];
    assert Digits(a) == Digits(b) + [Digit(a % 10)];
    assert Digits(n) == Digits(a) + [Digit(n % 10)];
  }

  predicate IsDigit(c: char) { '0' <= c <= '9' }

  /** CAST(text AS INTEGER): the value of the leading digits. */
  function CastInteger(s: string): nat {
    CastFrom(s, 0)
  }

  function CastFrom(s: string, value: nat): nat {
    if s == "" || !IsDigit(s[0]) then value
    else CastFrom(s[1..], 10 * value + (s[0] - '0') as nat)
  }

  /** CAST(SUBSTR(id, 4) AS INTEGER) */
  function ParseId(id: string): nat
    requires |id| >= 3
  {
    CastInteger(id[3..])
  }

  lemma {:induction false} CastSnoc(s: string, c: char, value: nat)
    requires (forall i :: 0 <= i < |s| ==> IsDigit(s[i])) && IsDigit(c)
    ensures CastFrom(s + [c], value) == 10 * CastFrom(s, value) + (c - '0') as nat
  {
    if s == "" {
      assert (s + [c])[1..] == "";
    } else {
      assert (s + [c])[1..] == s[1..] + [c];
      CastSnoc(s[1..], c, 10 * value + (s[0] - '0') as nat);
    }
  }

  lemma {:induction false} CastDigits(n: nat)
    ensures CastInteger(Digits(n)) == n
  {
    if n < 10 {
      assert Digits(n)[1..] == "" && CastFrom("", n) == n;
    } else {
      CastDigits(n / 10);
      CastSnoc(Digits(n / 10), Digit(n % 10), 0);
    }
  }

  lemma {:induction false} CastPadded(s: string, width: nat)
    ensures CastInteger(ZeroPadded(s, width)) == CastInteger(s)
    decreases width - |s|
  {
    if |s| < width {
      CastPadded("0" + s, width);
      assert ("0" + s)[1..] == s;
    }
  }

  /** The number read back from an id is the number it was made from, at every
      width, so distinct numbers make distinct ids. */
  lemma IdRoundTrip(n: nat)
    ensures |FormatId(n)| >= 3 && ParseId(FormatId(n)) == n
  {
    assert FormatId(n)[3..] == ZeroPadded(Digits(n), ID_WIDTH);
    CastDigits(n);
    CastPadded(Digits(n), ID_WIDTH);
  }

  predicate BarFree(s: string) { forall i :: 0 <= i < |s| ==> s[i] != '|' }

  /** Splitting at the first bar is unambiguous when the head has none. */
  lemma SplitAtBar(a: string, b: string, x: string, y: string)
    requires BarFree(a) && BarFree(b) && a + "|" + x == b + "|" + y
    ensures a == b && x == y
  {
    var s := a + "|" + x;
    assert s[|a|] == '|' && s[|b|] == '|';
    assert forall i | 0 <= i < |b| :: s[i] == b[i];
    assert |a| == |b|;
    assert a == s[..|a|] == b;
    assert x == s[|a| + 1..] == y;
  }

  // ---- which logical trades share a key ----

  /** What a key is made from. */
  datatype Logical = Logical(variant: string, sleeve: string, asset: string, time: string)

  function Key(l: Logical): string { BuildUniqueKey(l.variant, l.sleeve, l.asset, l.time) }

  /** The same trade: sleeves are compared without case. */
  predicate SameTrade(l: Logical, m: Logical) {
    l.variant == m.variant && Upper(l.sleeve) == Upper(m.sleeve) && l.asset == m.asset && l.time == m.time
  }

  /** Everything of a key after the variant. */
  function Rest(l: Logical): string { Upper(l.sleeve) + "|" + (l.asset + "|" + l.time) }

  lemma KeySplits(l: Logical)
    ensures Key(l) == l.variant + "|" + Rest(l)
  {
    assert (l.variant + "|") + (Upper(l.sleeve) + "|" + (l.asset + "|" + l.time)) == Key(l);
  }

  function Bars(s: string): nat {
    if s == "" then 0 else Bars(s[..|s| - 1]) + if s[|s| - 1] == '|' then 1 else 0
  }

  lemma {:induction false} BarsConcat(a: string, b: string)
    ensures Bars(a + b) == Bars(a) + Bars(b)
    decreases |b|
  {
    if b == "" {
      assert a + b == a;
    } else {
      assert (a + b)[..|a + b| - 1] == a + b[..|b| - 1];
      BarsConcat(a, b[..|b| - 1]);
    }
  }

  lemma {:induction false} NoBars(s: string)
    ensures Bars(s) == 0 <==> BarFree(s)
  {
    if s != "" {
      NoBars(s[..|s| - 1]);
      assert BarFree(s) <==> BarFree(s[..|s| - 1]) && s[|s| - 1] != '|';
    }
  }

  lemma BarsJoined(a: string, b: string)
    ensures Bars(a + "|" + b) == Bars(a) + 1 + Bars(b)
  {
    BarsConcat(a + "|", b);
    BarsConcat(a, "|");
    assert "|"[..0] == "" && Bars("|") == 1;
  }

  lemma RestBars(l: Logical)
    ensures Bars(Rest(l)) == 2 + Bars(Upper(l.sleeve)) + Bars(l.asset) + Bars(l.time)
  {
    BarsJoined(Upper(l.sleeve), l.asset + "|" + l.time);
    BarsJoined(l.asset, l.time);
  }

  lemma UpperKeepsBars(s: string)
    ensures BarFree(Upper(s)) <==> BarFree(s)
    ensures Upper(Upper(s)) == Upper(s)
  {
    assert forall i :: 0 <= i < |s| ==> (Upper(s)[i] == '|' <==> s[i] == '|');
  }

  /** A part of the variant after one of its bars, up to the next bar or its end or
      beyond, that upper-casing leaves alone: it could be a sleeve. */
  predicate SleevePart(v: string, i: int, j: int) {
    0 <= i < j <= |v| && v[i] == '|' && (j == |v| || v[j] == '|') && Upper(v[i + 1..j]) == v[i + 1..j]
  }

  ghost predicate HasSleevePart(v: string) { exists i, j :: SleevePart(v, i, j) }

  /** No field that a key could be cut in. */
  ghost predicate Unmistakable(l: Logical) { BarFree(l.sleeve) && BarFree(l.asset) && BarFree(l.time) && !HasSleevePart(l.variant) }

  lemma SameVariantSameTrade(l: Logical, m: Logical)
    requires Unmistakable(l) && Key(l) == Key(m) && |l.variant| == |m.variant|
    ensures SameTrade(l, m)
  {
    KeySplits(l);
    KeySplits(m);
    assert Key(l)[..|l.variant|] == l.variant && Key(m)[..|m.variant|] == m.variant;
    assert Key(l)[|l.variant| + 1..] == Rest(l) && Key(m)[|m.variant| + 1..] == Rest(m);
    RestBars(l);
    RestBars(m);
    UpperKeepsBars(l.sleeve);
    NoBars(Upper(l.sleeve));
    NoBars(l.asset);
    NoBars(l.time);
    NoBars(Upper(m.sleeve));
    NoBars(m.asset);
    SplitAtBar(Upper(l.sleeve), Upper(m.sleeve), l.asset + "|" + l.time, m.asset + "|" + m.time);
    SplitAtBar(l.asset, m.asset, l.time, m.time);
  }

  /** A longer variant would leave too few bars for the other fields. */
  lemma NoLongerVariant(l: Logical, m: Logical)
    requires BarFree(l.sleeve) && BarFree(l.asset) && BarFree(l.time) && Key(l) == Key(m)
    ensures |m.variant| <= |l.variant|
  {
    KeySplits(l);
    KeySplits(m);
    if |m.variant| > |l.variant| {
      var d := |m.variant| - |l.variant| - 1;
      var x := Rest(l)[..d];
      LongerCut(l.variant, Rest(l), m.variant, Rest(m));
      BarsJoined(x, Rest(m));
      RestBars(l);
      RestBars(m);
      UpperKeepsBars(l.sleeve);
      NoBars(Upper(l.sleeve));
      NoBars(l.asset);
      NoBars(l.time);
    }
  }

  lemma LongerCut(v: string, r: string, w: string, q: string)
    requires v + "|" + r == w + "|" + q && |w| > |v|
    ensures |w| - |v| - 1 <= |r| && r == r[..|w| - |v| - 1] + "|" + q
  {
    var k, d := v + "|" + r, |w| - |v| - 1;
    assert k[|v| + 1..] == r && k[|w|] == '|' && k[|w| + 1..] == q;
    assert r[d] == k[|w|] && r[d + 1..] == k[|w| + 1..];
    assert r == r[..d] + [r[d]] + r[d + 1..];
  }

  /** Where a shorter head ends inside a longer one, and what follows it there. */
  lemma ShorterCut(v: string, r: string, w: string, u: string, z: string)
    requires v + "|" + r == w + "|" + u + "|" + z && |w| < |v|
    ensures var i, j := |w|, |w| + 1 + |u|;
            v[i] == '|' && if j <= |v| then v[i + 1..j] == u && (j < |v| ==> v[j] == '|')
                           else v[i + 1..] == u[..|v| - i - 1]
  {
    var k, i, j := v + "|" + r, |w|, |w| + 1 + |u|;
    assert k[i] == '|' && k[j] == '|' && k[i + 1..j] == u;
    assert v == k[..|v|];
    if j > |v| { assert k[i + 1..|v|] == k[i + 1..j][..|v| - i - 1]; }
  }

  /** A shorter variant cuts the longer one at a bar, before a sleeve. */
  lemma ShorterVariantCuts(l: Logical, m: Logical)
    requires Key(l) == Key(m) && |m.variant| < |l.variant|
    ensures HasSleevePart(l.variant)
  {
    var v, i, u := l.variant, |m.variant|, Upper(m.sleeve);
    KeySplits(l);
    assert Key(m) == m.variant + "|" + u + "|" + (m.asset + "|" + m.time);
    ShorterCut(v, Rest(l), m.variant, u, m.asset + "|" + m.time);
    UpperKeepsBars(m.sleeve);
    var j := if i + 1 + |u| <= |v| then i + 1 + |u| else |v|;
    PrefixUpper(u, j - i - 1);
    assert u[..|u|] == u;
    assert SleevePart(v, i, j);
  }

  lemma PrefixUpper(u: string, n: nat)
    requires Upper(u) == u && n <= |u|
    ensures Upper(u[..n]) == u[..n]
  {
    forall i | 0 <= i < n
      ensures Upper(u[..n])[i] == u[..n][i]
    {
      assert Upper(u)[i] == u[i];
    }
  }

  /** Equal keys name the same trade when nothing in the one can be mistaken; the other
      may hold anything. */
  lemma KeyIdentifies(l: Logical, m: Logical)
    requires Unmistakable(l) && Key(l) == Key(m)
    ensures SameTrade(l, m)
  {
    NoLongerVariant(l, m);
    if |m.variant| < |l.variant| { ShorterVariantCuts(l, m); }
    SameVariantSameTrade(l, m);
  }

  /** Where a string with a bar can be cut. */
  lemma Cut(s: string) returns (x: string, y: string)
    requires !BarFree(s)
    ensures s == x + "|" + y
  {
    var i :| 0 <= i < |s| && s[i] == '|';
    x, y := s[..i], s[i + 1..];
  }

  lemma UpperJoined(x: string, y: string)
    ensures Upper(x + "|" + y) == Upper(x) + "|" + Upper(y)
  {}

  /** Otherwise another trade has the same key. */
  lemma Twin(l: Logical) returns (m: Logical)
    requires !Unmistakable(l)
    ensures Key(m) == Key(l) && !SameTrade(l, m)
  {
    if !BarFree(l.sleeve) {
      var x, y := Cut(l.sleeve);
      UpperJoined(x, y);
      m := Logical(l.variant, x, Upper(y) + "|" + l.asset, l.time);
      assert |m.asset| > |l.asset|;
    } else if !BarFree(l.asset) {
      var x, y := Cut(l.asset);
      m := Logical(l.variant, l.sleeve, x, y + "|" + l.time);
      assert |m.time| > |l.time|;
    } else if !BarFree(l.time) {
      var x, y := Cut(l.time);
      m := Logical(l.variant, l.sleeve, l.asset + "|" + x, y);
      assert |m.asset| > |l.asset|;
    } else {
      m := VariantTwin(l);
    }
  }

  lemma VariantTwin(l: Logical) returns (m: Logical)
    requires HasSleevePart(l.variant)
    ensures Key(m) == Key(l) && |m.variant| < |l.variant|
  {
    var v := l.variant;
    var i, j :| SleevePart(v, i, j);
    var p, mid := v[..i], v[i + 1..j];
    if j == |v| {
      m := Logical(p, mid, Upper(l.sleeve), l.asset + "|" + l.time);
      assert v == p + "|" + mid;
    } else {
      m := Logical(p, mid, v[j + 1..], Rest(l));
      assert v == p + "|" + mid + "|" + v[j + 1..];
      KeySplits(l);
    }
  }

  ghost predicate HasTwin(l: Logical) { exists m :: Key(m) == Key(l) && !SameTrade(l, m) }

  /** Exactly when a key identifies its trade: no bar in the sleeve, asset or time, and
      none in the variant before something that could be a sleeve. */
  lemma KeyIdentifiesIff(l: Logical)
    ensures !HasTwin(l) <==> Unmistakable(l)
  {
    if Unmistakable(l) {
      forall m | Key(m) == Key(l)
        ensures SameTrade(l, m)
      {
        KeyIdentifies(l, m);
      }
    } else {
      var m := Twin(l);
      assert Key(m) == Key(l) && !SameTrade(l, m);
    }
  }

  /** A concrete pair of trades with one key. */
  lemma BarsCollide()
    ensures Key(Logical("a|B", "c", "BTC", "t")) == Key(Logical("a", "b|c", "BTC", "t")) == "a|B|C|BTC|t"
  {
    assert Upper("c") == "C" && Upper("b|c") == "B|C";
  }
}
