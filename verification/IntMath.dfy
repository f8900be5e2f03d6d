/** Integer helpers of the coder: bit length, division by table, square root. */
module IntMath {
  import opened Arith

  /** ec_ilog: the bit length, found by halving the word. */
  method EcIlog(v0: nat) returns (ret: nat)
    requires v0 < 0x1_0000_0000
    ensures ret == ILog(v0)
  {
    Pow2Values();
    SmallPowers();
    hide ILog, Pow2, Shr, Or;
    var v := v0;
    ret := if v != 0 then 1 else 0;
    ghost var r0 := ret;
    var m := if v >= 0x1_0000 then 16 else 0;
    DropHigh(v, 16, m);
    v := Shr(v, m);
    ghost var q := OrIn(r0, 0, 4, 16, m);
    ret := Or(ret, m);
    m := if v >= 0x100 then 8 else 0;
    DropHigh(v, 8, m);
    v := Shr(v, m);
    q := OrIn(r0, q, 3, 8, m);
    ret := Or(ret, m);
    m := if v >= 0x10 then 4 else 0;
    DropHigh(v, 4, m);
    v := Shr(v, m);
    q := OrIn(r0, q, 2, 4, m);
    ret := Or(ret, m);
    m := if v >= 0x4 then 2 else 0;
    DropHigh(v, 2, m);
    v := Shr(v, m);
    q := OrIn(r0, q, 1, 2, m);
    ret := Or(ret, m);
    ret := ret + if v >= 0x2 then 1 else 0;
    TinyLog(v);
  }

  /** The bits collected so far never overlap the next one. */
  lemma OrIn(a: nat, q: nat, k: nat, p: nat, m: nat) returns (q': nat)
    requires a <= 1 && k >= 1 && p == Pow2(k) && (m == 0 || m == p)
    ensures Or(a + q * (2 * p), m) == a + q * (2 * p) + m == a + q' * p
  {
    hide Or, Pow2;
    PowDouble(k - 1);
    q' := 2 * q + if m == p then 1 else 0;
    TwoParts(q, p, m);
    DivUnique(a + q * (2 * p), p, 2 * q, a);
    OrBit(a + q * (2 * p), k);
  }

  lemma TwoParts(q: nat, p: nat, m: nat)
    requires p > 0 && (m == 0 || m == p)
    ensures q * (2 * p) == 2 * q * p && q * (2 * p) + m == (2 * q + if m == p then 1 else 0) * p
  {
  }

  lemma SmallPowers()
    ensures Pow2(1) == 2 && Pow2(2) == 4 && Pow2(3) == 8 && Pow2(4) == 16 && Pow2(8) == 256
  {
  }

  function Shr(v: nat, k: nat): (r: nat)
    ensures r == v / Pow2(k)
  {
    Quotient(v, Pow2(k))
  }

  function Quotient(v: nat, d: nat): (q: nat)
    requires d > 0
    ensures q == v / d
  {
    v / d
  }

  /** Shifting out k bits when the number is that long. */
  lemma DropHigh(v: nat, k: nat, m: nat)
    requires v < Pow2(2 * k) && m == if v >= Pow2(k) then k else 0
    ensures ILog(v) == m + ILog(Shr(v, m))
    ensures Shr(v, m) < Pow2(k) && (Shr(v, m) == 0 <==> v == 0)
  {
    PowZero();
    hide ILog, Pow2;
    if m > 0 {
      Pow2Add(k, k);
      assert k + k == 2 * k;
      ILogBounds(v);
      if k >= ILog(v) { Pow2Mono(ILog(v), k); }
      ILogDrop(v, k);
      DivGe(v, Pow2(k), Pow2(k));
      DivGe(v, Pow2(k), 1);
    }
  }

  lemma TinyLog(v: nat)
    requires v < 4
    ensures ILog(v) == (if v >= 2 then 2 else if v == 1 then 1 else 0)
  {
  }

  // ------------------------------------------------------ division by table

  /** The lowest set bit: d & -d. */
  function LowestBit(d: nat): (b: nat)
    requires d > 0
    ensures 0 < b <= d
  {
    if d % 2 == 1 then 1 else 2 * LowestBit(d / 2)
  }

  /** SMALL_DIV_TABLE: 2^32 / (2i + 1), except that entry 0 is one less. */
  function SmallDiv(i: nat): nat {
    if i == 0 then 0xFFFF_FFFF else 0x1_0000_0000 / (2 * i + 1)
  }

  lemma {:induction false} LowestBitPower(d: nat)
    requires d > 0
    ensures var t := ILog(LowestBit(d));
      t >= 1 && LowestBit(d) == Pow2(t - 1) && d % Pow2(t - 1) == 0 && d / Pow2(t - 1) % 2 == 1
      && d / Pow2(t) == d / Pow2(t - 1) / 2
  {
    var b := LowestBit(d);
    if d % 2 == 1 {
      PowZero();
      assert ILog(1) == 1 && Pow2(1) == 2;
    } else {
      LowestBitPower(d / 2);
      var u := ILog(LowestBit(d / 2));
      assert b / 2 == LowestBit(d / 2);
      assert ILog(b) == u + 1;
      assert Pow2(u) == 2 * Pow2(u - 1) && Pow2(u + 1) == 2 * Pow2(u);
      EvenParts(d / 2, Pow2(u - 1));
      DivDiv(d, 2, Pow2(u));
    }
  }

  lemma EvenParts(h: nat, p: nat)
    requires p > 0 && h % p == 0
    ensures (2 * h) % (2 * p) == 0 && (2 * h) / (2 * p) == h / p
  {
    var q := h / p;
    assert h == q * p;
    assert 2 * h == q * (2 * p);
    DivUnique(2 * h, 2 * p, q, 0);
  }

  /** The top word of x times the reciprocal of 2i + 1. */
  function Rough(x: nat, i: nat): nat {
    MulNat(SmallDiv(i), x);
    Quotient(SmallDiv(i) * x, 0x1_0000_0000)
  }

  /** Multiplying by the rounded reciprocal misses the quotient by at most one. */
  lemma Reciprocal(x: nat, k: nat, i: nat)
    requires x < 0x1_0000_0000 && k == 2 * i + 1
    ensures Rough(x, i) <= x / k <= Rough(x, i) + 1
  {
    SmallDivError(i);
    RoundedQuotient(x, k, SmallDiv(i), 0x1_0000_0000 - SmallDiv(i) * k, 0x1_0000_0000);
  }

  lemma SmallDivError(i: nat)
    ensures 0 < 0x1_0000_0000 - SmallDiv(i) * (2 * i + 1) <= 2 * i + 1
  {
    if i > 0 { ExactRemainder(0x1_0000_0000, 2 * i + 1); }
  }

  lemma RoundedQuotient(x: nat, k: nat, r: nat, e: nat, w: nat)
    requires 0 < e <= k && r * k + e == w && x < w
    ensures var q := r * x / w; q <= x / k <= q + 1
  {
    var q, s := x / k, x % k;
    assert x == q * k + s;
    ReciprocalBounds(q, s, k, r, e, w, r * x);
    DivGe(r * x, w, q - 1);
    DivGe(r * x, w, q + 1);
  }

  lemma ReciprocalBounds(q: nat, s: nat, k: nat, r: nat, e: nat, w: nat, rx: nat)
    requires s < k && 0 < e <= k && r * k + e == w && q * k + s < w && rx == r * (q * k + s)
    ensures (q - 1) * w <= rx < (q + 1) * w
  {
    assert r * (q * k + s) == q * (r * k) + r * s by { Regroup(r, q, k, s); }
    assert q * (r * k) == q * w - q * e by { assert q * (r * k + e) == q * (r * k) + q * e; }
    MulMono(e, k, q);
    assert e * q == q * e && k * q == q * k;
    MulMono(s, k, r);
    assert s * r == r * s && k * r == r * k;
    MulNat(r, s);
    assert (q - 1) * w == q * w - w && (q + 1) * w == q * w + w;
    MulNat(q, e);
  }

  lemma Regroup(r: nat, q: nat, k: nat, s: nat)
    ensures r * (q * k + s) == q * (r * k) + r * s
  {
    assert r * (q * k) == q * (r * k);
  }

  lemma ExactRemainder(w: nat, k: nat)
    requires k % 2 == 1 && k >= 3 && w == 0x1_0000_0000
    ensures 0 < w - w / k * k <= k
  {
    Pow2Values();
    hide Pow2;
    var q, r := w / k, w % k;
    assert w == q * k + r;
    if r == 0 { OddDivides(q, k, 32); }
  }

  /** No odd number above one divides a power of two. */
  lemma {:induction false} OddDivides(q: nat, k: nat, n: nat)
    requires k % 2 == 1 && k >= 3 && q * k == Pow2(n)
    ensures false
  {
    if n == 0 {
      PowZero();
      if q >= 1 { MulMono(1, q, k); }
    } else {
      assert Pow2(n) == 2 * Pow2(n - 1);
      if q % 2 == 1 {
        OddOdd(q, k);
      } else {
        assert q == 2 * (q / 2);
        assert 2 * (q / 2) * k == 2 * (q / 2 * k);
        OddDivides(q / 2, k, n - 1);
      }
    }
  }

  lemma OddOdd(q: nat, k: nat)
    requires q % 2 == 1 && k % 2 == 1
    ensures q * k % 2 == 1
  {
    var a, b := q / 2, k / 2;
    assert q == 2 * a + 1 && k == 2 * b + 1;
    assert q * k == (2 * a + 1) * k;
    assert (2 * a + 1) * k == 2 * (a * k) + k;
  }

  /** celt_udiv with the reciprocal table equals plain division. */
  method CeltUdiv(n: nat, d: nat) returns (r: nat)
    requires n < 0x1_0000_0000 && d > 0
    ensures r == n / d
  {
    if d > 256 {
      r := n / d;
    } else {
      hide ILog, Pow2, LowestBit, Rough, Shr;
      var t := ILog(LowestBit(d));
      TableQuotient(n, d, t);
      var q := Rough(Shr(n, t - 1), Shr(d, t));
      QuotientFix(n, d, q);
      r := q + if n - q * d >= d then 1 else 0;
    }
  }

  /** The odd part of d and the shifted n give the same quotient. */
  lemma TableQuotient(n: nat, d: nat, t: nat)
    requires n < 0x1_0000_0000 && d > 0 && t == ILog(LowestBit(d))
    ensures t >= 1
    ensures var q := Rough(Shr(n, t - 1), Shr(d, t)); q <= n / d <= q + 1
  {
    LowestBitPower(d);
    hide ILog, LowestBit, Pow2, Rough;
    OddQuotient(n, d, Pow2(t - 1), Shr(n, t - 1), Shr(d, t));
  }

  lemma OddQuotient(n: nat, d: nat, p: nat, x: nat, h: nat)
    requires n < 0x1_0000_0000 && d > 0 && p > 0 && d % p == 0 && d / p % 2 == 1
    requires x == n / p && h == d / p / 2
    ensures Rough(x, h) <= n / d <= Rough(x, h) + 1
  {
    hide Rough;
    ShiftedQuotient(n, d, p);
    DivLe(n, p);
    HalfOdd(d / p, h);
    Reciprocal(x, d / p, h);
  }

  lemma HalfOdd(k: nat, h: nat)
    requires k % 2 == 1 && h == k / 2
    ensures k == 2 * h + 1
  {
  }

  lemma ShiftedQuotient(n: nat, d: nat, p: nat)
    requires d > 0 && p > 0 && d % p == 0
    ensures d / p > 0 && n / d == n / p / (d / p)
  {
    var k := d / p;
    assert d == p * k;
    DivDiv(n, p, k);
  }

  lemma DivLe(n: nat, p: nat)
    requires p > 0
    ensures n / p <= n
  {
    MulMono(1, p, n / p);
    assert 1 * (n / p) == n / p && p * (n / p) == n / p * p;
  }

  lemma QuotientFix(n: nat, d: nat, q: nat)
    requires d > 0 && q <= n / d <= q + 1
    ensures n / d == q + if n - q * d >= d then 1 else 0
  {
    DivGe(n, d, q + 1);
    assert (q + 1) * d == q * d + d;
  }

  // ------------------------------------------------------------- square root

  predicate IsRoot(g: nat, x: nat) {
    g * g <= x < (g + 1) * (g + 1)
  }

  lemma RootUnique(g: nat, h: nat, x: nat)
    requires IsRoot(g, x) && IsRoot(h, x)
    ensures g == h
  {
    if g < h { Squares(g + 1, h); }
    if h < g { Squares(h + 1, g); }
  }

  lemma Squares(a: nat, b: nat)
    requires a <= b
    ensures a * a <= b * b
  {
    MulMono(a, b, a);
    MulMono(a, b, b);
    assert b * a == a * b;
  }

  function Sq(x: nat): (s: nat)
    ensures s == x * x
  {
    MulNat(x, x);
    x * x
  }

  /** The first digit tried: 4^s <= val < 4^(s+1). */
  lemma RootStart(val: nat, s: nat)
    requires 0 < val < 0x1_0000_0000 && s == (ILog(val) - 1) / 2
    ensures s <= 15 && val < Sq(2 * Pow2(s)) && 2 * Pow2(s) <= 0x1_0000
  {
    hide ILog, Pow2, Sq;
    WordLength(val);
    ILogBounds(val);
    Pow2Step(s);
    Pow2Mono(s + 1, 16);
    Pow2Mono(ILog(val), s + 1 + (s + 1));
    Pow2Add(s + 1, s + 1);
    assert Pow2(16) == 0x1_0000 by { Pow2Values(); }
  }

  lemma WordLength(v: nat)
    requires v < 0x1_0000_0000
    ensures ILog(v) <= 32
  {
    hide ILog, Pow2;
    Pow2Values();
    ILogUnique(0xFFFF_FFFF, 32);
    ILogMono(v, 0xFFFF_FFFF);
  }

  lemma Pow2Step(s: nat)
    ensures Pow2(s + 1) == 2 * Pow2(s)
  {
  }

  /** What (g + b)^2 adds to g^2. */
  function Trial(g: nat, b: nat): nat {
    MulNat(2 * g + b, b);
    (2 * g + b) * b
  }

  /** Trying one more digit: (g + b)^2 in terms of g^2. */
  lemma NextDigit(g: nat, b: nat)
    ensures Sq(g + b) == Sq(g) + Trial(g, b)
    ensures g + b < 0x1_0000 ==> Trial(g, b) < 0x1_0000_0000
  {
    if g + b < 0x1_0000 { SqMono(g + b, 0xFFFF); }
    assert (g + b) * (g + b) == g * (g + b) + b * (g + b);
    assert (2 * g + b) * b == 2 * g * b + b * b;
  }

  lemma SqMono(a: nat, b: nat)
    requires a <= b
    ensures Sq(a) <= Sq(b)
  {
    Squares(a, b);
  }

  lemma HalfPower(s: nat)
    ensures s > 0 ==> Pow2(s) == 2 * Pow2(s - 1)
    ensures s == 0 ==> Pow2(s) == 1
  {
  }

  /** isqrt32: the largest digit b with (g + b)^2 <= val is added, bit by bit.
      No product leaves 32 bits. */
  method Isqrt32(val0: nat) returns (g: nat)
    requires 0 < val0 < 0x1_0000_0000
    ensures IsRoot(g, val0)
  {
    hide ILog, Pow2, Sq, Trial, IsRoot;
    var val := val0;
    g := 0;
    SqZero();
    var bshift: int := (ILog(val) - 1) / 2;
    RootStart(val, bshift);
    var b := Pow2(bshift);
    while bshift >= 0
      invariant -1 <= bshift && (bshift >= 0 ==> b == Pow2(bshift))
      invariant val == val0 - Sq(g) && 0 <= val
      invariant var w := if bshift >= 0 then 2 * b else 1; val0 < Sq(g + w) && g + w <= 0x1_0000
      decreases bshift
    {
      HalfPower(bshift);
      var t := Trial(g, b);  // a shift by bshift in the original
      NextDigit(g, b);
      assert t < 0x1_0000_0000;
      if t <= val {
        g := g + b;
        val := val - t;
      }
      b := b / 2;
      bshift := bshift - 1;
    }
    RootFound(g, val0);
  }

  lemma SqZero()
    ensures Sq(0) == 0
  {
  }

  lemma RootFound(g: nat, x: nat)
    requires Sq(g) <= x < Sq(g + 1)
    ensures IsRoot(g, x)
  {
  }
}
