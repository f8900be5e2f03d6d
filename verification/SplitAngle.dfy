/** The angle of a band split: its resolution, its quantization, and the gains and the
    share of bits that both sides derive from it. */
module SplitAngle {
  import opened Arith
  import opened Angle
  import opened IntMath

  // ----------------------------------------------------------- the resolution

  const EXP2_TABLE8: seq<nat> := [16384, 17866, 19483, 21247, 23170, 25267, 27554, 30048]

  /** Division as C does it. */
  function TruncDiv(n: int, d: nat): int
    requires d > 0
  {
    if n < 0 then -(-n / d) else n / d
  }

  function Freedoms(N: nat, stereo: bool): (n2: nat)
    requires N >= 1
    ensures n2 >= 1
  {
    if stereo && N == 2 then 2 * N - 2 else 2 * N - 1
  }

  /** Eighth-bits for the angle. */
  function AngleBits(N: nat, b: int, offset: int, pulseCap: int, stereo: bool): int
    requires N >= 1
  {
    var n2 := Freedoms(N, stereo);
    Min(64, Min(b - pulseCap - 32, TruncDiv(b + n2 * offset, n2)))
  }

  /** The number of steps they buy, rounded to an even one. */
  function Steps(qb: int): nat
    requires qb <= 64
  {
    if qb < 4 then 1 else (EXP2_TABLE8[qb % 8] / Pow2(14 - qb / 8) + 1) / 2 * 2
  }

  lemma Powers()
    ensures Pow2(6) == 64 && Pow2(7) == 128 && Pow2(8) == 256 && Pow2(9) == 512 && Pow2(10) == 1024
    ensures Pow2(11) == 2048 && Pow2(12) == 4096 && Pow2(13) == 8192 && Pow2(14) == 16384
  {
    Pow2Add(6, 6);
    assert Pow2(6) == 64 && Pow2(7) == 128 && Pow2(8) == 256 && Pow2(9) == 512 && Pow2(10) == 1024;
  }

  /** One step, or levels the coders can take: the assertion of compute_qn holds. */
  lemma StepsAre(qb: int)
    requires qb <= 64
    ensures Steps(qb) == 1 || (Levels(Steps(qb)) && Steps(qb) <= 256)
  {
    hide Pow2;
    if qb >= 4 {
      EntryRange(qb);
      Powers();
      Pow2Mono(6, 14 - qb / 8);
      Pow2Mono(14 - qb / 8, 14);
      if qb < 64 { Pow2Mono(7, 14 - qb / 8); }
      QuotientRange(EXP2_TABLE8[qb % 8], Pow2(14 - qb / 8));
    }
  }

  /** They are as many as the bits can tell apart, give or take the rounding to an even
      number: 2^(qb/8), compared as eighth powers. */
  lemma StepsPower(qb: int)
    requires 4 <= qb <= 64
    ensures Steps(qb) >= 1 && Pow8(Steps(qb) - 1) <= Pow2(qb) < Pow8(Steps(qb) + 1)
  {
    hide Pow2, Pow8, Steps;
    var r, k := qb % 8, 14 - qb / 8;
    var t := EXP2_TABLE8[r] / Pow2(k);
    StepsIs(qb, t);
    EntryPower(r);
    assert 8 * k + qb == 112 + r;
    EntryShifted(EXP2_TABLE8[r], k, t, qb);
    Pow8Mono(Steps(qb) - 1, t);
    Pow8Mono(t + 1, Steps(qb) + 1);
  }

  lemma StepsIs(qb: int, t: nat)
    requires 4 <= qb <= 64 && t == EXP2_TABLE8[qb % 8] / Pow2(14 - qb / 8)
    ensures Steps(qb) >= 1 && Steps(qb) - 1 <= t <= Steps(qb)
  {
    hide Pow2;
    StepsAre(qb);
  }

  lemma EntryPower(r: nat)
    requires r < 8
    ensures Pow8(EXP2_TABLE8[r]) <= Pow2(112 + r) < Pow8(EXP2_TABLE8[r] + 1)
  {
    Pow2Add(112, r);
    HighPower();
    if r < 4 { EarlyEntry(r); } else { LateEntry(r); }
  }

  lemma HighPower()
    ensures Pow2(112) == 0x1_0000_0000_0000_0000_0000_0000_0000
  {
    Pow2Values();
    hide Pow2;
    Pow2Add(32, 32);
    Pow2Add(64, 32);
    Pow2Add(96, 16);
  }

  lemma EarlyEntry(r: nat)
    requires r < 4
    ensures var p := 0x1_0000_0000_0000_0000_0000_0000_0000;
      Pow8(EXP2_TABLE8[r]) <= p * Pow2(r) < Pow8(EXP2_TABLE8[r] + 1)
  {
    assert Pow2(0) == 1 && Pow2(1) == 2 && Pow2(2) == 4 && Pow2(3) == 8;
    hide Pow2;
  }

  lemma LateEntry(r: nat)
    requires 4 <= r < 8
    ensures var p := 0x1_0000_0000_0000_0000_0000_0000_0000;
      Pow8(EXP2_TABLE8[r]) <= p * Pow2(r) < Pow8(EXP2_TABLE8[r] + 1)
  {
    assert Pow2(4) == 16 && Pow2(5) == 32 && Pow2(6) == 64 && Pow2(7) == 128;
    hide Pow2;
  }

  lemma EntryShifted(e: nat, k: nat, t: nat, qb: nat)
    requires t == e / Pow2(k) && Pow8(e) <= Pow2(8 * k + qb) < Pow8(e + 1)
    ensures Pow8(t) <= Pow2(qb) < Pow8(t + 1)
  {
    hide Pow8, Pow2;
    var p := Pow2(k);
    assert e == t * p + e % p;
    Pow8Mono(t * p, e);
    assert (t + 1) * p == t * p + p;
    Pow8Mono(e + 1, (t + 1) * p);
    Pow8Mul(t, p);
    Pow8Mul(t + 1, p);
    Pow8Pow2(k);
    Pow2Add(qb, 8 * k);
    LessProduct(Pow8(t), Pow2(qb), Pow2(8 * k));
    MulCancel(Pow2(qb), Pow8(t + 1), Pow2(8 * k));
  }

  lemma LessProduct(a: nat, b: nat, p: nat)
    requires a * p <= b * p && p > 0
    ensures a <= b
  {
    assert (b + 1) * p == b * p + p;
    MulCancel(a, b + 1, p);
  }

  lemma EntryRange(qb: int)
    ensures 16384 <= EXP2_TABLE8[qb % 8] <= 30048 && (qb % 8 == 0 ==> EXP2_TABLE8[qb % 8] == 16384)
  {
  }

  lemma QuotientRange(e: int, p: int)
    requires 16384 <= e <= 30048 && 64 <= p <= 16384 && (p < 128 ==> p == 64 && e == 16384)
    ensures 1 <= e / p <= 234 || e / p == 256
  {
    DivGe(e, p, 1);
    if p < 128 {
      DivUnique(e, p, 256, 0);
    } else {
      DivGe(e, p, 235);
      MulMono(128, p, 235);
    }
  }

  /** compute_qn */
  method ComputeQn(N: nat, b: int, offset: int, pulseCap: int, stereo: bool) returns (qn: nat)
    requires N >= 1 && Abs(b + Freedoms(N, stereo) * offset) < 0x8000_0000
    ensures qn == Steps(AngleBits(N, b, offset, pulseCap, stereo))
  {
    hide Pow2;
    var n2 := 2 * N - 1;
    if stereo && N == 2 { n2 := n2 - 1; }
    var qb := CeltSudiv(b + n2 * offset, n2);
    qb := Min(b - pulseCap - 32, qb);
    qb := Min(64, qb);
    if qb < 4 {
      qn := 1;
    } else {
      qn := EXP2_TABLE8[qb % 8] / Pow2(14 - qb / 8);
      qn := (qn + 1) / 2 * 2;
    }
  }

  /** celt_sudiv */
  method CeltSudiv(n: int, d: nat) returns (q: int)
    requires Abs(n) < 0x8000_0000 && d > 0
    ensures q == TruncDiv(n, d)
  {
    if n < 0 {
      var m: int := CeltUdiv(-n, d);
      q := -m;
    } else {
      q := CeltUdiv(n, d);
    }
  }

  // --------------------------------------------------- levels and the angle

  /** The level nearest to an angle; a right angle is 16384. */
  function NearestLevel(theta: nat, qn: nat): nat {
    MulNat(theta, qn);
    (theta * qn + 8192) / 16384
  }

  /** The angle a level stands for. */
  function LevelAngle(q: nat, qn: nat): (theta: nat)
    requires qn > 0
  {
    q * 16384 / qn
  }

  /** It is a level, and no other is nearer. */
  lemma NearestOfAll(theta: nat, qn: nat, r: int)
    requires theta <= 16384
    ensures NearestLevel(theta, qn) <= qn
    ensures Abs(16384 * NearestLevel(theta, qn) - theta * qn) <= Abs(16384 * r - theta * qn)
  {
    MulMono(theta, 16384, qn);
    MulNat(theta, qn);
    NearestTo(theta * qn, qn, r);
  }

  lemma NearestTo(x: nat, qn: nat, r: int)
    requires x <= 16384 * qn
    ensures (x + 8192) / 16384 <= qn && Abs(16384 * ((x + 8192) / 16384) - x) <= Abs(16384 * r - x)
  {
  }

  /** A level's angle is quantized to that level again. */
  lemma LevelKept(q: nat, qn: nat)
    requires q <= qn <= 8192 && qn > 0
    ensures LevelAngle(q, qn) <= 16384 && NearestLevel(LevelAngle(q, qn), qn) == q
  {
    var t := LevelAngle(q, qn);
    var r := q * 16384 % qn;
    assert q * 16384 == t * qn + r;
    DivUnique(t * qn + 8192, 16384, q, 8192 - r);
    DivMono(q * 16384, qn * 16384, qn);
    DivUnique(qn * 16384, qn, 16384, 0);
  }

  /** Inner levels stay this far from both ends. */
  lemma InnerAngle(q: nat, qn: nat)
    requires 0 < q < qn <= 256
    ensures 64 <= LevelAngle(q, qn) <= 16320
  {
    DivGe(q * 16384, qn, 64);
    DivGe(q * 16384, qn, 16321);
    assert q * 16384 <= qn * 16384 - 16384;
    assert 64 * qn <= 16384;
  }

  // ------------------------------------------------------------- the cosine

  /** FRAC_MUL16: a rounded product of 16-bit fractions. */
  function FracMul16(a: int, b: int): int { (16384 + ToInt16(a) * ToInt16(b)) / 0x8000 }

  function CosSquare(x: nat): nat {
    MulNat(x, x);
    (4096 + x * x) / 8192
  }

  function CosSum(t: int): int { 32767 - t + FracMul16(t, -7651 + FracMul16(t, 8277 + FracMul16(-626, t))) }

  /** bitexact_cos */
  function BitexactCos(x: nat): int { 1 + CosSum(CosSquare(x)) }

  /** What its two assertions say. */
  predicate CosAsserts(x: nat) { CosSquare(x) <= 32767 && CosSum(CosSquare(x)) <= 32766 }

  lemma ProductRange(a: int, b: int, lo: int, hi: int)
    requires 0 <= a <= 32767 && lo <= b <= hi && lo <= 0 <= hi
    ensures lo * a <= a * b <= hi * a
  {
    MulMono(lo, b, a);
    MulMono(b, hi, a);
    assert a * b == b * a;
  }

  /** The inner factor of the polynomial, for a square t. */
  lemma CosInner(t: nat)
    requires t <= 32767
    ensures var w := -7651 + FracMul16(t, 8277 + FracMul16(-626, t));
      -7651 <= w <= 626 && 0x8000 * w >= -7651 * (0x8000 - t) - 0x4000
  {
    var u := 8277 + FracMul16(-626, t);
    assert -626 * t == t * -626;
    assert 7651 <= u <= 8277;
    ProductRange(t, u, 0, 8277);
    MulMono(7651, u, t);
    assert u * t == t * u;
  }

  lemma CosSumRange(t: nat)
    requires t <= 32767
    ensures t == 0 ==> CosSum(t) == 32767
    ensures t >= 1 ==> CosSum(t) <= 32766
    ensures t <= 32760 ==> CosSum(t) >= 0
  {
    CosInner(t);
    var u := FracMul16(t, 8277 + FracMul16(-626, t));
    var w := -7651 + u;
    hide FracMul16;
    OuterFactor(t, w);
    if t == 1 { CosOne(); }
    if t == 0 { CosNone(); }
  }

  lemma CosNone()
    ensures CosSum(0) == 32767
  {
  }

  lemma CosOne()
    ensures CosSum(1) == 32766
  {
    assert FracMul16(-626, 1) == 0;
    assert FracMul16(1, 8277) == 0;
    assert FracMul16(1, -7651) == 0;
    hide FracMul16;
  }

  lemma OuterFactor(t: nat, w: int)
    requires t <= 32767 && -7651 <= w <= 626 && 0x8000 * w >= -7651 * (0x8000 - t) - 0x4000
    ensures t >= 2 ==> FracMul16(t, w) <= t - 1
    ensures t <= 32760 ==> FracMul16(t, w) >= t - 32767
  {
    assert ToInt16(t) == t && ToInt16(w) == w;
    ProductRange(t, w, -7651, 626);
    if t >= 2 { DivGe(16384 + t * w, 0x8000, t); }
    if t <= 32760 {
      var y := 0x8000 - t;
      MulMono(-7651 * y - 0x4000, 0x8000 * w, t);
      assert 0x8000 * w * t == 0x8000 * (t * w);
      assert (-7651 * y - 0x4000) * t == -7651 * (y * t) - 0x4000 * t;
      MulMono(t, 0x8000, y);
      assert t * y == y * t;
      DivGe(16384 + t * w, 0x8000, t - 32767);
    }
  }

  lemma CosSquareRange(x: nat)
    ensures CosSquare(x) == 0 <==> x < 64
    ensures CosSquare(x) <= 32767 <==> x <= 16383
  {
    MulNat(x, x);
    if x < 64 { MulMono(x, 63, x); MulMono(x, 63, 63); } else { MulMono(64, x, x); MulMono(64, x, 64); }
    if x <= 16383 {
      MulMono(x, 16383, x);
      MulMono(x, 16383, 16383);
    } else {
      MulMono(16384, x, x);
      MulMono(16384, x, 16384);
    }
    DivGe(4096 + x * x, 8192, 1);
    DivGe(4096 + x * x, 8192, 32768);
  }

  /** The assertions hold exactly from 64 to 16383; and there the cosine is positive and
      below one, as it is for every angle that an inner level stands for. */
  lemma CosineAsserts(x: nat)
    ensures CosAsserts(x) <==> 64 <= x <= 16383
    ensures 64 <= x <= 16320 ==> 1 <= BitexactCos(x) <= 32767
  {
    hide CosSum, CosSquare;
    CosSquareRange(x);
    if x <= 16383 { CosSumRange(CosSquare(x)); }
    if x <= 16320 { CosSquareBelow(x); }
  }

  lemma CosSquareBelow(x: nat)
    requires x <= 16320
    ensures CosSquare(x) <= 32760
  {
    MulMono(x, 16320, x);
    MulMono(x, 16320, 16320);
    DivGe(4096 + x * x, 8192, 32761);
  }

  // ------------------------------------------------------ the share of bits

  /** A bit-exact logarithm of a fraction with its top bit set. */
  function LogPart(v: nat): int { FracMul16(v, FracMul16(v, -2597) + 7932) }

  /** Shifted up until bit fourteen is set. */
  function Raised(v: nat): nat
    requires 1 <= v < 0x8000
  {
    FifteenBits(v);
    MulNat(v, Pow2(15 - ILog(v)));
    v * Pow2(15 - ILog(v))
  }

  /** bitexact_log2tan */
  function BitexactLog2Tan(isin: nat, icos: nat): int
    requires 1 <= isin < 0x8000 && 1 <= icos < 0x8000
  {
    (ILog(isin) - ILog(icos)) * 2048 + LogPart(Raised(isin)) - LogPart(Raised(icos))
  }

  lemma FifteenBits(v: nat)
    requires 1 <= v < 0x8000
    ensures 1 <= ILog(v) <= 15
  {
    Pow2Values();
    ILogBounds(v);
    if ILog(v) > 15 { Pow2Mono(15, ILog(v) - 1); }
  }

  /** Mid and side change places with the sign of the logarithm. */
  lemma Log2TanOdd(a: nat, b: nat)
    requires 1 <= a < 0x8000 && 1 <= b < 0x8000
    ensures BitexactLog2Tan(a, b) == -BitexactLog2Tan(b, a)
  {
    hide LogPart, ILog, Raised;
  }

  /** What an angle means: the two gains, and by how much the mid and the side deserve
      different bits. */
  datatype Gains = Gains(mid: int, side: int, delta: int)

  /** Angles whose cosines are used. */
  predicate Inner(theta: int) { 64 <= theta <= 16320 }

  /** The difference in bits for N coefficients. */
  function Delta(theta: nat, N: nat): int
    requires Inner(theta)
  {
    CosineAsserts(theta);
    CosineAsserts(16384 - theta);
    FracMul16((N - 1) * 128, BitexactLog2Tan(BitexactCos(16384 - theta), BitexactCos(theta)))
  }

  function GainsOf(theta: nat, N: nat): Gains
    requires theta == 0 || theta == 16384 || Inner(theta)
  {
    if theta == 0 then Gains(32767, 0, -16384)
    else if theta == 16384 then Gains(0, 32767, 16384)
    else Gains(BitexactCos(theta), BitexactCos(16384 - theta), Delta(theta, N))
  }

  /** Every level has gains. */
  lemma LevelHasGains(q: nat, qn: nat)
    requires q <= qn <= 256 && qn > 0
    ensures var t := LevelAngle(q, qn); t == 0 || t == 16384 || Inner(t)
    ensures LevelAngle(q, qn) == 0 <==> q == 0
    ensures LevelAngle(q, qn) == 16384 <==> q == qn
  {
    if 0 < q < qn { InnerAngle(q, qn); }
    if q == qn { DivUnique(qn * 16384, qn, 16384, 0); }
    if q == 0 { DivUnique(0, qn, 0, 0); }
  }

  /** Opposite angles change mid and side. */
  lemma GainsSwap(theta: nat, N: nat)
    requires Inner(theta)
    ensures GainsOf(16384 - theta, N).mid == GainsOf(theta, N).side
    ensures GainsOf(16384 - theta, N).side == GainsOf(theta, N).mid
  {
    hide BitexactCos, Delta;
  }

  // ------------------------------------------------- the louder side gets more

  /** FRAC_MUL16 rounds to the nearest. */
  lemma Rounds(a: int, b: int)
    requires -0x8000 <= a < 0x8000 && -0x8000 <= b < 0x8000
    ensures a * b - 0x4000 < 0x8000 * FracMul16(a, b) <= a * b + 0x4000
  {
    assert ToInt16(a) == a && ToInt16(b) == b;
  }

  /** The cosine polynomial from below, up to just before the middle ... */
  lemma CosSumEarly(t: nat)
    requires t <= 8188
    ensures CosSum(t) >= 23174
  {
    var v := FracMul16(-626, t);
    Rounds(-626, t);
    assert v >= -156;
    var u := FracMul16(t, 8277 + v);
    assert -157 <= v <= 0;
    Rounds(t, 8277 + v);
    MulMono(8121, 8277 + v, t);
    assert t * (8277 + v) == (8277 + v) * t;
    ProductRange(t, 8277 + v, 0, 8277);
    var w := -7651 + u;
    Rounds(t, w);
    hide FracMul16;
    EarlyProduct(t, u);
  }

  lemma EarlyProduct(t: nat, u: int)
    requires t <= 8188 && 0x8000 * u > 8121 * t - 0x4000
    ensures forall f :: 0x8000 * f > t * (-7651 + u) - 0x4000 ==> 32767 - t + f >= 23174
  {
    MulMono(8121 * t - 0x4000, 0x8000 * u, t);
    assert 0x8000 * u * t == 0x8000 * (t * u);
    assert t * (-7651 + u) == -7651 * t + t * u;
    var d := 8188 - t;
    assert t * t == 8188 * 8188 - 16376 * d + d * d;
    MulNat(d, d);
    assert (8121 * t - 0x4000) * t == 8121 * (t * t) - 0x4000 * t;
    assert 0x8000 * (t * u) >= 8121 * (8188 * 8188 - 16376 * d) - 0x4000 * t;
  }

  /** ... and from above, from just after it. */
  lemma CosSumLate(t: nat)
    requires 8196 <= t <= 32767
    ensures CosSum(t) <= 23165
  {
    var v := FracMul16(-626, t);
    Rounds(-626, t);
    assert -626 <= v <= -157;
    var u := FracMul16(t, 8277 + v);
    Rounds(t, 8277 + v);
    MulMono(8277 + v, 8120, t);
    assert t * (8277 + v) == (8277 + v) * t;
    ProductRange(t, 8277 + v, 0, 8120);
    var w := -7651 + u;
    Rounds(t, w);
    hide FracMul16;
    LateProduct(t, u);
  }

  lemma LateProduct(t: nat, u: int)
    requires 8196 <= t <= 32767 && 0x8000 * u <= 8120 * t + 0x4000
    ensures forall f :: 0x8000 * f <= t * (-7651 + u) + 0x4000 ==> 32767 - t + f <= 23165
  {
    MulMono(0x8000 * u, 8120 * t + 0x4000, t);
    assert 0x8000 * u * t == 0x8000 * (t * u);
    assert t * (-7651 + u) == -7651 * t + t * u;
    assert (8120 * t + 0x4000) * t == 8120 * (t * t) + 0x4000 * t;
    var d := t - 8196;
    MulMono(d, 24571, d);
    assert t * t == 8196 * 8196 + 16392 * d + d * d;
    assert 0x8000 * (t * u) <= 8120 * (8196 * 8196 + 40963 * d) + 0x4000 * t;
  }

  /** Up to an eighth of a turn the cosine is the louder gain. */
  lemma CosineSides(x: nat)
    requires 64 <= x <= 16320
    ensures x <= 8190 ==> BitexactCos(x) >= 23175
    ensures x >= 8194 ==> BitexactCos(x) <= 23166
  {
    CosSquareRange(x);
    MulNat(x, x);
    if x <= 8190 { MulMono(x, 8190, x); MulMono(x, 8190, 8190); }
    if x >= 8194 { MulMono(8194, x, x); MulMono(8194, x, 8194); }
    var t := CosSquare(x);
    assert x <= 8190 ==> t <= 8188;
    assert x >= 8194 ==> t >= 8196;
    hide CosSum, CosSquare;
    if x <= 8190 { CosSumEarly(t); }
    if x >= 8194 { CosSumLate(t); }
  }

  /** The logarithm of a fraction lies within one octave ... */
  lemma LogPartRange(v: nat)
    requires 16384 <= v < 32768
    ensures 3316 <= LogPart(v) <= 5336
  {
    hide *;
    LogPartNear(v);
    PolynomialRange(v);
  }

  lemma PolynomialRange(v: nat)
    requires 16384 <= v < 32768
    ensures var p := 0x8000 * 7932 * v - 2597 * (v * v);
      0x4000_0000 * 3315 <= p - 0x4000 * v - 0x2000_0000 && p + 0x4000 * v + 0x2000_0000 < 0x4000_0000 * 5337
  {
    var d := v - 16384;
    assert v * v == 16384 * 16384 + 32768 * d + d * d;
    MulMono(d, 16383, d);
    var e := 16383 - d;
    assert d * d == 16383 * 16383 - 32766 * e + e * e;
    MulNat(e, e);
    hide *;
    assert v == 32767 - e;
  }

  /** ... and is its polynomial but for the rounding. */
  lemma LogPartNear(v: nat)
    requires 16384 <= v < 32768
    ensures var p := 0x8000 * 7932 * v - 2597 * (v * v);
      p - 0x4000 * v - 0x2000_0000 < 0x4000_0000 * LogPart(v) <= p + 0x4000 * v + 0x2000_0000
  {
    hide *;
    var f := FracMul16(v, -2597);
    Rounds(v, -2597);
    FactorRange(v, f);
    Rounds(v, f + 7932);
    LogPartIs(v);
    NearProduct(v, f, LogPart(v));
  }

  lemma FactorRange(v: nat, f: int)
    requires 16384 <= v < 32768 && v * -2597 - 0x4000 < 0x8000 * f <= v * -2597 + 0x4000
    ensures -2598 <= f <= -1298
  {
  }

  lemma LogPartIs(v: nat)
    ensures LogPart(v) == FracMul16(v, FracMul16(v, -2597) + 7932)
  {
    hide FracMul16;
  }

  lemma NearProduct(v: nat, f: int, g: int)
    requires v * -2597 - 0x4000 < 0x8000 * f <= v * -2597 + 0x4000
    requires v * (f + 7932) - 0x4000 < 0x8000 * g <= v * (f + 7932) + 0x4000
    ensures var p := 0x8000 * 7932 * v - 2597 * (v * v);
      p - 0x4000 * v - 0x2000_0000 < 0x4000_0000 * g <= p + 0x4000 * v + 0x2000_0000
  {
    MulMono(v * -2597 - 0x4000, 0x8000 * f, v);
    MulMono(0x8000 * f, v * -2597 + 0x4000, v);
    assert 0x8000 * f * v == 0x8000 * (v * f);
    assert v * (f + 7932) == v * f + 7932 * v;
    assert (v * -2597 - 0x4000) * v == -2597 * (v * v) - 0x4000 * v;
    assert (v * -2597 + 0x4000) * v == -2597 * (v * v) + 0x4000 * v;
  }

  /** Across the middle it grows, whatever was rounded. */
  lemma LogPartGrows(b: nat, a: nat)
    requires 16384 <= b <= 23166 && 23175 <= a < 32768
    ensures LogPart(b) <= LogPart(a)
  {
    hide *;
    LogPartNear(a);
    LogPartNear(b);
    PolynomialGrows(b, a);
  }

  lemma PolynomialGrows(b: nat, a: nat)
    requires 16384 <= b <= 23166 && 23175 <= a < 32768
    ensures 0x8000 * 7932 * b - 2597 * (b * b) + 0x4000 * b + 0x4000 * a
            <= 0x8000 * 7932 * a - 2597 * (a * a)
  {
    var d, s := a - b, a + b;
    assert a * a - b * b == s * d;
    MulMono(s, 55933, d);
  }

  lemma RaisedRange(v: nat)
    requires 1 <= v < 0x8000
    ensures 16384 <= Raised(v) < 32768
    ensures v >= 16384 ==> ILog(v) == 15 && Raised(v) == v
  {
    hide *;
    FifteenBits(v);
    RaisedIs(v);
    TopPowers();
    var l := ILog(v);
    var p := Pow2(15 - l);
    ILogBounds(v);
    Pow2Add(l - 1, 15 - l);
    Pow2Add(l, 15 - l);
    if v >= 16384 && l < 15 { Pow2Mono(l, 14); }
    MulMono(Pow2(l - 1), v, p);
    MulMono(v + 1, Pow2(l), p);
    assert (v + 1) * p == v * p + p;
  }

  lemma RaisedIs(v: nat)
    requires 1 <= v < 0x8000 && ILog(v) <= 15
    ensures Raised(v) == v * Pow2(15 - ILog(v))
  {
    hide ILog, Pow2;
  }

  lemma TopPowers()
    ensures Pow2(0) == 1 && Pow2(14) == 16384 && Pow2(15) == 32768
  {
    Pow2Values();
  }

  /** A side that is clearly the quieter one has the smaller logarithm. */
  lemma Log2TanSign(s: nat, m: nat)
    requires 1 <= s <= 23166 && 23175 <= m < 0x8000
    ensures -30720 <= BitexactLog2Tan(s, m) <= 0
  {
    FifteenBits(s);
    RaisedRange(s);
    RaisedRange(m);
    hide LogPart, Raised, ILog;
    LogPartRange(Raised(s));
    LogPartRange(m);
    if s >= 16384 { LogPartGrows(s, m); } else { LowOctave(s); }
  }

  lemma LowOctave(s: nat)
    requires 1 <= s < 16384
    ensures ILog(s) <= 14
  {
    Powers();
    ILogBounds(s);
    hide ILog;
    if ILog(s) > 14 { Pow2Mono(14, ILog(s) - 1); }
  }

  /** The three angles around the middle. */
  lemma MiddleGains()
    ensures BitexactCos(8191) == 23173 && BitexactCos(8192) == 23171 && BitexactCos(8193) == 23168
  {
    hide *;
    CosAt(8191, 8190);
    CosAt(8192, 8192);
    CosAt(8193, 8194);
    MiddleSums();
  }

  lemma MiddleSums()
    ensures CosSum(8190) == 23172 && CosSum(8192) == 23170 && CosSum(8194) == 23167
  {
    MiddleFactors();
    hide FracMul16;
  }

  lemma MiddleFactors()
    ensures FracMul16(-626, 8190) == -156 && FracMul16(-626, 8192) == -156 && FracMul16(-626, 8194) == -157
    ensures FracMul16(8190, 8121) == 2030 && FracMul16(8192, 8121) == 2030 && FracMul16(8194, 8120) == 2030
    ensures FracMul16(8190, -5621) == -1405 && FracMul16(8192, -5621) == -1405 && FracMul16(8194, -5621) == -1406
  {
  }

  lemma CosAt(x: nat, t: nat)
    requires 8192 * t - 4096 <= x * x < 8192 * t + 4096
    ensures BitexactCos(x) == 1 + CosSum(t)
  {
  }

  lemma MiddleLogs()
    ensures BitexactLog2Tan(23168, 23173) == 0
  {
    hide LogPart, ILog, Raised;
    RaisedRange(23168);
    RaisedRange(23173);
    MiddleParts();
  }

  lemma MiddleParts()
    ensures LogPart(23168) == 4310 && LogPart(23173) == 4310
  {
    assert FracMul16(23168, -2597) == -1836 && FracMul16(23173, -2597) == -1837;
    assert FracMul16(23168, 6096) == 4310 && FracMul16(23173, 6095) == 4310;
    hide FracMul16;
  }

  /** Up to an eighth of a turn the mid is the louder one and gets no fewer bits, and beyond
      it the side does: for as many coefficients as 16 bits allow. */
  lemma DeltaSign(theta: nat, N: nat)
    requires theta == 0 || theta == 16384 || Inner(theta)
    requires 1 <= N <= 256
    ensures var g := GainsOf(theta, N);
      && (theta < 8192 ==> g.side < g.mid && g.delta <= 0)
      && (theta == 8192 ==> g.side == g.mid && g.delta == 0)
      && (theta > 8192 ==> g.mid < g.side && g.delta >= 0)
  {
    if Inner(theta) {
      InnerLogSign(theta);
      hide BitexactLog2Tan, BitexactCos;
      ShareSign(N, BitexactLog2Tan(BitexactCos(16384 - theta), BitexactCos(theta)));
    }
  }

  lemma InnerLogSign(theta: nat)
    requires Inner(theta)
    ensures 1 <= BitexactCos(theta) < 0x8000 && 1 <= BitexactCos(16384 - theta) < 0x8000
    ensures var m, s := BitexactCos(theta), BitexactCos(16384 - theta);
      && (theta < 8192 ==> s < m && -30720 <= BitexactLog2Tan(s, m) <= 0)
      && (theta == 8192 ==> s == m && BitexactLog2Tan(s, m) == 0)
      && (theta > 8192 ==> m < s && 0 <= BitexactLog2Tan(s, m) <= 30720)
  {
    hide *;
    InnerRange(theta);
    var m, s := BitexactCos(theta), BitexactCos(16384 - theta);
    if theta <= 8192 { LogSign(theta); } else { LogSign(16384 - theta); Log2TanOdd(s, m); }
  }

  lemma InnerRange(theta: nat)
    requires Inner(theta)
    ensures 64 <= theta <= 16320 && Inner(16384 - theta)
    ensures 1 <= BitexactCos(theta) < 0x8000 && 1 <= BitexactCos(16384 - theta) < 0x8000
  {
    CosineAsserts(theta);
    CosineAsserts(16384 - theta);
    hide BitexactCos, CosAsserts;
  }

  lemma LogSign(theta: nat)
    requires Inner(theta) && theta <= 8192
    ensures 1 <= BitexactCos(theta) < 0x8000 && 1 <= BitexactCos(16384 - theta) < 0x8000
    ensures var m, s := BitexactCos(theta), BitexactCos(16384 - theta);
      && (theta < 8192 ==> s < m && -30720 <= BitexactLog2Tan(s, m) <= 0)
      && (theta == 8192 ==> s == m && BitexactLog2Tan(s, m) == 0)
  {
    hide *;
    InnerRange(theta);
    var m, s := BitexactCos(theta), BitexactCos(16384 - theta);
    if theta <= 8190 {
      CosineSides(theta);
      CosineSides(16384 - theta);
      Log2TanSign(s, m);
    } else {
      MiddleGains();
      MiddleLogs();
      Log2TanOdd(s, m);
    }
  }

  lemma ShareSign(N: nat, l: int)
    requires 1 <= N <= 256 && -30720 <= l <= 30720
    ensures var d := FracMul16((N - 1) * 128, l); (l <= 0 ==> d <= 0) && (l >= 0 ==> d >= 0)
  {
    var a := (N - 1) * 128;
    Rounds(a, l);
    if l <= 0 { MulMono(l, 0, a); } else { MulMono(0, l, a); }
    assert l * a == a * l;
    hide FracMul16;
  }

  /** A quarter of the way, for sixteen coefficients: cosine and sine of 22.5 degrees to 15
      bits, and nineteen bits more for the mid. */
  lemma QuarterGains()
    ensures Inner(4096) && GainsOf(4096, 16) == Gains(30274, 12540, -153)
  {
    hide *;
    AsInner(4096);
    CosAt(4096, 2048);
    CosAt(12288, 18432);
    QuarterSums();
    QuarterLog();
    QuarterShare();
    GainsAre(4096, 16);
  }

  lemma AsInner(theta: nat)
    requires 64 <= theta <= 16320
    ensures Inner(theta)
  {
  }

  lemma GainsAre(theta: nat, N: nat)
    requires Inner(theta)
    ensures 1 <= BitexactCos(theta) < 0x8000 && 1 <= BitexactCos(16384 - theta) < 0x8000
    ensures var m, s := BitexactCos(theta), BitexactCos(16384 - theta);
      GainsOf(theta, N) == Gains(m, s, FracMul16((N - 1) * 128, BitexactLog2Tan(s, m)))
  {
    CosineAsserts(theta);
    CosineAsserts(16384 - theta);
    hide BitexactCos, BitexactLog2Tan, FracMul16;
  }

  lemma QuarterSums()
    ensures CosSum(2048) == 30273 && CosSum(18432) == 12539
  {
    QuarterFactors();
    hide FracMul16;
  }

  lemma QuarterFactors()
    ensures FracMul16(-626, 2048) == -39 && FracMul16(-626, 18432) == -352
    ensures FracMul16(2048, 8238) == 515 && FracMul16(18432, 7925) == 4458
    ensures FracMul16(2048, -7136) == -446 && FracMul16(18432, -3193) == -1796
  {
  }

  lemma QuarterLog()
    ensures BitexactLog2Tan(12540, 30274) == -2611
  {
    RaisedRange(30274);
    FourteenBits(12540);
    QuarterParts();
    hide LogPart, ILog, Raised;
  }

  lemma FourteenBits(v: nat)
    requires 8192 <= v < 16384
    ensures ILog(v) == 14 && Raised(v) == 2 * v
  {
    Powers();
    ILogUnique(v, 14);
    PowZero();
    assert Pow2(1) == 2 * Pow2(0);
    hide ILog;
  }

  lemma QuarterParts()
    ensures LogPart(25080) == 4549 && LogPart(30274) == 5112
  {
    assert FracMul16(25080, -2597) == -1988 && FracMul16(30274, -2597) == -2399;
    assert FracMul16(25080, 5944) == 4549 && FracMul16(30274, 5533) == 5112;
    hide FracMul16;
  }

  lemma QuarterShare()
    ensures FracMul16(15 * 128, -2611) == -153
  {
  }

  // --------------------------------------------------------- the quantization

  /** A split that the bit allocation would starve on one side goes all the way there. */
  function Quieted(q: nat, qn: nat, N: nat, b: int): (r: nat)
    requires q <= qn <= 256 && qn > 0
    ensures r == q || r == 0 || r == qn
  {
    LevelHasGains(q, qn);
    hide Delta;
    if 0 < q < qn then
      var d := Delta(LevelAngle(q, qn), N);
      if d > b then qn else if d < -b then 0 else q
    else q
  }

  /** It goes to the end of the louder side: with bits to spend, a level of the lower half
      can only become zero, one of the upper half only the last, and the middle stays. */
  lemma QuietedEnd(q: nat, qn: nat, N: nat, b: nat)
    requires q <= qn <= 256 && qn > 0 && 1 <= N <= 256
    ensures var r := Quieted(q, qn, N, b); r == q || (2 * q < qn && r == 0) || (2 * q > qn && r == qn)
  {
    if 0 < q < qn {
      QuietedIs(q, qn, N, b);
      DivGe(q * 16384, qn, 8192);
      DivGe(q * 16384, qn, 8193);
      hide *;
      InnerDelta(LevelAngle(q, qn), N);
    }
  }

  lemma InnerDelta(theta: nat, N: nat)
    requires Inner(theta) && 1 <= N <= 256
    ensures theta <= 8192 ==> Delta(theta, N) <= 0
    ensures theta >= 8192 ==> Delta(theta, N) >= 0
  {
    hide Delta, BitexactCos;
    DeltaSign(theta, N);
  }

  /** With rounding to one side the levels are drawn towards the two ends. */
  function Below(theta: nat, qn: nat): (q: nat)
    requires qn >= 1
    ensures q < qn
  {
    var bias := if theta > 8192 then 32767 / qn else -(32767 / qn);
    Min(qn - 1, Max(0, (theta * qn + bias) / 16384))
  }

  /** The rounding chosen: to the nearest, or to the level below or above. */
  function Quantized(theta: nat, qn: nat, N: nat, b: int, stereo: bool, round: int, quiet: bool): (q: nat)
    requires theta <= 16384 && 1 <= qn <= 256
    ensures q <= qn
  {
    NearestOfAll(theta, qn, 0);
    hide NearestLevel, Quieted, Below;
    if !stereo || round == 0 then
      var q := NearestLevel(theta, qn);
      if !stereo && quiet then Quieted(q, qn, N, b) else q
    else if round < 0 then Below(theta, qn)
    else Below(theta, qn) + 1
  }

  /** The two one-sided roundings are neighbours, no further outside the angle than the
      bias, and each keeps to its side where the bias draws. */
  lemma BelowAbove(theta: nat, qn: nat)
    requires theta <= 16384 && 1 <= qn <= 256
    ensures var q := Below(theta, qn);
      && 16384 * q - 32767 / qn <= theta * qn <= 16384 * (q + 1) + 32767 / qn
      && (theta <= 8192 ==> 16384 * q <= theta * qn)
      && (theta > 8192 ==> theta * qn <= 16384 * (q + 1))
  {
    MulMono(theta, 16384, qn);
    var x := theta * qn;
    MulNat(theta, qn);
    assert 0 <= x <= 16384 * qn;
    DivGe(32767, qn, 0);
    hide *;
    BelowIs(theta, qn);
    BelowRange(x, qn, 32767 / qn, theta > 8192, Below(theta, qn));
  }

  lemma BelowIs(theta: nat, qn: nat)
    requires qn >= 1
    ensures var bias := if theta > 8192 then 32767 / qn else -(32767 / qn);
      Below(theta, qn) == Min(qn - 1, Max(0, (theta * qn + bias) / 16384))
  {
  }

  lemma BelowRange(x: int, qn: nat, bias: int, up: bool, q: int)
    requires 0 <= x <= 16384 * qn && qn >= 1 && bias >= 0
    requires q == Min(qn - 1, Max(0, (x + if up then bias else -bias) / 16384))
    ensures 16384 * q - bias <= x <= 16384 * (q + 1) + bias
    ensures if up then x <= 16384 * (q + 1) else 16384 * q <= x
  {
  }

  /** The override for splits that would be noise on one side. */
  method Quiet(q: nat, qn: nat, N: nat, b: int) returns (itheta: nat)
    requires q <= qn <= 256 && qn > 0
    ensures itheta == Quieted(q, qn, N, b)
  {
    itheta := q;
    if 0 < q < qn {
      LevelHasGains(q, qn);
      MulMono(q, qn, 16384);
      var unquantized := CeltUdiv(q * 16384, qn);
      var delta := NoiseDelta(unquantized, N);
      hide *;
      QuietedIs(q, qn, N, b);
      if delta > b { itheta := qn; } else if delta < -b { itheta := 0; }
    }
  }

  lemma QuietedIs(q: nat, qn: nat, N: nat, b: int)
    requires 0 < q < qn <= 256
    ensures Inner(LevelAngle(q, qn)) && LevelAngle(q, qn) == q * 16384 / qn
    ensures var d := Delta(LevelAngle(q, qn), N); Quieted(q, qn, N, b) == if d > b then qn else if d < -b then 0 else q
  {
    LevelHasGains(q, qn);
    hide Delta;
  }

  method NoiseDelta(unquantized: nat, N: nat) returns (delta: int)
    requires Inner(unquantized)
    ensures delta == Delta(unquantized, N)
  {
    CosineAsserts(unquantized);
    CosineAsserts(16384 - unquantized);
    hide BitexactLog2Tan, BitexactCos, FracMul16;
    var imid := BitexactCos(unquantized);
    var iside := BitexactCos(16384 - unquantized);
    delta := FracMul16((N - 1) * 128, BitexactLog2Tan(iside, imid));
  }

  /** compute_theta's quantization. */
  method Quantize(theta: nat, qn: nat, N: nat, b: int, stereo: bool, round: int, quiet: bool) returns (itheta: nat)
    requires theta <= 16384 && 1 <= qn <= 256
    ensures itheta == Quantized(theta, qn, N, b, stereo, round, quiet)
  {
    NearestOfAll(theta, qn, 0);
    hide Quieted;
    if !stereo || round == 0 {
      itheta := (theta * qn + 8192) / 16384;
      if !stereo && quiet { itheta := Quiet(itheta, qn, N, b); }
    } else {
      var bias := if theta > 8192 then 32767 / qn else -(32767 / qn);
      var down := Min(qn - 1, Max(0, (theta * qn + bias) / 16384));
      itheta := if round < 0 then down else down + 1;
    }
  }
}
