/** ec_tell_frac: bit usage in eighths of a bit, from a table of thresholds and
    from repeated squaring. */
module TellFrac {
  import opened Arith
  import opened Interval

  const CORRECTION: seq<nat> := [35733, 38967, 42495, 46340, 50535, 55109, 60097, 65535]

  /** The eighths of a bit in the top 16 bits of the range, by the table. */
  function TableEighths(r: nat): nat
    requires 0x8000 <= r < 0x1_0000
  {
    var b := r / 4096 - 8;
    if r > CORRECTION[b] then b + 1 else b
  }

  /** i bits of the fraction of log2(r / 2^15), by repeated squaring. */
  function SquareBits(r: nat, i: nat): (f: nat)
    requires 0x8000 <= r < 0x1_0000
    ensures f < Pow2(i)
    decreases i
  {
    if i == 0 then 0
    else
      Squared(r);
      var x := r * r / 0x8000;
      if x >= 0x1_0000 then Pow2(i - 1) + SquareBits(x / 2, i - 1) else SquareBits(x, i - 1)
  }

  lemma Squared(r: nat)
    requires 0x8000 <= r < 0x1_0000
    ensures 0x8000 <= r * r / 0x8000 < 0x2_0000 && r * r < 0x1_0000_0000
  {
    MulMono(0x8000, r, r);
    MulMono(0x8000, r, 0x8000);
    MulMono(r, 0xFFFF, r);
    MulMono(r, 0xFFFF, 0xFFFF);
    assert 0xFFFF * r == r * 0xFFFF;
    assert r * 0x8000 == 0x8000 * r;
  }

  lemma {:induction false} SquareMono(r: nat, s: nat, i: nat)
    requires 0x8000 <= r <= s < 0x1_0000
    ensures SquareBits(r, i) <= SquareBits(s, i)
    decreases i
  {
    if i > 0 {
      Squared(r);
      Squared(s);
      MulMono(r, s, r);
      MulMono(r, s, s);
      assert s * r == r * s;
      var x, y := r * r / 0x8000, s * s / 0x8000;
      DivMono(r * r, s * s, 0x8000);
      if x >= 0x1_0000 {
        SquareMono(x / 2, y / 2, i - 1);
      } else if y < 0x1_0000 {
        SquareMono(x, y, i - 1);
      }
    }
  }

  function Half(x: nat): nat { if x >= 0x1_0000 then x / 2 else x }

  function TopBit(x: nat): nat { if x >= 0x1_0000 then 1 else 0 }

  /** Three squarings, their intermediate values given. */
  lemma ThreeSquarings(r: nat, x: nat, y: nat, z: nat)
    requires 0x8000 <= r < 0x1_0000
    requires r * r / 0x8000 == x && Half(x) * Half(x) / 0x8000 == y && Half(y) * Half(y) / 0x8000 == z
    ensures SquareBits(r, 3) == 4 * TopBit(x) + 2 * TopBit(y) + TopBit(z)
  {
    Squared(r);
    Squared(Half(x));
    Squared(Half(y));
    assert Pow2(2) == 4 && Pow2(1) == 2 && Pow2(0) == 1;
  }

  /** The thresholds are exactly where the squared form changes. */
  lemma LowThresholds()
    ensures SquareBits(0x8000, 3) == 0
    ensures SquareBits(35733, 3) == 0 && SquareBits(35734, 3) == 1
    ensures SquareBits(38967, 3) == 1 && SquareBits(38968, 3) == 2
    ensures SquareBits(42495, 3) == 2 && SquareBits(42496, 3) == 3
  {
    hide SquareBits;
    ThreeSquarings(32768, 32768, 32768, 32768);
    ThreeSquarings(35733, 38966, 46336, 65522);
    ThreeSquarings(35734, 38968, 46341, 65536);
    ThreeSquarings(38967, 46338, 65527, 131036);
    ThreeSquarings(38968, 46341, 65536, 32768);
    ThreeSquarings(42495, 55109, 92681, 65533);
    ThreeSquarings(42496, 55112, 92692, 65550);
  }

  lemma HighThresholds()
    ensures SquareBits(46340, 3) == 3 && SquareBits(46341, 3) == 4
    ensures SquareBits(50535, 3) == 4 && SquareBits(50536, 3) == 5
    ensures SquareBits(55109, 3) == 5 && SquareBits(55110, 3) == 6
    ensures SquareBits(60097, 3) == 6 && SquareBits(60098, 3) == 7
    ensures SquareBits(65535, 3) == 7
  {
    hide SquareBits;
    ThreeSquarings(46340, 65533, 131060, 131048);
    ThreeSquarings(46341, 65536, 32768, 32768);
    ThreeSquarings(50535, 77935, 46338, 65527);
    ThreeSquarings(50536, 77938, 46343, 65541);
    ThreeSquarings(55109, 92681, 65533, 131060);
    ThreeSquarings(55110, 92685, 65538, 32770);
    ThreeSquarings(60097, 110218, 92681, 65533);
    ThreeSquarings(60098, 110222, 92688, 65544);
    ThreeSquarings(65535, 131068, 131064, 131056);
  }

  lemma BetweenThresholds(r: nat, lo: nat, hi: nat, f: nat)
    requires 0x8000 <= lo <= r <= hi < 0x1_0000 && SquareBits(lo, 3) == f && SquareBits(hi, 3) == f
    ensures SquareBits(r, 3) == f
  {
    SquareMono(lo, r, 3);
    SquareMono(r, hi, 3);
  }

  /** The table gives the squared form on every 16-bit mantissa. */
  lemma TableIsSquare(r: nat)
    requires 0x8000 <= r < 0x1_0000
    ensures TableEighths(r) == SquareBits(r, 3) <= 7
  {
    LowThresholds();
    HighThresholds();
    hide SquareBits;
    if r <= 35733 { BetweenThresholds(r, 0x8000, 35733, 0); }
    else if r <= 38967 { BetweenThresholds(r, 35734, 38967, 1); }
    else if r <= 42495 { BetweenThresholds(r, 38968, 42495, 2); }
    else if r <= 46340 { BetweenThresholds(r, 42496, 46340, 3); }
    else if r <= 50535 { BetweenThresholds(r, 46341, 50535, 4); }
    else if r <= 55109 { BetweenThresholds(r, 50536, 55109, 5); }
    else if r <= 60097 { BetweenThresholds(r, 55110, 60097, 6); }
    else { BetweenThresholds(r, 60098, 65535, 7); }
  }

  // --------------------------------------------------------- on a whole range

  /** The top 16 bits of a range of at least 16 bits. */
  function Mantissa(rng: nat): (r: nat)
    requires ILog(rng) >= 16
    ensures 0x8000 <= r < 0x1_0000
  {
    MantissaBounds(rng);
    rng / Pow2(ILog(rng) - 16)
  }

  lemma MantissaBounds(rng: nat)
    requires ILog(rng) >= 16
    ensures 0x8000 <= rng / Pow2(ILog(rng) - 16) < 0x1_0000
  {
    hide ILog, Pow2;
    ILogDrop(rng, ILog(rng) - 16);
    SixteenBits(rng / Pow2(ILog(rng) - 16));
  }

  lemma SixteenBits(m: nat)
    requires ILog(m) == 16
    ensures 0x8000 <= m < 0x1_0000
  {
    ILogBounds(m);
    Pow2Values();
  }

  /** log2 of the range in eighths of a bit, rounded down: its bit length and three
      bits of the fraction. */
  function LogEighths(rng: nat): nat
    requires ILog(rng) >= 16
  {
    8 * ILog(rng) + SquareBits(Mantissa(rng), 3)
  }

  function TellEighths(sp: Span): int
    requires Proper(sp)
  {
    RangeBits(sp);
    8 * (33 + 8 * sp.n + sp.nraw) - LogEighths(sp.rng)
  }

  /** ec_tell_frac, straight line with the table. */
  method EcTellFrac(nbitsTotal: int, rng: nat) returns (frac: int)
    requires ILog(rng) >= 16
    ensures frac == 8 * nbitsTotal - LogEighths(rng)
  {
    TableIsSquare(Mantissa(rng));
    hide SquareBits;
    var nbits := nbitsTotal * 8;
    var l := ILog(rng);
    var r := rng / Pow2(l - 16);
    var b := r / 4096 - 8;
    b := b + if r > CORRECTION[b] then 1 else 0;
    l := l * 8 + b;
    frac := nbits - l;
  }

  /** One squaring: the next bit of the fraction goes to l. */
  method SquareOnce(r0: nat, l0: nat, ghost i: nat) returns (r: nat, l: nat)
    requires 0x8000 <= r0 < 0x1_0000
    ensures 0x8000 <= r < 0x1_0000
    ensures l * Pow2(i) + SquareBits(r, i) == l0 * Pow2(i + 1) + SquareBits(r0, i + 1)
  {
    SquareStep(r0, i);
    PowDouble(i);
    hide SquareBits, Pow2;
    r := r0 * r0 / 0x8000;
    var b := r / 0x1_0000;
    l := l0 * 2 + b;
    r := if b == 1 then r / 2 else r;
    NextBit(l0, b, Pow2(i));
  }

  lemma NextBit(l: nat, b: nat, p: nat)
    requires b <= 1
    ensures (l * 2 + b) * p == l * (2 * p) + if b == 1 then p else 0
  {
  }

  /** The reference form: three squarings of the mantissa. */
  method EcTellFracReference(nbitsTotal: int, rng: nat) returns (frac: int)
    requires ILog(rng) >= 16
    ensures frac == 8 * nbitsTotal - LogEighths(rng)
  {
    hide *;
    var nbits := nbitsTotal * 8;
    var l := ILog(rng);
    var r: nat := Mantissa(rng);
    AllBits(rng);
    for i := 3 downto 0
      invariant 0x8000 <= r < 0x1_0000
      invariant l * Pow2(i) + SquareBits(r, i) == LogEighths(rng)
    {
      r, l := SquareOnce(r, l, i);
    }
    NoBits(l, r);
    frac := nbits - l;
  }

  lemma AllBits(rng: nat)
    requires ILog(rng) >= 16
    ensures ILog(rng) * Pow2(3) + SquareBits(Mantissa(rng), 3) == LogEighths(rng)
  {
    Pow2Small();
    hide ILog, Mantissa, SquareBits, Pow2;
  }

  lemma NoBits(l: nat, r: nat)
    requires 0x8000 <= r < 0x1_0000
    ensures l * Pow2(0) + SquareBits(r, 0) == l
  {
  }

  lemma Pow2Small()
    ensures Pow2(0) == 1 && Pow2(1) == 2 && Pow2(2) == 4 && Pow2(3) == 8
  {
  }

  lemma SquareStep(r: nat, i: nat)
    requires 0x8000 <= r < 0x1_0000
    ensures var x := r * r / 0x8000;
      && 0x8000 <= x < 0x2_0000
      && x / 0x1_0000 <= 1
      && SquareBits(r, i + 1) == if x / 0x1_0000 == 1 then Pow2(i) + SquareBits(x / 2, i) else SquareBits(x, i)
  {
    Squared(r);
  }

  // ------------------------------------------------------- order and scaling

  lemma EighthsBound(r: nat)
    requires 0x8000 <= r < 0x1_0000
    ensures SquareBits(r, 3) <= 7
  {
    hide SquareBits;
    Pow2Small();
  }

  lemma LogMono(a: nat, b: nat)
    requires a <= b && ILog(a) >= 16
    ensures ILog(b) >= 16 && LogEighths(a) <= LogEighths(b)
  {
    hide ILog, Pow2, SquareBits;
    ILogMono(a, b);
    EighthsBound(Mantissa(a));
    EighthsBound(Mantissa(b));
    if ILog(a) == ILog(b) {
      DivMono(a, b, Pow2(ILog(a) - 16));
      SquareMono(Mantissa(a), Mantissa(b), 3);
    }
  }

  lemma LogShift(a: nat, k: nat)
    requires ILog(a) >= 16
    ensures ILog(a * Pow2(k)) >= 16 && LogEighths(a * Pow2(k)) == LogEighths(a) + 8 * k
  {
    hide ILog, Pow2, SquareBits;
    LogHalf(a);
    ILogShift(a, k);
    var j := ILog(a) - 16;
    Pow2Add(k, j);
    DivCancel(a, Pow2(k), Pow2(j));
  }

  lemma LogDrop(a: nat, k: nat)
    requires ILog(a) >= 16 + k
    ensures ILog(a / Pow2(k)) >= 16 && LogEighths(a / Pow2(k)) == LogEighths(a) - 8 * k
  {
    hide ILog, Pow2, SquareBits;
    ILogDrop(a, k);
    var j := ILog(a) - k - 16;
    Pow2Add(k, j);
    DivDiv(a, Pow2(k), Pow2(j));
  }

  // ------------------------------------------------ where the count changes

  /** The least mantissas with 0 to 7 eighths. */
  const LEAST: seq<nat> := [32768, 35734, 38968, 42496, 46341, 50536, 55110, 60098]

  function Threshold(b: nat): nat
    requires b < 8
  {
    LEAST[b]
  }

  lemma Thresholds()
    ensures Threshold(0) == 32768 && Threshold(1) == 35734 && Threshold(2) == 38968 && Threshold(3) == 42496
    ensures Threshold(4) == 46341 && Threshold(5) == 50536 && Threshold(6) == 55110 && Threshold(7) == 60098
  {
  }

  /** The least range of v eighths above sixteen bits. */
  function LeastRange(v: nat): nat {
    Threshold(v % 8) * Pow2(v / 8)
  }

  lemma LeastMantissa(b: nat)
    requires b < 8
    ensures 0x8000 <= Threshold(b) < 0x1_0000 && SquareBits(Threshold(b), 3) == b
    ensures b > 0 ==> SquareBits(Threshold(b) - 1, 3) == b - 1
  {
    LowThresholds();
    HighThresholds();
    hide SquareBits;
  }

  lemma LeastLog(b: nat)
    requires b < 8
    ensures ILog(Threshold(b)) == 16 && LogEighths(Threshold(b)) == 128 + b
  {
    LeastMantissa(b);
    hide ILog, SquareBits;
    Pow2Values();
    ILogUnique(Threshold(b), 16);
    PowZero();
  }

  lemma LogLeast(v: nat)
    ensures ILog(LeastRange(v)) >= 16 && LogEighths(LeastRange(v)) == 128 + v
  {
    hide ILog, SquareBits, LogEighths;
    LeastLog(v % 8);
    LogShift(Threshold(v % 8), v / 8);
  }

  /** A range reaches v eighths exactly from there on. */
  lemma LogFrom(a: nat, v: nat)
    requires ILog(a) >= 16
    ensures LogEighths(a) >= 128 + v <==> a >= LeastRange(v)
  {
    hide ILog, LeastRange, LogEighths;
    LogLeast(v);
    if a >= LeastRange(v) {
      LogMono(LeastRange(v), a);
    } else if LogEighths(a) >= 128 + v {
      LogMono(a, LeastRange(v));
      LeastReached(a, v);
    }
  }

  lemma LeastReached(a: nat, v: nat)
    requires ILog(a) >= 16 && LogEighths(a) == 128 + v
    ensures a >= LeastRange(v)
  {
    hide ILog, Pow2, SquareBits;
    var l, m := ILog(a), Mantissa(a);
    EighthsBound(m);
    LeastMantissa(v % 8);
    if m < Threshold(v % 8) { SquareMono(m, Threshold(v % 8) - 1, 3); }
    MulMono(Threshold(v % 8), m, Pow2(l - 16));
  }

  // -------------------------------------------------------- what a step costs

  /** Rescaling multiplies the range by a byte for each digit. */
  lemma {:induction false} NormScale(sp: Span)
    requires 0 < sp.rng <= TOP
    ensures Norm(sp).n >= sp.n && Norm(sp).nraw == sp.nraw
    ensures Norm(sp).rng == sp.rng * Pow2(8 * (Norm(sp).n - sp.n))
    decreases TOP - sp.rng
  {
    if sp.rng <= BOT {
      var next := Span(sp.low * 256, sp.rng * 256, sp.n + 1, sp.nraw);
      NormScale(next);
      var d := Norm(sp).n - next.n;
      Pow2Byte(d);
      assert sp.rng * 256 * Pow2(8 * d) == sp.rng * (256 * Pow2(8 * d));
    } else {
      PowZero();
    }
  }

  /** Fractional usage never goes down. */
  lemma StepEighthsMono(sp: Span, op: Op)
    requires Proper(sp) && Legal(op)
    ensures TellEighths(sp) <= TellEighths(Step(sp, op))
  {
    RangeBits(sp);
    RangeBits(Step(sp, op));
    if op.Sym? {
      EndsInside(sp.rng, op);
      var w := Narrow(sp, op);
      NormScale(w);
      var k := 8 * (Norm(w).n - w.n);
      MulMono(w.rng, sp.rng, Pow2(k));
      LogMono(Norm(w).rng, sp.rng * Pow2(k));
      LogShift(sp.rng, k);
    }
  }

  lemma {:induction false} RunEighthsMono(sp: Span, ops: seq<Op>)
    requires Proper(sp) && AllLegal(ops)
    ensures TellEighths(sp) <= TellEighths(Run(sp, ops))
  {
    if |ops| > 0 {
      RunEighthsMono(sp, ops[..|ops| - 1]);
      StepEighthsMono(Run(sp, ops[..|ops| - 1]), ops[|ops| - 1]);
    }
  }

  /** One symbol of an n-bit model, n <= 8, costs at most 8n eighths. */
  lemma StepEighths(sp: Span, op: Op, bits: nat)
    requires Proper(sp) && Legal(op) && op.Sym? && bits <= 8 && op.ft == Pow2(bits)
    ensures TellEighths(Step(sp, op)) <= TellEighths(sp) + 8 * bits
  {
    RangeBits(sp);
    RangeBits(Step(sp, op));
    EndsInside(sp.rng, op);
    var w := Narrow(sp, op);
    LogDrop(sp.rng, bits);
    LogMono(sp.rng / Pow2(bits), w.rng);
    NormScale(w);
    LogShift(w.rng, 8 * (Norm(w).n - w.n));
  }

  /** A symbol with two or more parts of an n-bit model costs a bit less. */
  lemma StepEighthsWide(sp: Span, op: Op, bits: nat)
    requires Proper(sp) && Legal(op) && op.Sym? && 1 <= bits <= 8 && op.ft == Pow2(bits) && op.fh - op.fl >= 2
    ensures TellEighths(Step(sp, op)) <= TellEighths(sp) + 8 * (bits - 1)
  {
    hide *;
    NarrowIs(sp, op);
    TwiceApart(sp.rng, op);
    RangeBits(sp);
    LogDrop(sp.rng, bits);
    var part := sp.rng / Pow2(bits);
    assert sp.rng / op.ft == part;
    TwiceLog(part);
    StepAtLeast(sp, op, part * 2);
  }

  lemma TwiceLog(a: nat)
    requires ILog(a) >= 16
    ensures ILog(a * 2) >= 16 && LogEighths(a * 2) == LogEighths(a) + 8
  {
    hide ILog, LogEighths;
    LogShift(a, 1);
    Pow2Small();
  }

  lemma NarrowIs(sp: Span, op: Op)
    requires Proper(sp) && Legal(op) && op.Sym?
    ensures Narrow(sp, op).rng == Far(sp.rng, op) - Near(sp.rng, op) && BOT <= sp.rng
  {
    hide Far, Near;
  }

  /** A step that leaves at least x of the range. */
  lemma StepAtLeast(sp: Span, op: Op, x: nat)
    requires Proper(sp) && Legal(op) && op.Sym? && ILog(sp.rng) >= 16 && ILog(x) >= 16 && Narrow(sp, op).rng >= x
    ensures TellEighths(Step(sp, op)) <= TellEighths(sp) + LogEighths(sp.rng) - LogEighths(x)
  {
    RangeBits(Step(sp, op));
    var w := Narrow(sp, op);
    NormScale(w);
    hide ILog, LogEighths, Narrow, Pow2;
    LogMono(x, w.rng);
    LogShift(w.rng, 8 * (Norm(w).n - w.n));
  }

  lemma TwiceApart(rng: nat, op: Op)
    requires op.Sym? && Legal(op) && BOT <= rng && op.fh - op.fl >= 2
    ensures Far(rng, op) - Near(rng, op) >= rng / op.ft * 2
  {
    var r := rng / op.ft;
    Ends(rng, op);
    MulMono(2, op.fh - op.fl, r);
    assert r * (op.fh - op.fl) == (op.fh - op.fl) * r && r * 2 == 2 * r;
    if op.first {
      assert r * op.ft <= rng;
      assert r * op.ft == r * (op.ft - op.fh) + r * op.fh;
    }
  }

  /** ec_tell is ec_tell_frac rounded up to whole bits. */
  lemma TellOfEighths(sp: Span)
    requires Proper(sp)
    ensures 8 * Tell(sp) - 7 <= TellEighths(sp) <= 8 * Tell(sp)
  {
    RangeBits(sp);
    EighthsBound(Mantissa(sp.rng));
    hide ILog, SquareBits, Mantissa;
  }
}
