/** Coarse energy: which model each band's quantized energy is coded with as the
    budget runs out, and what both sides make of the values. */
module Energy {
  import opened Arith
  import opened Interval
  import opened EntCode
  import opened Duplex
  import opened Laplace
  import opened LaplaceCoder
  import opened EnergyModel

  const SMALL_ICDF: seq<nat> := [2, 1, 0]

  /** The setting of one frame: the span before the first band. */
  datatype Frame = Frame(sp: Span, budget: int, start: nat, C: nat, lm: nat, intra: bool)

  predicate ValidFrame(f: Frame) { Proper(f.sp) && 1 <= f.C <= 2 && f.lm <= 3 }

  /** Values are coded band by band, channel by channel. */
  function Band(f: Frame, k: nat): nat { f.start + if f.C == 2 then k / 2 else k }

  function Channel(f: Frame, k: nat): nat { if f.C == 2 then k % 2 else 0 }

  function Peak(f: Frame, k: nat): (p: nat)
    requires ValidFrame(f)
    ensures 0 < p
  {
    var i := Min(Band(f, k), 20);
    TableFits(f.lm, f.intra, i);
    128 * ModelRow(f.lm, f.intra)[i].0
  }

  function DecayOf(f: Frame, k: nat): (d: nat)
    requires ValidFrame(f)
    ensures Model(Peak(f, k), d)
  {
    var i := Min(Band(f, k), 20);
    TableFits(f.lm, f.intra, i);
    hide ModelRow;
    64 * ModelRow(f.lm, f.intra)[i].1
  }

  /** The table counts in parts of 256: of the whole line the share of zero, of one the factor
      between neighbouring magnitudes.  The 21st entry serves all later bands. */
  lemma ModelShares(f: Frame, k: nat)
    requires ValidFrame(f) && |ModelRow(f.lm, f.intra)| == 21
    ensures var p := ModelRow(f.lm, f.intra)[if Band(f, k) >= 20 then 20 else Band(f, k)];
      && 256 * Peak(f, k) == 0x8000 * p.0 && 256 * DecayOf(f, k) == 0x4000 * p.1
      && Codable(Peak(f, k), DecayOf(f, k), 0)
      && LaplaceOp(Peak(f, k), DecayOf(f, k), 0) == Sym(true, 0, Peak(f, k), FT)
  {
    TableFits(f.lm, f.intra, Min(Band(f, k), 20));
    hide ModelRow, Base, Freq;
  }

  /** The first band of the shortest frames: zero has 72 of 256 parts, predicted from the
      last frame, and 24 without. */
  lemma FirstModels(f: Frame)
    requires ValidFrame(f) && f.lm == 0 && f.start == 0
    ensures Peak(f, 0) == if f.intra then 3072 else 9216
    ensures DecayOf(f, 0) == if f.intra then 11456 else 8128
  {
  }

  /** The value can be coded at this point of the stream. */
  predicate Sendable(f: Frame, sp: Span, k: nat, q: int)
    requires ValidFrame(f)
  {
    var left := f.budget - Tell(sp);
    if left >= 15 then Codable(Peak(f, k), DecayOf(f, k), q)
    else if left >= 2 then -1 <= q <= 1
    else if left >= 1 then -1 <= q <= 0
    else q == -1
  }

  /** Zero, minus one, one. */
  function Fold(q: int): nat { if q == 0 then 0 else if q < 0 then 1 else 2 }

  function Unfold(s: nat): int { if s == 0 then 0 else if s == 1 then -1 else 1 }

  /** The three small values in the order of their distance from zero, the negative one
      first: as the sign is folded into the last bit. */
  lemma FoldedSign(q: int)
    requires -1 <= q <= 1
    ensures Fold(q) == (if q < 0 then -2 * q - 1 else 2 * q) && Unfold(Fold(q)) == q
    ensures HasWidth(SMALL_ICDF, Fold(q), 2) && IcdfTable(SMALL_ICDF, 2)
    ensures var op := IcdfOp(Fold(q), SMALL_ICDF, 2); op.ft == 4 && op.fh - op.fl == if q == 0 then 2 else 1
  {
    SmallModel();
    hide Pow2;
  }

  lemma SmallModel()
    ensures IcdfTable(SMALL_ICDF, 2) && forall s :: 0 <= s < 3 ==> HasWidth(SMALL_ICDF, s, 2)
    ensures Pow2(2) == 4
  {
  }

  /** How it is coded there; nothing is coded once the budget is used up. */
  function Coding(f: Frame, sp: Span, k: nat, q: int): (ops: seq<Op>)
    requires ValidFrame(f) && Sendable(f, sp, k, q)
    ensures AllLegal(ops)
  {
    var left := f.budget - Tell(sp);
    if left >= 15 then [LaplaceOp(Peak(f, k), DecayOf(f, k), q)]
    else if left >= 2 then SmallModel(); [IcdfOp(Fold(q), SMALL_ICDF, 2)]
    else if left >= 1 then [BitOp(q != 0, 1)]
    else []
  }

  /** The steps of the first n values, where each fits. */
  function EnergyOps(f: Frame, qs: seq<int>, n: nat): (ops: seq<Op>)
    requires ValidFrame(f) && n <= |qs|
    ensures AllLegal(ops)
  {
    hide Sendable, Coding, Run;
    if n == 0 then []
    else
      var before := EnergyOps(f, qs, n - 1);
      var sp := Run(f.sp, before);
      if Sendable(f, sp, n - 1, qs[n - 1]) then before + Coding(f, sp, n - 1, qs[n - 1]) else before
  }

  function SpanAt(f: Frame, qs: seq<int>, n: nat): (sp: Span)
    requires ValidFrame(f) && n <= |qs|
    ensures Proper(sp)
  {
    Run(f.sp, EnergyOps(f, qs, n))
  }

  predicate AllFit(f: Frame, qs: seq<int>, n: nat)
    requires ValidFrame(f) && n <= |qs|
  {
    n == 0 || (AllFit(f, qs, n - 1) && Sendable(f, SpanAt(f, qs, n - 1), n - 1, qs[n - 1]))
  }

  lemma OpsNext(f: Frame, qs: seq<int>, n: nat)
    requires ValidFrame(f) && n < |qs| && Sendable(f, SpanAt(f, qs, n), n, qs[n])
    ensures EnergyOps(f, qs, n + 1) == EnergyOps(f, qs, n) + Coding(f, SpanAt(f, qs, n), n, qs[n])
    ensures AllFit(f, qs, n + 1) <==> AllFit(f, qs, n)
    ensures SpanAt(f, qs, n + 1) == Run(SpanAt(f, qs, n), Coding(f, SpanAt(f, qs, n), n, qs[n]))
  {
    hide Run, Sendable, Coding;
    RunConcat(f.sp, EnergyOps(f, qs, n), Coding(f, SpanAt(f, qs, n), n, qs[n]));
  }

  // --------------------------------------------------------------- the budget

  lemma CodingTell(f: Frame, sp: Span, k: nat, q: int)
    requires ValidFrame(f) && Proper(sp) && Sendable(f, sp, k, q)
    ensures Tell(sp) <= Tell(Run(sp, Coding(f, sp, k, q))) <= Max(Tell(sp), f.budget)
  {
    SmallModel();
    Pow2Values();
    assert Pow2(1) == 2;
    hide Run, Tell, LaplaceOp, IcdfOp, Codable, DecayOf, Peak, Pow2, IcdfTable, HasWidth;
    var left := f.budget - Tell(sp);
    if left >= 15 {
      OneStep(sp, LaplaceOp(Peak(f, k), DecayOf(f, k), q), 15);
    } else if left >= 2 {
      OneStep(sp, IcdfOp(Fold(q), SMALL_ICDF, 2), 2);
    } else if left >= 1 {
      OneStep(sp, BitOp(q != 0, 1), 1);
    } else {
      RunNone(sp);
    }
  }

  lemma OneStep(sp: Span, op: Op, bits: nat)
    requires Proper(sp) && Legal(op) && op.Sym? && op.ft == Pow2(bits)
    ensures AllLegal([op]) && Tell(sp) <= Tell(Run(sp, [op])) <= Tell(sp) + bits
  {
    RunSnoc(sp, [], op);
    assert [] + [op] == [op];
    hide Run, Tell;
    RunNone(sp);
    StepTell(sp, op, bits);
  }

  /** Whatever the values, the bit count stays within the budget. */
  lemma {:induction false} WithinBudget(f: Frame, qs: seq<int>, n: nat)
    requires ValidFrame(f) && n <= |qs| && AllFit(f, qs, n)
    ensures Tell(f.sp) <= Tell(SpanAt(f, qs, n)) <= Max(Tell(f.sp), f.budget)
  {
    hide Tell, Sendable, Coding;
    if n > 0 {
      WithinBudget(f, qs, n - 1);
      hide SpanAt, EnergyOps;
      OpsNext(f, qs, n - 1);
      CodingTell(f, SpanAt(f, qs, n - 1), n - 1, qs[n - 1]);
    } else {
      RunNone(f.sp);
    }
  }

  // ----------------------------------------------------------------- lockstep

  lemma CodingOnce(buf: seq<byte>, f: Frame, sp: Span, k: nat, v: int, w: int)
    requires ValidFrame(f) && Proper(sp) && Sendable(f, sp, k, v) && Sendable(f, sp, k, w)
    requires Carries(buf, sp, Coding(f, sp, k, v)) && Carries(buf, sp, Coding(f, sp, k, w))
    ensures v == w
  {
    SmallModel();
    hide Carries, Tell, LaplaceOp, IcdfOp, Codable, DecayOf, Peak, IcdfTable, HasWidth, ReadsOp;
    var left := f.budget - Tell(sp);
    if left >= 15 {
      CarriesOne(buf, sp, LaplaceOp(Peak(f, k), DecayOf(f, k), v));
      CarriesOne(buf, sp, LaplaceOp(Peak(f, k), DecayOf(f, k), w));
      LaplaceOnce(buf, sp, Peak(f, k), DecayOf(f, k), v, w);
    } else if left >= 2 {
      CarriesOne(buf, sp, IcdfOp(Fold(v), SMALL_ICDF, 2));
      CarriesOne(buf, sp, IcdfOp(Fold(w), SMALL_ICDF, 2));
      IcdfOnce(buf, sp, Fold(v), Fold(w), SMALL_ICDF, 2);
    } else if left >= 1 {
      CarriesOne(buf, sp, BitOp(v != 0, 1));
      CarriesOne(buf, sp, BitOp(w != 0, 1));
      BitOnce(buf, sp, v != 0, w != 0, 1);
    }
  }

  /** A packet supports one sequence of values: those the encoder ended up with. */
  lemma {:induction false} EnergyOnce(buf: seq<byte>, f: Frame, v: seq<int>, w: seq<int>, n: nat)
    requires ValidFrame(f) && n <= |v| && n <= |w| && AllFit(f, v, n) && AllFit(f, w, n)
    requires Carries(buf, f.sp, EnergyOps(f, v, n)) && Carries(buf, f.sp, EnergyOps(f, w, n))
    ensures v[..n] == w[..n] && EnergyOps(f, v, n) == EnergyOps(f, w, n)
  {
    hide Sendable, Coding, Carries, Run;
    if n > 0 {
      var sp := SpanAt(f, v, n - 1);
      CarriesConcat(buf, f.sp, EnergyOps(f, v, n - 1), Coding(f, sp, n - 1, v[n - 1]));
      CarriesConcat(buf, f.sp, EnergyOps(f, w, n - 1), Coding(f, SpanAt(f, w, n - 1), n - 1, w[n - 1]));
      EnergyOnce(buf, f, v, w, n - 1);
      CodingOnce(buf, f, sp, n - 1, v[n - 1], w[n - 1]);
      assert v[..n] == v[..n - 1] + [v[n - 1]] && w[..n] == w[..n - 1] + [w[n - 1]];
    }
  }

  lemma {:induction false} FitPrefix(f: Frame, v: seq<int>, w: seq<int>, n: nat)
    requires ValidFrame(f) && n <= |v| && n <= |w| && v[..n] == w[..n]
    ensures EnergyOps(f, v, n) == EnergyOps(f, w, n) && AllFit(f, v, n) == AllFit(f, w, n)
  {
    hide Sendable, Coding, Run;
    if n > 0 {
      assert v[..n][n - 1] == w[..n][n - 1];
      assert v[..n - 1] == v[..n][..n - 1] && w[..n - 1] == w[..n][..n - 1];
      FitPrefix(f, v, w, n - 1);
    }
  }

  /** With fifteen bits to spare after the values, they do not depend on the budget. */
  lemma {:induction false} AmpleSame(f: Frame, g: Frame, qs: seq<int>, n: nat)
    requires ValidFrame(f) && g == f.(budget := g.budget) && n <= |qs| && AllFit(f, qs, n)
    requires Tell(SpanAt(f, qs, n)) + 15 <= f.budget && Tell(SpanAt(f, qs, n)) + 15 <= g.budget
    ensures EnergyOps(g, qs, n) == EnergyOps(f, qs, n) && AllFit(g, qs, n)
  {
    hide Sendable, Coding, Run, Tell;
    if n > 0 {
      var sp, q := SpanAt(f, qs, n - 1), qs[n - 1];
      OpsNext(f, qs, n - 1);
      RunTellMono(sp, Coding(f, sp, n - 1, q));
      AmpleSame(f, g, qs, n - 1);
      AmpleCoding(f, g, sp, n - 1, q);
    }
  }

  lemma AmpleCoding(f: Frame, g: Frame, sp: Span, k: nat, q: int)
    requires ValidFrame(f) && g == f.(budget := g.budget) && Sendable(f, sp, k, q)
    requires Tell(sp) + 15 <= f.budget && Tell(sp) + 15 <= g.budget
    ensures Sendable(g, sp, k, q) && Coding(g, sp, k, q) == Coding(f, sp, k, q)
  {
    hide Tell, Codable, LaplaceOp;
    SamePeak(f, g, k);
  }

  lemma SamePeak(f: Frame, g: Frame, k: nat)
    requires ValidFrame(f) && g == f.(budget := g.budget)
    ensures Peak(g, k) == Peak(f, k) && DecayOf(g, k) == DecayOf(f, k)
  {
    hide ModelRow;
  }

  // ------------------------------------------------ what the values stand for

  const UNIT: int := 0x100_0000  // one step of the coarse energy
  const BETA_INTRA: int := 4915
  const PRED_COEF: seq<int> := [29440, 26112, 21248, 16384]
  const BETA_COEF: seq<int> := [30147, 22282, 12124, 6554]

  /** MULT16_32_Q15 */
  function Mult15(a: int, b: int): int { a * b / 0x8000 }

  /** SHL32(q, DB_SHIFT): wraps in 32 bits. */
  function Shift(q: int): int { (q * UNIT + 0x8000_0000) % 0x1_0000_0000 - 0x8000_0000 }

  function Coef(f: Frame): int
    requires ValidFrame(f)
  {
    if f.intra then 0 else PRED_COEF[f.lm]
  }

  function Beta(f: Frame): int
    requires ValidFrame(f)
  {
    if f.intra then BETA_INTRA else BETA_COEF[f.lm]
  }

  /** prev[c] before value k: what the earlier bands of the channel left. */
  function Prev(f: Frame, qs: seq<int>, k: nat): int
    requires ValidFrame(f) && k < |qs| + f.C
  {
    if k < f.C then 0
    else
      var q := Shift(qs[k - f.C]);
      Prev(f, qs, k - f.C) + q - Mult15(Beta(f), q)
  }

  /** Index of value k in the band arrays. */
  function Place(f: Frame, nb: nat, k: nat): nat { Band(f, k) + Channel(f, k) * nb }

  /** The prediction from the last frame's energy. */
  function Predicted(f: Frame, was: int): int
    requires ValidFrame(f)
  {
    Mult15(Coef(f), Max(-9 * UNIT, was))
  }

  /** oldEBands[] as the encoder leaves it ... */
  function EncLevel(f: Frame, qs: seq<int>, k: nat, was: int): int
    requires ValidFrame(f) && k < |qs|
  {
    Max(-28 * UNIT, Predicted(f, was) + Prev(f, qs, k) + Shift(qs[k]))
  }

  /** ... and as the decoder does, which alone also bounds it from above. */
  function DecLevel(f: Frame, qs: seq<int>, k: nat, was: int): int
    requires ValidFrame(f) && k < |qs|
  {
    Min(28 * UNIT, Max(-28 * UNIT, Predicted(f, was) + Prev(f, qs, k) + Shift(qs[k])))
  }

  function LevelOf(f: Frame, qs: seq<int>, k: nat, was: int, decoder: bool): int
    requires ValidFrame(f) && k < |qs|
  {
    if decoder then DecLevel(f, qs, k, was) else EncLevel(f, qs, k, was)
  }

  lemma {:induction false} PrevPrefix(f: Frame, v: seq<int>, w: seq<int>, k: nat)
    requires ValidFrame(f) && k <= |v| && k <= |w| && v[..k] == w[..k]
    ensures Prev(f, v, k) == Prev(f, w, k)
  {
    hide Beta, Mult15, Shift;
    if k >= f.C {
      var j := k - f.C;
      assert v[..k][j] == w[..k][j];
      assert v[..j] == v[..k][..j] && w[..j] == w[..k][..j];
      PrevPrefix(f, v, w, j);
    }
  }

  /** The sum of the values of earlier bands of value k's channel. */
  function Earlier(f: Frame, qs: seq<int>, k: nat): int
    requires ValidFrame(f) && k < |qs| + f.C
  {
    if k < f.C then 0 else Earlier(f, qs, k - f.C) + qs[k - f.C]
  }

  predicate Narrow8(qs: seq<int>) { forall k :: 0 <= k < |qs| ==> -128 <= qs[k] < 128 }

  /** The share of the last frame's energy, of 32768 parts: none in an intra frame, and less
      the longer the frame is ... */
  function Leak(intra: bool, lm: nat): int {
    if intra then 0 else if lm == 0 then 29440 else if lm == 1 then 26112 else if lm == 2 then 21248 else 16384
  }

  /** ... and what an earlier band of the same frame adds to a later one. */
  function Slope(intra: bool, lm: nat): int {
    if intra then 27853 else if lm == 0 then 2621 else if lm == 1 then 10486 else if lm == 2 then 20644 else 26214
  }

  /** No product of a value in 8 bits is rounded: prev is this multiple of their sum. */
  lemma {:induction false} PrevClosed(f: Frame, qs: seq<int>, k: nat)
    requires ValidFrame(f) && k < |qs| + f.C && Narrow8(qs)
    ensures Prev(f, qs, k) == 512 * Slope(f.intra, f.lm) * Earlier(f, qs, k)
  {
    if k >= f.C {
      PrevClosed(f, qs, k - f.C);
      var q := qs[k - f.C];
      StepClosed(f, q);
      hide Beta, Mult15, Shift, Slope;
      assert 512 * Slope(f.intra, f.lm) * (Earlier(f, qs, k - f.C) + q)
             == 512 * Slope(f.intra, f.lm) * Earlier(f, qs, k - f.C) + 512 * Slope(f.intra, f.lm) * q;
    }
  }

  lemma StepClosed(f: Frame, q: int)
    requires ValidFrame(f) && -128 <= q < 128
    ensures Shift(q) == q * UNIT && Shift(q) - Mult15(Beta(f), Shift(q)) == 512 * Slope(f.intra, f.lm) * q
  {
    assert Shift(q) == q * UNIT;
    var b := Beta(f);
    assert b * (q * UNIT) == 512 * (b * q) * 0x8000;
    DivUnique(b * (q * UNIT), 0x8000, 512 * (b * q), 0);
    assert Slope(f.intra, f.lm) == 0x8000 - b;
    hide Slope, Beta, Shift;
    assert (0x8000 - b) * q == 0x8000 * q - b * q;
  }

  /** A band's level in closed form. */
  lemma LevelClosed(f: Frame, qs: seq<int>, k: nat, was: int)
    requires ValidFrame(f) && k < |qs| && Narrow8(qs)
    ensures var e := Leak(f.intra, f.lm) * Max(-9 * UNIT, was) / 0x8000
                     + 512 * Slope(f.intra, f.lm) * Earlier(f, qs, k) + qs[k] * UNIT;
      EncLevel(f, qs, k, was) == Max(-28 * UNIT, e) && DecLevel(f, qs, k, was) == Min(28 * UNIT, Max(-28 * UNIT, e))
  {
    PrevClosed(f, qs, k);
    StepClosed(f, qs[k]);
    LeakIs(f);
    hide Prev, Shift, Coef, Leak, Slope;
  }

  lemma LeakIs(f: Frame)
    requires ValidFrame(f)
    ensures Coef(f) == Leak(f.intra, f.lm)
    ensures f.intra ==> Coef(f) == 0
    ensures 0 <= Coef(f) <= 29440
  {
  }

  /** Two sides that go on from different energies are closer after the frame, but for one
      unit of rounding, and equal after an intra frame. */
  lemma LevelForgets(f: Frame, qs: seq<int>, k: nat, a: int, b: int, decoder: bool)
    requires ValidFrame(f) && k < |qs|
    ensures var d := Abs(LevelOf(f, qs, k, a, decoder) - LevelOf(f, qs, k, b, decoder));
      (f.intra ==> d == 0) && 0x8000 * d < Leak(f.intra, f.lm) * Abs(a - b) + 0x8000
  {
    LeakIs(f);
    hide Prev, Shift, Coef, Leak;
    var x, y := Max(-9 * UNIT, a), Max(-9 * UNIT, b);
    MulMono(Abs(x - y), Abs(a - b), Coef(f));
    ProductsNear(Coef(f), x, y);
    assert Coef(f) * Abs(a - b) == Abs(a - b) * Coef(f);
    hide Mult15;
  }

  lemma ProductsNear(c: int, x: int, y: int)
    requires 0 <= c
    ensures 0x8000 * Abs(Mult15(c, x) - Mult15(c, y)) < Abs(x - y) * c + 0x8000
    ensures c == 0 ==> Mult15(c, x) == Mult15(c, y)
  {
    assert c * x - c * y == (x - y) * c;
    if x >= y { MulMono(0, x - y, c); } else { MulMono(x - y, 0, c); assert (x - y) * c == -((y - x) * c); }
    FloorsNear(c * x, c * y);
  }

  lemma FloorsNear(a: int, b: int)
    ensures 0x8000 * Abs(a / 0x8000 - b / 0x8000) < Abs(a - b) + 0x8000
  {
  }

  // ------------------------------------------------------ the band arrays

  /** Distinct values have distinct places. */
  lemma PlaceOnce(f: Frame, nb: nat, j: nat, k: nat)
    requires ValidFrame(f) && j < k && Band(f, k) < nb
    ensures Place(f, nb, j) != Place(f, nb, k)
  {
  }

  lemma PlaceInside(f: Frame, nb: nat, k: nat)
    requires ValidFrame(f) && Band(f, k) < nb
    ensures Place(f, nb, k) < f.C * nb
  {
  }

  /** The first n values have places in arrays of this size. */
  predicate Inside(f: Frame, nb: nat, n: nat, size: nat)
    requires ValidFrame(f)
  {
    f.C * nb <= size && (n == 0 || Band(f, n - 1) < nb)
  }

  /** oldEBands[] after the first n values: theirs are set, all others are as before. */
  function Filled(f: Frame, nb: nat, qs: seq<int>, n: nat, was: seq<int>, decoder: bool): (now: seq<int>)
    requires ValidFrame(f) && n <= |qs| && Inside(f, nb, n, |was|)
    ensures |now| == |was|
  {
    hide LevelOf;
    if n == 0 then was
    else
      PlaceInside(f, nb, n - 1);
      var at := Place(f, nb, n - 1);
      Filled(f, nb, qs, n - 1, was, decoder)[at := LevelOf(f, qs, n - 1, was[at], decoder)]
  }

  lemma {:induction false} FilledAt(f: Frame, nb: nat, qs: seq<int>, n: nat, was: seq<int>, decoder: bool, k: nat)
    requires ValidFrame(f) && k < n <= |qs| && Inside(f, nb, n, |was|)
    ensures Place(f, nb, k) < |was|
    ensures Filled(f, nb, qs, n, was, decoder)[Place(f, nb, k)] == LevelOf(f, qs, k, was[Place(f, nb, k)], decoder)
  {
    PlaceInside(f, nb, k);
    hide Place, LevelOf;
    if k < n - 1 {
      FilledAt(f, nb, qs, n - 1, was, decoder, k);
      PlaceOnce(f, nb, k, n - 1);
    }
  }

  lemma {:induction false} FilledElsewhere(f: Frame, nb: nat, qs: seq<int>, n: nat, was: seq<int>, decoder: bool,
                                           j: nat)
    requires ValidFrame(f) && n <= |qs| && Inside(f, nb, n, |was|) && j < |was|
    requires forall k :: 0 <= k < n ==> Place(f, nb, k) != j
    ensures Filled(f, nb, qs, n, was, decoder)[j] == was[j]
  {
    hide Place, LevelOf;
    if n > 0 { FilledElsewhere(f, nb, qs, n - 1, was, decoder, j); }
  }

  /** After an intra frame a band's entry does not depend on the energies before; after any
      other, what it had of them has faded. */
  lemma EntryForgets(f: Frame, nb: nat, qs: seq<int>, n: nat, a: seq<int>, b: seq<int>, decoder: bool, k: nat)
    requires ValidFrame(f) && k < n <= |qs| && |a| == |b| && Inside(f, nb, n, |a|)
    ensures var at := Place(f, nb, k);
      && at < |a|
      && var d := Abs(Filled(f, nb, qs, n, a, decoder)[at] - Filled(f, nb, qs, n, b, decoder)[at]);
         (f.intra ==> d == 0) && 0x8000 * d < Leak(f.intra, f.lm) * Abs(a[at] - b[at]) + 0x8000
  {
    hide LevelOf, Place, Inside, Leak;
    FilledAt(f, nb, qs, n, a, decoder, k);
    FilledAt(f, nb, qs, n, b, decoder, k);
    LevelForgets(f, qs, k, a[Place(f, nb, k)], b[Place(f, nb, k)], decoder);
  }

  /** Two arrays with equal energies in the bands of the first n values. */
  predicate SameCoded(f: Frame, nb: nat, n: nat, x: seq<int>, y: seq<int>) {
    && |x| == |y|
    && forall k :: 0 <= k < n ==> Place(f, nb, k) < |x| && x[Place(f, nb, k)] == y[Place(f, nb, k)]
  }

  lemma IntraForgets(f: Frame, nb: nat, qs: seq<int>, n: nat, a: seq<int>, b: seq<int>, decoder: bool)
    requires ValidFrame(f) && n <= |qs| && |a| == |b| && Inside(f, nb, n, |a|) && f.intra
    ensures SameCoded(f, nb, n, Filled(f, nb, qs, n, a, decoder), Filled(f, nb, qs, n, b, decoder))
  {
    hide Filled, Inside, Place, Leak;
    forall k | 0 <= k < n
      ensures Place(f, nb, k) < |a|
      ensures Filled(f, nb, qs, n, a, decoder)[Place(f, nb, k)] == Filled(f, nb, qs, n, b, decoder)[Place(f, nb, k)]
    {
      EntryForgets(f, nb, qs, n, a, b, decoder, k);
    }
  }

  /** One packet, two decoders that lost different frames before: they read the same values,
      and after an intra frame their energies agree in every coded band. */
  lemma IntraRecovers(buf: seq<byte>, f: Frame, nb: nat, v: seq<int>, w: seq<int>, a: seq<int>, b: seq<int>)
    requires ValidFrame(f) && |v| == |w| && AllFit(f, v, |v|) && AllFit(f, w, |w|)
    requires Carries(buf, f.sp, EnergyOps(f, v, |v|)) && Carries(buf, f.sp, EnergyOps(f, w, |w|))
    requires |a| == |b| && Inside(f, nb, |v|, |a|) && f.intra
    ensures v == w && SameCoded(f, nb, |v|, Filled(f, nb, v, |v|, a, true), Filled(f, nb, w, |w|, b, true))
  {
    hide *;
    EnergyOnce(buf, f, v, w, |v|);
    assert v[..|v|] == v && w[..|v|] == w;
    IntraForgets(f, nb, v, |v|, a, b, true);
  }

  /** The place of the next value is still as it was. */
  lemma FilledNext(f: Frame, nb: nat, qs: seq<int>, n: nat, was: seq<int>, decoder: bool)
    requires ValidFrame(f) && n <= |qs| && Inside(f, nb, n + 1, |was|)
    ensures Place(f, nb, n) < |was| && Inside(f, nb, n, |was|)
    ensures Filled(f, nb, qs, n, was, decoder)[Place(f, nb, n)] == was[Place(f, nb, n)]
  {
    PlaceInside(f, nb, n);
    forall k | 0 <= k < n ensures Place(f, nb, k) != Place(f, nb, n) { PlaceOnce(f, nb, k, n); }
    hide Place;
    FilledElsewhere(f, nb, qs, n, was, decoder, Place(f, nb, n));
  }

  lemma {:induction false} FilledPrefix(f: Frame, nb: nat, v: seq<int>, w: seq<int>, n: nat, was: seq<int>,
                                        decoder: bool)
    requires ValidFrame(f) && n <= |v| && n <= |w| && v[..n] == w[..n] && Inside(f, nb, n, |was|)
    ensures Filled(f, nb, v, n, was, decoder) == Filled(f, nb, w, n, was, decoder)
  {
    hide Prev, Shift, Place, Predicted, Band;
    if n > 0 {
      assert v[n - 1] == v[..n][n - 1] == w[n - 1];
      assert v[..n - 1] == v[..n][..n - 1] && w[..n - 1] == w[..n][..n - 1];
      InsideLess(f, nb, n, |was|);
      FilledPrefix(f, nb, v, w, n - 1, was, decoder);
      PrevPrefix(f, v, w, n - 1);
    }
  }

  lemma InsideLess(f: Frame, nb: nat, n: nat, size: nat)
    requires ValidFrame(f) && n > 0 && Inside(f, nb, n, size)
    ensures Inside(f, nb, n - 1, size) && Band(f, n - 1) < nb && Place(f, nb, n - 1) < size
  {
    PlaceInside(f, nb, n - 1);
  }

  /** From equal energies and equal values, both sides end with equal energies
      exactly when no value reaches the bound only the decoder applies. */
  lemma LevelsAgree(f: Frame, nb: nat, qs: seq<int>, n: nat, was: seq<int>)
    requires ValidFrame(f) && n <= |qs| && Inside(f, nb, n, |was|)
    ensures forall k :: 0 <= k < n ==> Place(f, nb, k) < |was|
    ensures Filled(f, nb, qs, n, was, false) == Filled(f, nb, qs, n, was, true) <==>
            forall k :: 0 <= k < n ==> EncLevel(f, qs, k, was[Place(f, nb, k)]) <= 28 * UNIT
  {
    hide Predicted, Prev, Shift, Place, Coef, Filled, Inside;
    var enc, dec := Filled(f, nb, qs, n, was, false), Filled(f, nb, qs, n, was, true);
    forall k | 0 <= k < n
      ensures Place(f, nb, k) < |was|
      ensures enc[Place(f, nb, k)] == dec[Place(f, nb, k)] <==> EncLevel(f, qs, k, was[Place(f, nb, k)]) <= 28 * UNIT
    {
      FilledAt(f, nb, qs, n, was, false, k);
      FilledAt(f, nb, qs, n, was, true, k);
    }
    if forall k :: 0 <= k < n ==> EncLevel(f, qs, k, was[Place(f, nb, k)]) <= 28 * UNIT {
      forall j | 0 <= j < |was| ensures enc[j] == dec[j] {
        if forall k :: 0 <= k < n ==> Place(f, nb, k) != j {
          FilledElsewhere(f, nb, qs, n, was, false, j);
          FilledElsewhere(f, nb, qs, n, was, true, j);
        }
      }
    }
  }

  /** The budget decides what can be coded, and not what it means. */
  lemma {:induction false} FilledBudget(f: Frame, g: Frame, nb: nat, qs: seq<int>, n: nat, was: seq<int>,
                                        decoder: bool)
    requires ValidFrame(f) && g == f.(budget := g.budget) && n <= |qs| && Inside(f, nb, n, |was|)
    ensures ValidFrame(g) && Inside(g, nb, n, |was|)
    ensures Filled(g, nb, qs, n, was, decoder) == Filled(f, nb, qs, n, was, decoder)
  {
    hide Predicted, Shift, Mult15, Prev;
    if n > 0 {
      InsideLess(f, nb, n, |was|);
      FilledBudget(f, g, nb, qs, n - 1, was, decoder);
      PrevBudget(f, g, qs, n - 1);
      var now, at := Filled(f, nb, qs, n - 1, was, decoder), Place(f, nb, n - 1);
      PredictedBudget(f, g, was[at]);
      assert Place(g, nb, n - 1) == at;
      assert LevelOf(g, qs, n - 1, was[at], decoder) == LevelOf(f, qs, n - 1, was[at], decoder);
      hide LevelOf, Place;
      assert Filled(g, nb, qs, n, was, decoder) == now[at := LevelOf(g, qs, n - 1, was[at], decoder)];
    }
  }

  lemma PredictedBudget(f: Frame, g: Frame, was: int)
    requires ValidFrame(f) && g == f.(budget := g.budget)
    ensures Predicted(g, was) == Predicted(f, was)
  {
    hide Mult15;
  }

  lemma {:induction false} PrevBudget(f: Frame, g: Frame, qs: seq<int>, k: nat)
    requires ValidFrame(f) && g == f.(budget := g.budget) && k < |qs| + f.C
    ensures Prev(g, qs, k) == Prev(f, qs, k)
  {
    hide Mult15, Shift;
    if k >= f.C { PrevBudget(f, g, qs, k - f.C); }
  }

  // -------------------------------------------- one value, coded or read

  /** The value the encoder goes on with, where it would like to code `wish`. */
  function Chosen(f: Frame, sp: Span, k: nat, wish: int): int
    requires ValidFrame(f)
  {
    var left := f.budget - Tell(sp);
    if left >= 15 then PeakOf(f, k); Nearest(Peak(f, k), DecayOf(f, k), wish)
    else if left >= 2 then Max(-1, Min(wish, 1))
    else if left >= 1 then Min(0, wish)
    else -1
  }

  lemma PeakOf(f: Frame, k: nat)
    requires ValidFrame(f)
    ensures Model(Peak(f, k), DecayOf(f, k)) && Peak(f, k) > 0
  {
    hide Peak, DecayOf;
  }

  /** What a decoder makes of the encoder's value: with one bit left anything below
      zero is a set bit, and a set bit is read as minus one. */
  function Sent(f: Frame, sp: Span, q: int): int {
    if f.budget - Tell(sp) == 1 && q < -1 then -1 else q
  }

  /** The values qs have been coded or read. */
  ghost predicate Reached(ec: EcCtx, encode: bool, from: Origin, steps: seq<Op>, f: Frame, qs: seq<int>)
    reads ec, ec.buf
  {
    && Placed(from, encode) && AllLegal(steps) && ValidFrame(f) && f.sp == Run(from.sp, steps)
    && AllFit(f, qs, |qs|) && At(ec, encode, from, steps + EnergyOps(f, qs, |qs|))
  }

  lemma ReachedTell(ec: EcCtx, encode: bool, from: Origin, steps: seq<Op>, f: Frame, qs: seq<int>)
    requires Reached(ec, encode, from, steps, f, qs)
    ensures ValidFrame(f) && ec.EcTell() == Tell(SpanAt(f, qs, |qs|))
  {
    hide Run, Tell, At, AllFit;
    TellAt(ec, encode, from, steps + EnergyOps(f, qs, |qs|));
    RunConcat(from.sp, steps, EnergyOps(f, qs, |qs|));
  }

  /** One more value has been coded or read. */
  lemma ReachedNext(ec: EcCtx, encode: bool, from: Origin, steps: seq<Op>, f: Frame, qs: seq<int>, q: int)
    requires Placed(from, encode) && AllLegal(steps) && ValidFrame(f) && f.sp == Run(from.sp, steps)
    requires AllFit(f, qs, |qs|)
    requires Sendable(f, SpanAt(f, qs, |qs|), |qs|, q)
    requires At(ec, encode, from, steps + EnergyOps(f, qs, |qs|) + Coding(f, SpanAt(f, qs, |qs|), |qs|, q))
    ensures Reached(ec, encode, from, steps, f, qs + [q])
  {
    hide Run, Tell, At, AllFit, Placed, Sendable, Coding, EnergyOps;
    var n := |qs|;
    assert (qs + [q])[..n] == qs[..n];
    FitPrefix(f, qs + [q], qs, n);
    OpsNext(f, qs + [q], n);
    OpsAssoc(steps, EnergyOps(f, qs, n), Coding(f, SpanAt(f, qs, n), n, q));
  }

  /** A Laplace value, coded or read. */
  method CodeLaplace(ec: EcCtx, encode: bool, v: int, fs0: nat, decay: nat, ghost from: Origin, ghost steps: seq<Op>)
    returns (r: int)
    requires At(ec, encode, from, steps) && Model(fs0, decay) && fs0 > 0
    modifies ec, ec.buf
    ensures Codable(fs0, decay, r) && At(ec, encode, from, steps + [LaplaceOp(fs0, decay, r)])
    ensures encode ==> r == Nearest(fs0, decay, v)
    ensures ec.storage == old(ec.storage)
    ensures old(ec.front) <= ec.front && ec.tail == old(ec.tail)
  {
    hide Run, Carries, EcCtx.ValidEnc, EcCtx.ValidDec, ReadsOp, LaplaceOp, Codable, Nearest;
    if encode {
      r := EcLaplaceEncode(ec, v, fs0, decay);
      NearestCodable(fs0, decay, v);
      OpsAssoc(from.ops, steps, [LaplaceOp(fs0, decay, r)]);
    } else {
      r := EcLaplaceDecode(ec, fs0, decay);
      CarriesSnoc(from.data, from.sp, steps, LaplaceOp(fs0, decay, r));
      RunSnoc(from.sp, steps, LaplaceOp(fs0, decay, r));
    }
  }

  lemma NearestCodable(fs0: nat, decay: nat, v: int)
    requires Model(fs0, decay) && (v == 0 ==> fs0 > 0)
    ensures Codable(fs0, decay, Nearest(fs0, decay, v))
  {
    hide Codable, Nearest;
  }

  /** One value under what is left of the budget, as steps and nothing more. */
  method CodeRaw(ec: EcCtx, encode: bool, qi: int, left: int, i: nat, lm: nat, intra: bool,
                 ghost from: Origin, ghost before: seq<Op>, ghost f: Frame, ghost sp: Span, ghost k: nat)
    returns (q: int, ghost sent: int)
    requires At(ec, encode, from, before) && ValidFrame(f) && left == f.budget - Tell(sp)
    requires i == Band(f, k) && lm == f.lm && intra == f.intra
    modifies ec, ec.buf
    ensures Sendable(f, sp, k, sent) && At(ec, encode, from, before + Coding(f, sp, k, sent))
    ensures sent == if encode then Sent(f, sp, q) else q
    ensures encode ==> q == Chosen(f, sp, k, qi)
    ensures ec.storage == old(ec.storage)
    ensures old(ec.front) <= ec.front && ec.tail == old(ec.tail)
  {
    SmallModel();
    hide Tell, At, Codable, LaplaceOp, IcdfOp, ModelRow, IcdfTable, HasWidth, Nearest;
    if left >= 15 {
      var pi := Min(i, 20);
      TableFits(lm, intra, pi);
      q := CodeLaplace(ec, encode, qi, 128 * ModelRow(lm, intra)[pi].0, 64 * ModelRow(lm, intra)[pi].1, from, before);
      sent := q;
    } else if left >= 2 {
      q := Max(-1, Min(qi, 1));
      var s := CodeIcdf(ec, encode, Fold(q), SMALL_ICDF, 2, from, before);
      SmallSymbol(s);
      q := Unfold(s);
      sent := q;
    } else if left >= 1 {
      q := Min(0, qi);
      var b := CodeBit(ec, encode, q != 0, 1, from, before);
      if !encode { q := if b then -1 else 0; }
      sent := if b then -1 else 0;
    } else {
      q := -1;
      sent := q;
      assert before + [] == before;
    }
  }

  /** The next value: `sent` is what went through the coder, q what this side goes on
      with. */
  method CodeValue(ec: EcCtx, encode: bool, qi: int, budget: int, i: nat, lm: nat, intra: bool,
                   ghost from: Origin, ghost steps: seq<Op>, ghost f: Frame, ghost qs: seq<int>)
    returns (q: int, ghost sent: int)
    requires Reached(ec, encode, from, steps, f, qs)
    requires budget == f.budget && i == Band(f, |qs|) && lm == f.lm && intra == f.intra
    modifies ec, ec.buf
    ensures Reached(ec, encode, from, steps, f, qs + [sent])
    ensures sent == if encode then Sent(f, SpanAt(f, qs, |qs|), q) else q
    ensures encode ==> q == Chosen(f, SpanAt(f, qs, |qs|), |qs|, qi)
    ensures ec.storage == old(ec.storage)
    ensures old(ec.front) <= ec.front && ec.tail == old(ec.tail)
  {
    hide Run, Tell, At, AllFit, Placed, EnergyOps, Sendable, Coding, Sent, Chosen;
    ReachedTell(ec, encode, from, steps, f, qs);
    var tell := ec.EcTell();
    q, sent := CodeRaw(ec, encode, qi, budget - tell, i, lm, intra, from, steps + EnergyOps(f, qs, |qs|), f,
                       SpanAt(f, qs, |qs|), |qs|);
    ReachedNext(ec, encode, from, steps, f, qs, sent);
  }

  lemma SmallSymbol(s: nat)
    requires HasWidth(SMALL_ICDF, s, 2)
    ensures s < 3 && Fold(Unfold(s)) == s
  {
  }

  /** The flag in front of the energies, if it can be coded. */
  function IntraOps(sp: Span, budget: int, intra: bool): (ops: seq<Op>)
    ensures AllLegal(ops)
  {
    if Tell(sp) + 3 <= budget then [BitOp(intra, 3)] else []
  }

  /** That flag, coded or read; a decoder that finds no room for it goes on without
      intra prediction. */
  method CodeIntra(ec: EcCtx, encode: bool, wanted: bool, budget: int, ghost from: Origin, ghost steps: seq<Op>)
    returns (intra: bool)
    requires At(ec, encode, from, steps)
    modifies ec, ec.buf
    ensures At(ec, encode, from, steps + IntraOps(Run(from.sp, steps), budget, intra))
    ensures encode ==> intra == wanted
    ensures !encode && Tell(Run(from.sp, steps)) + 3 > budget ==> !intra
    ensures ec.storage == old(ec.storage)
    ensures old(ec.front) <= ec.front && ec.tail == old(ec.tail)
  {
    TellAt(ec, encode, from, steps);
    hide Tell, Run, At;
    intra := encode && wanted;
    if ec.EcTell() + 3 <= budget {
      intra := CodeBit(ec, encode, wanted, 3, from, steps);
    } else {
      assert steps + [] == steps;
    }
  }

  // --------------------------------------------------------- whole frames

  lemma PrevGrows(f: Frame, qs: seq<int>, q: int, k: nat)
    requires ValidFrame(f) && k <= |qs|
    ensures Prev(f, qs + [q], k) == Prev(f, qs, k)
  {
    assert (qs + [q])[..k] == qs[..k];
    PrevPrefix(f, qs + [q], qs, k);
  }

  /** prev[c] for both channels, as value n is reached. */
  ghost predicate Carried(f: Frame, qs: seq<int>, n: nat, prev: seq<int>)
    requires ValidFrame(f) && n <= |qs|
  {
    && |prev| == 2
    && prev[Channel(f, n)] == Prev(f, qs, n)
    && (f.C == 2 ==> prev[Channel(f, n + 1)] == Prev(f, qs, n + 1))
  }

  lemma CarriedNext(f: Frame, qs: seq<int>, q: int, prev: seq<int>)
    requires ValidFrame(f) && Carried(f, qs, |qs|, prev)
    ensures var c, qs' := Channel(f, |qs|), qs + [q];
      Carried(f, qs', |qs'|, prev[c := prev[c] + Shift(q) - Mult15(Beta(f), Shift(q))])
  {
    hide Shift, Mult15, Beta;
    var n, qs' := |qs|, qs + [q];
    PrevGrows(f, qs, q, n);
    if f.C == 2 && n >= 1 {
      var j := n - 1;
      PrevGrows(f, qs, q, j);
      assert qs'[j] == qs[j];
    }
    assert qs'[n] == q;
  }

  /** How many values come before band i. */
  function Count(start: nat, C: nat, i: nat): int { if C == 2 then 2 * (i - start) else i - start }

  /** The state of either side's loops after the values `es` it goes on with. */
  ghost predicate InLoop(f: Frame, nb: nat, es: seq<int>, prev: seq<int>, was: seq<int>, now: seq<int>, decoder: bool) {
    && ValidFrame(f) && Inside(f, nb, |es|, |was|) && Carried(f, es, |es|, prev)
    && now == Filled(f, nb, es, |es|, was, decoder)
  }

  /** Writing one more level. */
  lemma FilledMore(f: Frame, nb: nat, es: seq<int>, q: int, was: seq<int>, decoder: bool)
    requires ValidFrame(f) && Inside(f, nb, |es|, |was|) && Band(f, |es|) < nb
    ensures var at, es' := Place(f, nb, |es|), es + [q];
      && at < |was| && Filled(f, nb, es, |es|, was, decoder)[at] == was[at]
      && Inside(f, nb, |es'|, |was|)
      && Filled(f, nb, es', |es'|, was, decoder)
         == Filled(f, nb, es, |es|, was, decoder)[at := LevelOf(f, es', |es|, was[at], decoder)]
  {
    hide LevelOf, Place, Band;
    assert (es + [q])[..|es|] == es[..|es|];
    FilledNext(f, nb, es, |es|, was, decoder);
    FilledPrefix(f, nb, es + [q], es, |es|, was, decoder);
  }

  /** What the code computes for it. */
  lemma LevelMore(f: Frame, es: seq<int>, q: int, was: int, decoder: bool)
    requires ValidFrame(f)
    ensures var tmp := Max(-28 * UNIT, Mult15(Coef(f), Max(-9 * UNIT, was)) + Prev(f, es, |es|) + Shift(q));
      LevelOf(f, es + [q], |es|, was, decoder) == if decoder then Min(28 * UNIT, tmp) else tmp
  {
    PrevGrows(f, es, q, |es|);
    hide Prev, Shift, Mult15, Coef;
  }

  /** Storing one level and carrying its prediction on. */
  method StoreLevel(coef: int, beta: int, nb: nat, i: nat, c: nat, bands: array<int>, prev: seq<int>, q: int,
                    decoder: bool, ghost f: Frame, ghost es: seq<int>, ghost was: seq<int>) returns (next: seq<int>)
    requires ValidFrame(f) && coef == Coef(f) && beta == Beta(f)
    requires InLoop(f, nb, es, prev, was, bands[..], decoder)
    requires i == Band(f, |es|) < nb && c == Channel(f, |es|)
    modifies bands
    ensures InLoop(f, nb, es + [q], next, was, bands[..], decoder)
  {
    FilledMore(f, nb, es, q, was, decoder);
    CarriedNext(f, es, q, prev);
    hide Prev, Shift, Mult15, Coef, Beta, Filled, Inside, LevelOf;
    var at := i + c * nb;
    assert at == Place(f, nb, |es|);
    LevelMore(f, es, q, was[at], decoder);
    var tmp := Mult15(coef, Max(-9 * UNIT, bands[at])) + prev[c] + Shift(q);
    tmp := Max(-28 * UNIT, tmp);
    if decoder { tmp := Min(28 * UNIT, tmp); }
    ghost var now := bands[..][at := tmp];
    bands[at] := tmp;
    assert bands[..] == now;
    next := prev[c := prev[c] + Shift(q) - Mult15(beta, Shift(q))];
  }

  lemma LoopStart(f: Frame, nb: nat, was: seq<int>, decoder: bool)
    requires ValidFrame(f) && |was| >= f.C * nb
    ensures InLoop(f, nb, [], [0, 0], was, was, decoder)
  {
  }

  /** unquant_coarse_energy: the values, the energies they give, and a bit count
      within the budget whatever the packet holds. */
  method UnquantCoarseEnergy(nb: nat, start: nat, end: nat, oldEBands: array<int>, intra: bool, dec: EcCtx,
                             C: nat, lm: nat, ghost from: Origin, ghost steps: seq<Op>) returns (ghost qs: seq<int>)
    requires At(dec, false, from, steps) && start <= end <= nb && 1 <= C <= 2 && lm <= 3 && oldEBands.Length >= C * nb
    modifies oldEBands, dec, dec.buf
    ensures var f := Frame(Run(from.sp, steps), 8 * dec.storage, start, C, lm, intra);
      && |qs| == Count(start, C, end) && Reached(dec, false, from, steps, f, qs)
      && Inside(f, nb, |qs|, oldEBands.Length)
      && oldEBands[..] == Filled(f, nb, qs, |qs|, old(oldEBands[..]), true)
    ensures dec.storage == old(dec.storage) && dec.EcTell() <= Max(old(dec.EcTell()), 8 * dec.storage)
  {
    var budget := 8 * dec.storage;
    TellAt(dec, false, from, steps);
    ghost var f := Frame(Run(from.sp, steps), budget, start, C, lm, intra);
    var coef := if intra then 0 else PRED_COEF[lm];
    var beta := if intra then BETA_INTRA else BETA_COEF[lm];
    ghost var was := oldEBands[..];
    LoopStart(f, nb, was, true);
    ReachedStart(dec, false, from, steps, f);
    hide Run, Tell, At, Reached, InLoop, ValidFrame;
    qs := [];
    var prev := [0, 0];
    for i := start to end
      invariant |qs| == Count(start, C, i) && dec.storage == old(dec.storage)
      invariant Reached(dec, false, from, steps, f, qs) && InLoop(f, nb, qs, prev, was, oldEBands[..], true)
    {
      var c := 0;
      while c < C
        invariant c <= C && |qs| == Count(start, C, i) + c && dec.storage == old(dec.storage)
        invariant Reached(dec, false, from, steps, f, qs) && InLoop(f, nb, qs, prev, was, oldEBands[..], true)
      {
        Position(f, i, c, |qs|);
        var qi;
        ghost var sent;
        qi, sent := CodeValue(dec, false, 0, budget, i, lm, intra, from, steps, f, qs);
        prev := StoreLevel(coef, beta, nb, i, c, oldEBands, prev, qi, true, f, qs, was);
        qs := qs + [qi];
        c := c + 1;
      }
    }
    FrameEnd(dec, false, from, steps, f, nb, qs, prev, was, oldEBands[..], true);
  }

  /** Two decoders read one intra packet, whatever energies they had before. */
  method ReadIntraTwice(nb: nat, start: nat, end: nat, bands: array<int>, other: array<int>, dec: EcCtx, late: EcCtx,
                        C: nat, lm: nat, ghost from: Origin, ghost steps: seq<Op>) returns (ghost qs: seq<int>)
    requires At(dec, false, from, steps) && At(late, false, from, steps) && dec.storage == late.storage
    requires dec != late && dec.buf != late.buf && bands != other
    requires start <= end <= nb && 1 <= C <= 2 && lm <= 3 && bands.Length == other.Length >= C * nb
    modifies bands, dec, dec.buf, other, late, late.buf
    ensures |qs| == Count(start, C, end)
    ensures SameCoded(Frame(Run(from.sp, steps), 8 * old(dec.storage), start, C, lm, true), nb, |qs|, bands[..],
                      other[..])
  {
    hide Run, Tell, Carries, EcCtx.ValidDec, EcCtx.ValidEnc, Reached, Filled, Inside, EnergyOps, AllFit, SameCoded;
    ghost var f := Frame(Run(from.sp, steps), 8 * dec.storage, start, C, lm, true);
    ghost var a, b := bands[..], other[..];
    qs := UnquantCoarseEnergy(nb, start, end, bands, true, dec, C, lm, from, steps);
    ReadEnergies(dec, from, steps, f, qs);
    ghost var rs := UnquantCoarseEnergy(nb, start, end, other, true, late, C, lm, from, steps);
    ReadEnergies(late, from, steps, f, rs);
    IntraRecovers(from.data, f, nb, qs, rs, a, b);
  }

  /** What a decoder has read, its packet carries. */
  lemma ReadEnergies(dec: EcCtx, from: Origin, steps: seq<Op>, f: Frame, qs: seq<int>)
    requires Reached(dec, false, from, steps, f, qs)
    ensures ValidFrame(f) && AllFit(f, qs, |qs|) && Carries(from.data, f.sp, EnergyOps(f, qs, |qs|))
  {
    hide Run, Carries, AllFit, EnergyOps, EcCtx.ValidDec;
    CarriesConcat(from.data, from.sp, steps, EnergyOps(f, qs, |qs|));
  }

  lemma ReachedStart(ec: EcCtx, encode: bool, from: Origin, steps: seq<Op>, f: Frame)
    requires At(ec, encode, from, steps) && f.sp == Run(from.sp, steps) && 1 <= f.C <= 2 && f.lm <= 3
    ensures Reached(ec, encode, from, steps, f, [])
  {
    assert steps + [] == steps;
    hide At;
  }

  lemma Position(f: Frame, i: nat, c: nat, n: nat)
    requires f.start <= i && c < f.C <= 2 && n == Count(f.start, f.C, i) + c
    ensures Band(f, n) == i && Channel(f, n) == c
  {
  }

  lemma FrameEnd(ec: EcCtx, encode: bool, from: Origin, steps: seq<Op>, f: Frame, nb: nat,
                 qs: seq<int>, prev: seq<int>, was: seq<int>, now: seq<int>, decoder: bool)
    requires Reached(ec, encode, from, steps, f, qs) && InLoop(f, nb, qs, prev, was, now, decoder)
    ensures ValidFrame(f) && Inside(f, nb, |qs|, |was|) && now == Filled(f, nb, qs, |qs|, was, decoder)
    ensures ec.EcTell() <= Max(Tell(f.sp), f.budget)
  {
    hide Run, Tell, At, Filled, Inside, Carried;
    ReachedTell(ec, encode, from, steps, f, qs);
    WithinBudget(f, qs, |qs|);
  }
}
