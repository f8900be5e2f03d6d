/** compute_theta on both sides: the angle of a split, or the inversion flag of a stereo
    band without one, and what both sides go on with. */
module Theta {
  import opened Arith
  import opened Interval
  import opened EntCode
  import opened Angle
  import opened SplitAngle
  import opened TellFrac
  import IntMath

  /** What both sides know of a split: N coefficients a side, b eighth-bits. */
  datatype SplitInput = SplitInput(N: nat, b: int, B: nat, B0: nat, pulseCap: int, stereo: bool, joined: bool,
                                   remaining: int, disableInv: bool, fill: nat)

  /** split_ctx, with the bits and the fill mask that are left. */
  datatype SplitContext = SplitContext(inv: bool, gains: Gains, itheta: nat, qalloc: int, b: int, fill: nat)

  function Offset(f: SplitInput): int { f.pulseCap / 2 - if f.stereo && f.N == 2 then 16 else 4 }

  predicate ValidSplit(f: SplitInput) {
    f.N >= 1 && Abs(f.b + Freedoms(f.N, f.stereo) * Offset(f)) < 0x8000_0000
  }

  /** The resolution; intensity stereo has no angle. */
  function Qn(f: SplitInput): (qn: nat)
    requires ValidSplit(f)
    ensures qn == 1 || (Levels(qn) && qn <= 256)
  {
    var qb := AngleBits(f.N, f.b, Offset(f), f.pulseCap, f.stereo);
    StepsAre(qb);
    if f.stereo && f.joined then 1 else Steps(qb)
  }

  /** The model of the angle. */
  function PdfOf(f: SplitInput): (p: Pdf)
    ensures p.StepPdf? <==> f.stereo && f.N > 2
    ensures p.TrianglePdf? <==> !f.stereo && f.B0 <= 1
  {
    if f.stereo && f.N > 2 then StepPdf else if f.B0 > 1 || f.stereo then UniformPdf else TrianglePdf
  }

  /** Without an angle a stereo band has a flag, if there are bits for it. */
  predicate InvCoded(f: SplitInput) { f.stereo && f.b > 16 && f.remaining > 16 }

  function ThetaOps(f: SplitInput, q: nat, inv: bool): (ops: seq<Op>)
    requires ValidSplit(f) && q <= Qn(f)
    ensures AllLegal(ops)
  {
    if Qn(f) != 1 then AngleOps(PdfOf(f), Qn(f), q) else if InvCoded(f) then [BitOp(inv, 2)] else []
  }

  /** A mono split without an angle leaves each side with the angle it has. */
  function AngleOf(f: SplitInput, q: nat, theta: nat): nat
    requires ValidSplit(f)
  {
    if Qn(f) != 1 then LevelAngle(q, Qn(f)) else if f.stereo then 0 else theta
  }

  /** That angle has gains. */
  predicate Usable(theta: nat) { theta == 0 || theta == 16384 || Inner(theta) }

  /** So has this side's own, where it goes on with that. */
  predicate Defined(f: SplitInput, theta: nat)
    requires ValidSplit(f)
  {
    f.stereo || Qn(f) != 1 || Usable(theta)
  }

  lemma AngleUsable(f: SplitInput, q: nat, theta: nat)
    requires ValidSplit(f) && q <= Qn(f) && Defined(f, theta)
    ensures Usable(AngleOf(f, q, theta))
  {
    if Qn(f) != 1 { LevelHasGains(q, Qn(f)); }
  }

  /** One side's part of the mask stays, or all of it. */
  function Filling(fill: nat, B: nat, itheta: nat): (r: nat) {
    if itheta == 0 then fill % Pow2(B)
    else if itheta == 16384 then MulNat(fill / Pow2(B) % Pow2(B), Pow2(B)); fill / Pow2(B) % Pow2(B) * Pow2(B)
    else fill
  }

  /** What the split leaves: `theta` is this side's angle before coding. */
  function Context(f: SplitInput, sp: Span, q: nat, inv: bool, theta: nat): SplitContext
    requires ValidSplit(f) && q <= Qn(f) && Defined(f, theta) && Proper(sp)
  {
    AngleUsable(f, q, theta);
    var qalloc := TellEighths(Run(sp, ThetaOps(f, q, inv))) - TellEighths(sp);
    Settle(f, Qn(f) == 1 && InvCoded(f) && inv, AngleOf(f, q, theta), qalloc)
  }

  function Settle(f: SplitInput, inv: bool, itheta: nat, qalloc: int): SplitContext
    requires Usable(itheta)
  {
    SplitContext(inv && !f.disableInv, GainsOf(itheta, f.N), itheta, qalloc, f.b - qalloc,
                 Filling(f.fill, f.B, itheta))
  }

  /** The mask's two halves belong to the two ends: the low part stays with the mid, the high
      part with the side, and nothing with both. */
  lemma MaskHalves(fill: nat, B: nat)
    requires fill < Pow2(B) * Pow2(B)
    ensures Filling(fill, B, 0) < Pow2(B) && Filling(fill, B, 16384) % Pow2(B) == 0
    ensures Filling(fill, B, 0) + Filling(fill, B, 16384) == fill
  {
    hide Pow2;
    var p := Pow2(B);
    DivGe(fill, p, p);
    DivUnique(fill / p, p, 0, fill / p);
    MulNat(fill / p, p);
    DivUnique(fill / p * p, p, fill / p, 0);
  }

  /** Bits left and bits coded are the bits given, and the level of a starved side is gone:
      the louder gain has no fewer bits. */
  lemma ContextBits(f: SplitInput, sp: Span, q: nat, inv: bool, theta: nat)
    requires ValidSplit(f) && q <= Qn(f) && Defined(f, theta) && Proper(sp)
    ensures var c := Context(f, sp, q, inv, theta);
      && c.b + TellEighths(Run(sp, ThetaOps(f, q, inv))) == f.b + TellEighths(sp)
      && (f.N <= 256 && c.itheta < 8192 ==> c.gains.side < c.gains.mid && c.gains.delta <= 0)
      && (f.N <= 256 && c.itheta == 8192 ==> c.gains.side == c.gains.mid && c.gains.delta == 0)
      && (f.N <= 256 && c.itheta > 8192 ==> c.gains.mid < c.gains.side && c.gains.delta >= 0)
  {
    AngleUsable(f, q, theta);
    hide Qn, TellEighths, GainsOf, LevelAngle, Filling, Run, ThetaOps, InvCoded, AngleOf;
    if f.N <= 256 { DeltaSign(AngleOf(f, q, theta), f.N); }
  }

  // ---------------------------------------------------------------- lockstep

  /** One packet, one split. */
  lemma ThetaOnce(buf: seq<byte>, sp: Span, f: SplitInput, q: nat, inv: bool, q': nat, inv': bool, theta: nat)
    requires ValidSplit(f) && q <= Qn(f) && q' <= Qn(f) && Defined(f, theta) && Proper(sp)
    requires Carries(buf, sp, ThetaOps(f, q, inv)) && Carries(buf, sp, ThetaOps(f, q', inv'))
    ensures Context(f, sp, q, inv, theta) == Context(f, sp, q', inv', theta)
    ensures ThetaOps(f, q, inv) == ThetaOps(f, q', inv')
  {
    hide Carries, ReadsOp, Qn, AngleOps, ValidSplit, TellEighths, GainsOf, LevelAngle, Filling, Run;
    if Qn(f) != 1 {
      AngleOnce(buf, sp, PdfOf(f), Qn(f), q, q');
    } else if InvCoded(f) {
      CarriesOne(buf, sp, BitOp(inv, 2));
      CarriesOne(buf, sp, BitOp(inv', 2));
      BitOnce(buf, sp, inv, inv', 2);
    }
  }

  /** The decoder, which has no angle of its own, ends with the encoder's context exactly
      when the split is a stereo one, or has an angle, or the encoder's angle was zero. */
  lemma SameContext(f: SplitInput, sp: Span, q: nat, inv: bool, theta: nat)
    requires ValidSplit(f) && q <= Qn(f) && Defined(f, theta) && Proper(sp)
    ensures Context(f, sp, q, inv, theta) == Context(f, sp, q, inv, 0) <==> f.stereo || Qn(f) != 1 || theta == 0
  {
    AngleUsable(f, q, theta);
    hide Qn, TellEighths, GainsOf, LevelAngle, Filling, Run, ThetaOps, InvCoded, ValidSplit;
  }

  // ------------------------------------------------------------- both sides

  /** What follows from the angle. */
  method Finish(f: SplitInput, inv: bool, itheta: nat, qalloc: int) returns (c: SplitContext)
    requires Usable(itheta)
    ensures c == Settle(f, inv, itheta, qalloc)
  {
    hide BitexactCos, BitexactLog2Tan, FracMul16;
    var b := f.b - qalloc;
    var fill := f.fill;
    var gains;
    if itheta == 0 {
      gains := Gains(32767, 0, -16384);
      fill := fill % Pow2(f.B);
    } else if itheta == 16384 {
      gains := Gains(0, 32767, 16384);
      MulNat(fill / Pow2(f.B) % Pow2(f.B), Pow2(f.B));
      fill := fill / Pow2(f.B) % Pow2(f.B) * Pow2(f.B);
    } else {
      var delta := NoiseDelta(itheta, f.N);
      gains := Gains(BitexactCos(itheta), BitexactCos(16384 - itheta), delta);
    }
    c := SplitContext(inv && !f.disableInv, gains, itheta, qalloc, b, fill);
  }

  method Resolution(f: SplitInput) returns (qn: nat)
    requires ValidSplit(f)
    ensures qn == Qn(f)
  {
    hide Steps, AngleBits, Freedoms;
    qn := ComputeQn(f.N, f.b, f.pulseCap / 2 - if f.stereo && f.N == 2 then 16 else 4, f.pulseCap, f.stereo);
    if f.stereo && f.joined { qn := 1; }
  }

  lemma TellHere(enc: EcCtx)
    requires enc.ValidEnc()
    ensures enc.rng == enc.Where().rng && ILog(enc.rng) >= 16
    ensures 8 * enc.nbitsTotal - LogEighths(enc.rng) == TellEighths(enc.Where())
  {
    enc.EncState();
    RangeBits(enc.Where());
    hide EcCtx.ValidEnc, LogEighths, ILog;
  }

  /** The encoder's side. */
  method EncodeTheta(enc: EcCtx, f: SplitInput, theta: nat, round: int, quiet: bool)
    returns (c: SplitContext, ghost q: nat, ghost inv: bool)
    requires enc.ValidEnc() && ValidSplit(f) && theta <= 16384 && Defined(f, theta)
    modifies enc, enc.buf
    ensures inv == (theta > 8192 && !f.disableInv)
    ensures q == if Qn(f) != 1 then Quantized(theta, Qn(f), f.N, f.b, f.stereo, round, quiet) else 0
    ensures enc.ValidEnc() && enc.ops == old(enc.ops) + ThetaOps(f, q, inv) && enc.storage == old(enc.storage)
    ensures c == Context(f, old(enc.Where()), q, inv, theta)
  {
    hide EcCtx.ValidEnc, Qn, Quantized, AngleOps, TellEighths, LogEighths, Run, Settle, ValidSplit, LevelAngle, Usable;
    enc.EncState();
    var qn := Resolution(f);
    TellHere(enc);
    var tell := EcTellFrac(enc.nbitsTotal, enc.rng);
    var itheta, flag := theta, false;
    q, inv := 0, theta > 8192 && !f.disableInv;
    if qn != 1 {
      itheta := Quantize(theta, qn, f.N, f.b, f.stereo, round, quiet);
      q := itheta;
      EncodeAngle(enc, PdfOf(f), qn, itheta);
      itheta := Unquantize(itheta, qn);
    } else if f.stereo {
      if f.b > 16 && f.remaining > 16 {
        flag := theta > 8192 && !f.disableInv;
        enc.EncBitLogp(flag, 2);
      } else {
        assert enc.ops + [] == enc.ops;
      }
      itheta := 0;
    } else {
      assert enc.ops + [] == enc.ops;
    }
    AngleUsable(f, q, theta);
    AppendedSpan(old(enc.ops), ThetaOps(f, q, inv));
    TellHere(enc);
    var now := EcTellFrac(enc.nbitsTotal, enc.rng);
    c := Finish(f, flag, itheta, now - tell);
  }

  lemma AppendedSpan(ops: seq<Op>, more: seq<Op>)
    requires AllLegal(ops) && AllLegal(more) && Proper(START)
    ensures Run(START, ops + more) == Run(Run(START, ops), more)
  {
    RunConcat(START, ops, more);
  }

  /** The angle of a level, by the division table. */
  method Unquantize(q: nat, qn: nat) returns (itheta: nat)
    requires q <= qn <= 256 && qn > 0
    ensures itheta == LevelAngle(q, qn)
  {
    itheta := IntMath.CeltUdiv(q * 16384, qn);
  }

  lemma TellThere(dec: EcCtx)
    requires dec.ValidDec()
    ensures Proper(dec.pos) && ILog(dec.rng) >= 16
    ensures 8 * dec.nbitsTotal - LogEighths(dec.rng) == TellEighths(dec.pos)
  {
    dec.DecState();
    RangeBits(dec.pos);
    hide EcCtx.ValidDec, LogEighths, ILog;
  }

  /** The packet holds this level, or this flag, here. */
  ghost predicate HoldsSplit(buf: seq<byte>, sp: Span, f: SplitInput, q: nat, inv: bool)
    requires ValidSplit(f) && Proper(sp)
  {
    q <= Qn(f) && Carries(buf, sp, ThetaOps(f, q, inv))
  }

  method ReadLevel(dec: EcCtx, f: SplitInput, qn: nat) returns (q: nat)
    requires dec.ValidDec() && ValidSplit(f) && qn == Qn(f) && qn != 1 && Proper(dec.pos)
    modifies dec
    ensures dec.ValidDec() && dec.data == old(dec.data) && q <= qn
    ensures forall q': nat, inv: bool :: HoldsSplit(dec.data, old(dec.pos), f, q', inv) ==>
              HoldsSplit(dec.data, old(dec.pos), f, q, false)
    ensures HoldsSplit(dec.data, old(dec.pos), f, q, false) ==>
              dec.pos == Run(old(dec.pos), ThetaOps(f, q, false))
  {
    hide EcCtx.ValidDec, Qn, AngleOps, Run, ValidSplit, Carries, InvCoded;
    q := DecodeAngle(dec, PdfOf(f), qn);
  }

  method ReadInversion(dec: EcCtx, f: SplitInput) returns (inv: bool)
    requires dec.ValidDec() && ValidSplit(f) && Qn(f) == 1 && InvCoded(f) && Proper(dec.pos)
    modifies dec
    ensures dec.ValidDec() && dec.data == old(dec.data)
    ensures HoldsSplit(dec.data, old(dec.pos), f, 0, inv) && dec.pos == Run(old(dec.pos), ThetaOps(f, 0, inv))
  {
    hide EcCtx.ValidDec, Qn, Run, ValidSplit, Carries, ReadsOp, InvCoded;
    ghost var sp := dec.pos;
    inv := dec.DecBitLogp(2);
    CarriesOne(dec.data, sp, BitOp(inv, 2));
    RunSnoc(sp, [], BitOp(inv, 2));
    RunNone(sp);
    assert [] + [BitOp(inv, 2)] == [BitOp(inv, 2)];
  }

  lemma NothingHeld(buf: seq<byte>, sp: Span, f: SplitInput)
    requires ValidSplit(f) && Qn(f) == 1 && !InvCoded(f) && Proper(sp)
    ensures HoldsSplit(buf, sp, f, 0, false) && Run(sp, ThetaOps(f, 0, false)) == sp
  {
    hide Qn, ValidSplit, InvCoded;
  }

  /** Reads the level, or the flag. */
  method ReadSplit(dec: EcCtx, f: SplitInput, qn: nat) returns (q: nat, inv: bool)
    requires dec.ValidDec() && ValidSplit(f) && qn == Qn(f) && Proper(dec.pos)
    modifies dec
    ensures dec.ValidDec() && dec.data == old(dec.data) && q <= qn
    ensures forall q': nat, inv': bool :: HoldsSplit(dec.data, old(dec.pos), f, q', inv') ==>
              HoldsSplit(dec.data, old(dec.pos), f, q, inv)
    ensures HoldsSplit(dec.data, old(dec.pos), f, q, inv) ==> dec.pos == Run(old(dec.pos), ThetaOps(f, q, inv))
    ensures inv ==> qn == 1 && InvCoded(f)
  {
    hide *;
    q, inv := 0, false;
    if qn != 1 {
      q := ReadLevel(dec, f, qn);
    } else if InvCoded(f) {
      inv := ReadInversion(dec, f);
    } else {
      NothingHeld(dec.data, dec.pos, f);
    }
  }

  /** The two parts of reading together. */
  lemma ContextRead(buf: seq<byte>, sp: Span, f: SplitInput, q: nat, inv: bool, level: nat, flag: bool,
                    c: SplitContext, now: Span)
    requires ValidSplit(f) && Proper(sp) && HoldsSplit(buf, sp, f, q, inv) && HoldsSplit(buf, sp, f, level, flag)
    requires now == Run(sp, ThetaOps(f, level, flag)) && (flag ==> Qn(f) == 1 && InvCoded(f))
    requires Usable(AngleOf(f, level, 0))
    requires c == Settle(f, flag, AngleOf(f, level, 0), TellEighths(now) - TellEighths(sp))
    ensures now == Run(sp, ThetaOps(f, q, inv)) && c == Context(f, sp, q, inv, 0)
  {
    ThetaOnce(buf, sp, f, q, inv, level, flag, 0);
    hide Qn, TellEighths, Run, ValidSplit, Carries, ThetaOps, InvCoded, LevelAngle, GainsOf, AngleOf;
  }

  /** The decoder's side: if the packet holds a split here, the context is that split's. */
  method DecodeTheta(dec: EcCtx, f: SplitInput) returns (c: SplitContext)
    requires dec.ValidDec() && ValidSplit(f) && Proper(dec.pos)
    modifies dec
    ensures dec.ValidDec() && dec.data == old(dec.data) && Usable(c.itheta) && c.gains == GainsOf(c.itheta, f.N)
    ensures forall q: nat, inv: bool :: HoldsSplit(dec.data, old(dec.pos), f, q, inv) ==>
              dec.pos == Run(old(dec.pos), ThetaOps(f, q, inv)) && c == Context(f, old(dec.pos), q, inv, 0)
  {
    hide EcCtx.ValidDec, Qn, TellEighths, LogEighths, Run, ValidSplit, Carries, ThetaOps, InvCoded, LevelAngle,
      GainsOf, Usable;
    ghost var sp, data := dec.pos, dec.data;
    TellThere(dec);
    var tell := EcTellFrac(dec.nbitsTotal, dec.rng);
    var qn := Resolution(f);
    var level, flag := ReadSplit(dec, f, qn);
    ZeroUsable(f, level);
    var itheta: nat := 0;
    if qn != 1 { itheta := Unquantize(level, qn); }
    TellThere(dec);
    var now := EcTellFrac(dec.nbitsTotal, dec.rng);
    c := Finish(f, flag, itheta, now - tell);
    forall q: nat, inv: bool | HoldsSplit(data, sp, f, q, inv)
      ensures dec.pos == Run(sp, ThetaOps(f, q, inv)) && c == Context(f, sp, q, inv, 0)
    {
      ContextRead(data, sp, f, q, inv, level, flag, c, dec.pos);
    }
  }

  lemma ZeroUsable(f: SplitInput, q: nat)
    requires ValidSplit(f) && q <= Qn(f)
    ensures Usable(0) && Usable(AngleOf(f, q, 0))
  {
    AngleUsable(f, q, 0);
  }
}
