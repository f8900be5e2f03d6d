/** The Laplace coder with a given probability of zero: a sign symbol, then the
    magnitude in runs of seven with an escape. */
module LaplaceP0 {
  import opened Arith
  import opened Interval
  import opened EntCode

  /** What the caller may ask for; both models then give every symbol a width. */
  predicate P0Model(p0: nat, decay: nat) { 0 < p0 < 32767 && decay < 0x8000 }

  function SignIcdf(p0: nat): seq<nat>
    requires p0 < 32767
  {
    [0x8000 - p0, (0x8000 - p0) / 2, 0]
  }

  /** Entry i of the magnitude table. */
  function Above(decay: nat, i: nat): (a: nat)
    requires decay < 0x8000 && i <= 6
    ensures 7 - i <= a < 0x8000
    decreases i
  {
    if i == 0 then Max(7, decay)
    else
      DecayBelow(Above(decay, i - 1), decay);
      Max(7 - i, Above(decay, i - 1) * decay / 0x8000)
  }

  lemma DecayBelow(a: nat, decay: nat)
    requires 0 < a && decay < 0x8000
    ensures 0 <= a * decay / 0x8000 < a
  {
    MulNat(a, decay);
    MulMono(decay, 0x7FFF, a);
    assert decay * a == a * decay;
    DivGe(a * decay, 0x8000, a);
  }

  function MagnitudeIcdf(decay: nat): (icdf: seq<nat>)
    requires decay < 0x8000
    ensures |icdf| == 8
  {
    hide Above;
    [Above(decay, 0), Above(decay, 1), Above(decay, 2), Above(decay, 3),
     Above(decay, 4), Above(decay, 5), Above(decay, 6), 0]
  }

  lemma SignModel(p0: nat)
    requires 0 < p0 < 32767
    ensures IcdfTable(SignIcdf(p0), 15) && forall s :: 0 <= s < 3 ==> HasWidth(SignIcdf(p0), s, 15)
  {
    Pow2Values();
    hide Pow2;
  }

  lemma AboveShrinks(decay: nat, i: nat)
    requires decay < 0x8000 && 0 < i <= 6
    ensures Above(decay, i) < Above(decay, i - 1)
  {
    DecayBelow(Above(decay, i - 1), decay);
  }

  lemma MagnitudeModel(decay: nat)
    requires decay < 0x8000
    ensures IcdfTable(MagnitudeIcdf(decay), 15)
    ensures forall s :: 0 <= s < 8 ==> HasWidth(MagnitudeIcdf(decay), s, 15)
  {
    Pow2Values();
    hide Pow2, Above;
    AboveShrinks(decay, 1);
    AboveShrinks(decay, 2);
    AboveShrinks(decay, 3);
    AboveShrinks(decay, 4);
    AboveShrinks(decay, 5);
    AboveShrinks(decay, 6);
  }

  function SignOf(value: int): nat { if value == 0 then 0 else if value > 0 then 1 else 2 }

  function SignOp(p0: nat, value: int): (op: Op)
    requires 0 < p0 < 32767
    ensures op.Sym? && Legal(op)
  {
    SignModel(p0);
    IcdfOp(SignOf(value), SignIcdf(p0), 15)
  }

  function MagnitudeOp(decay: nat, s: nat): (op: Op)
    requires decay < 0x8000 && s <= 7
    ensures op.Sym? && Legal(op)
  {
    MagnitudeModel(decay);
    IcdfOp(s, MagnitudeIcdf(decay), 15)
  }

  function Share(op: Op): int
    requires op.Sym?
  {
    op.fh - op.fl
  }

  /** Zero has p0 of 32768, and the two signs half the rest each. */
  lemma SignShares(p0: nat)
    requires 0 < p0 < 32767
    ensures SignOp(p0, 0).ft == SignOp(p0, 1).ft == SignOp(p0, -1).ft == 0x8000
    ensures Share(SignOp(p0, 0)) == p0
    ensures Share(SignOp(p0, 0)) + Share(SignOp(p0, 1)) + Share(SignOp(p0, -1)) == 0x8000
    ensures 0 <= Share(SignOp(p0, 1)) - Share(SignOp(p0, -1)) <= 1
    ensures forall v :: SignOp(p0, v) == SignOp(p0, if v > 0 then 1 else if v < 0 then -1 else 0)
  {
    SignModel(p0);
    Pow2Values();
    hide Pow2, IcdfTable, HasWidth;
  }

  function Power(b: nat, n: nat): nat {
    if n == 0 then 1
    else
      MulNat(b, Power(b, n - 1));
      b * Power(b, n - 1)
  }

  /** Magnitudes above i + 1 have the share of power i + 1 of the decay, up to the rounding
      of i products and the one part that every symbol keeps. */
  lemma {:induction false} AboveGeometric(decay: nat, i: nat)
    requires decay < 0x8000 && i <= 6
    ensures Power(decay, i + 1) <= (Above(decay, i) + i) * Power(0x8000, i)
    ensures Above(decay, i) == 7 - i || Above(decay, i) * Power(0x8000, i) <= Power(decay, i + 1)
  {
    hide *;
    if i == 0 {
      PowerNext(decay, 0);
      PowerNext(0x8000, 0);
      AboveStart(decay);
      FirstAbove(decay);
    } else {
      var a, b := Above(decay, i - 1), Power(0x8000, i - 1);
      AboveGeometric(decay, i - 1);
      AboveNext(decay, i);
      PowerNext(decay, i);
      PowerNext(0x8000, i - 1);
      GeometricBelow(decay, i, a, b, Power(decay, i));
      GeometricAbove(decay, i, a, b, Power(decay, i));
    }
  }

  lemma PowerNext(b: nat, n: nat)
    ensures Power(b, n + 1) == b * Power(b, n) && Power(b, n) >= 0 && Power(b, 0) == 1
    ensures b > 0 ==> Power(b, n) > 0
  {
    hide *;
    PowerStep(b, n);
    PowerPositive(b, n);
  }

  lemma PowerStep(b: nat, n: nat)
    ensures Power(b, n + 1) == b * Power(b, n) && Power(b, 0) == 1
  {
  }

  lemma {:induction false} PowerPositive(b: nat, n: nat)
    ensures b > 0 ==> Power(b, n) > 0
  {
    if n > 0 && b > 0 {
      PowerPositive(b, n - 1);
      MulMono(1, Power(b, n - 1), b);
      assert b * Power(b, n - 1) == Power(b, n - 1) * b;
    }
  }

  lemma FirstAbove(decay: nat)
    ensures decay <= Max(7, decay) && (Max(7, decay) == 7 || Max(7, decay) == decay)
  {
  }

  lemma GeometricBelow(decay: nat, i: nat, a: nat, b: nat, p: nat)
    requires decay < 0x8000 && i > 0 && p <= (a + i - 1) * b
    ensures decay * p <= (Max(7 - i, a * decay / 0x8000) + i) * (0x8000 * b)
  {
    var q := a * decay / 0x8000;
    MulMono(p, (a + i - 1) * b, decay);
    MulNat(i - 1, 0x8000 - decay);
    assert (a + i - 1) * decay == a * decay + (i - 1) * decay;
    assert (i - 1) * (0x8000 - decay) == 0x8000 * (i - 1) - (i - 1) * decay;
    assert (a + i - 1) * decay <= 0x8000 * (q + i);
    MulMono((a + i - 1) * decay, 0x8000 * (q + i), b);
    assert (a + i - 1) * b * decay == (a + i - 1) * decay * b;
    assert 0x8000 * (q + i) * b == (q + i) * (0x8000 * b);
    MulMono(q + i, Max(7 - i, q) + i, 0x8000 * b);
  }

  lemma GeometricAbove(decay: nat, i: nat, a: nat, b: nat, p: nat)
    requires decay < 0x8000 && 0 < i <= 6 && (a == 7 - (i - 1) || a * b <= p) && b > 0 && a > 0
    ensures var q := Max(7 - i, a * decay / 0x8000); q == 7 - i || q * (0x8000 * b) <= decay * p
  {
    DecayBelow(a, decay);
    var q := a * decay / 0x8000;
    if q > 7 - i {
      MulMono(a * b, p, decay);
      MulMono(0x8000 * q, a * decay, b);
      assert 0x8000 * q * b == q * (0x8000 * b);
      assert a * decay * b == a * b * decay;
    }
  }

  /** The magnitude's symbol s owns what lies between two of these shares. */
  lemma MagnitudeShares(decay: nat, s: nat)
    requires decay < 0x8000 && s <= 7
    ensures var op := MagnitudeOp(decay, s);
      && op.ft == 0x8000
      && op.ft - op.fl == (if s == 0 then 0x8000 else Above(decay, s - 1))
      && op.ft - op.fh == (if s == 7 then 0 else Above(decay, s))
  {
    MagnitudeModel(decay);
    Pow2Values();
    hide Pow2, IcdfTable, HasWidth, MagnitudeIcdf, Above;
    IcdfParts(MagnitudeIcdf(decay), 15, s);
    EntryIs(decay, s);
    if s > 0 { EntryIs(decay, s - 1); }
  }

  lemma EntryIs(decay: nat, s: nat)
    requires decay < 0x8000 && s <= 7
    ensures MagnitudeIcdf(decay)[s] == if s == 7 then 0 else Above(decay, s)
  {
    hide Above;
  }

  /** A magnitude less one: sevens, then what is left. */
  function RunOps(decay: nat, n: nat): (ops: seq<Op>)
    requires decay < 0x8000
    ensures AllLegal(ops)
  {
    if n < 7 then [MagnitudeOp(decay, n)] else [MagnitudeOp(decay, 7)] + RunOps(decay, n - 7)
  }

  function ValueOps(p0: nat, decay: nat, value: int): (ops: seq<Op>)
    requires P0Model(p0, decay)
    ensures AllLegal(ops)
  {
    [SignOp(p0, value)] + if value == 0 then [] else RunOps(decay, Abs(value) - 1)
  }

  // ------------------------------------------------------------- uniqueness

  lemma CarriesHead(buf: seq<byte>, sp: Span, op: Op, rest: seq<Op>)
    requires Proper(sp) && Legal(op) && AllLegal(rest)
    ensures AllLegal([op] + rest)
    ensures Carries(buf, sp, [op] + rest) <==> ReadsOp(buf, sp, op) && Carries(buf, Step(sp, op), rest)
    ensures Run(sp, [op] + rest) == Run(Step(sp, op), rest)
  {
    hide Carries, Run, ReadsOp, Step;
    CarriesOne(buf, sp, op);
    CarriesConcat(buf, sp, [op], rest);
    RunConcat(sp, [op], rest);
  }

  lemma MagnitudeOnce(buf: seq<byte>, sp: Span, decay: nat, s: nat, t: nat)
    requires Proper(sp) && decay < 0x8000 && s <= 7 && t <= 7
    requires ReadsOp(buf, sp, MagnitudeOp(decay, s)) && ReadsOp(buf, sp, MagnitudeOp(decay, t))
    ensures s == t
  {
    MagnitudeModel(decay);
    hide ReadsOp, MagnitudeIcdf, IcdfTable, HasWidth, IcdfOp;
    IcdfOnce(buf, sp, s, t, MagnitudeIcdf(decay), 15);
  }

  lemma {:induction false} RunOnce(buf: seq<byte>, sp: Span, decay: nat, m: nat, n: nat)
    requires Proper(sp) && decay < 0x8000
    requires Carries(buf, sp, RunOps(decay, m)) && Carries(buf, sp, RunOps(decay, n))
    ensures m == n
    decreases m
  {
    hide ReadsOp, Carries, Step, MagnitudeOp;
    var hm := MagnitudeOp(decay, Min(m, 7));
    var hn := MagnitudeOp(decay, Min(n, 7));
    var tm := if m < 7 then [] else RunOps(decay, m - 7);
    var tn := if n < 7 then [] else RunOps(decay, n - 7);
    assert RunOps(decay, m) == [hm] + tm && RunOps(decay, n) == [hn] + tn;
    CarriesHead(buf, sp, hm, tm);
    CarriesHead(buf, sp, hn, tn);
    MagnitudeOnce(buf, sp, decay, Min(m, 7), Min(n, 7));
    if m >= 7 && n >= 7 { RunOnce(buf, Step(sp, hm), decay, m - 7, n - 7); }
  }

  /** A packet holds one integer: whatever value was coded is the one read. */
  lemma ValueOnce(buf: seq<byte>, sp: Span, p0: nat, decay: nat, v: int, w: int)
    requires Proper(sp) && P0Model(p0, decay)
    requires Carries(buf, sp, ValueOps(p0, decay, v)) && Carries(buf, sp, ValueOps(p0, decay, w))
    ensures v == w
  {
    hide *;
    ValueParts(buf, sp, p0, decay, v);
    ValueParts(buf, sp, p0, decay, w);
    SignOnce(buf, sp, p0, v, w);
    if v != 0 && w != 0 {
      RunOnce(buf, Step(sp, SignOp(p0, v)), decay, Abs(v) - 1, Abs(w) - 1);
      SameValue(v, w);
    }
  }

  lemma ValueParts(buf: seq<byte>, sp: Span, p0: nat, decay: nat, v: int)
    requires Proper(sp) && P0Model(p0, decay) && Carries(buf, sp, ValueOps(p0, decay, v))
    ensures 0 < p0 < 32767 && decay < 0x8000 && Legal(SignOp(p0, v)) && ReadsOp(buf, sp, SignOp(p0, v))
    ensures Proper(Step(sp, SignOp(p0, v)))
    ensures v != 0 ==> Abs(v) >= 1 && Carries(buf, Step(sp, SignOp(p0, v)), RunOps(decay, Abs(v) - 1))
  {
    hide ReadsOp, Carries, RunOps, SignOp, Step, Run;
    CarriesHead(buf, sp, SignOp(p0, v), if v == 0 then [] else RunOps(decay, Abs(v) - 1));
  }

  /** The sign symbol tells zero, positive and negative apart. */
  lemma SignOnce(buf: seq<byte>, sp: Span, p0: nat, v: int, w: int)
    requires Proper(sp) && 0 < p0 < 32767 && ReadsOp(buf, sp, SignOp(p0, v)) && ReadsOp(buf, sp, SignOp(p0, w))
    ensures (v < 0 <==> w < 0) && (v == 0 <==> w == 0) && SignOp(p0, v) == SignOp(p0, w)
  {
    SignModel(p0);
    hide ReadsOp, SignIcdf, IcdfTable, HasWidth, IcdfOp;
    IcdfOnce(buf, sp, SignOf(v), SignOf(w), SignIcdf(p0), 15);
  }

  lemma SameValue(v: int, w: int)
    requires Abs(v) - 1 == Abs(w) - 1 && (v < 0 <==> w < 0)
    ensures v == w
  {
  }

  // ------------------------------------------------------------- the coders

  method MakeIcdf(decay: nat) returns (icdf: seq<nat>)
    requires decay < 0x8000
    ensures icdf == MagnitudeIcdf(decay)
  {
    hide Above;
    AboveStart(decay);
    icdf := [Max(7, decay)];
    for i := 1 to 7
      invariant |icdf| == i && forall j :: 0 <= j < i ==> icdf[j] == Above(decay, j)
    {
      AboveNext(decay, i);
      MulNat(icdf[i - 1], decay);
      icdf := icdf + [Max(7 - i, icdf[i - 1] * decay / 0x8000)];
    }
    icdf := icdf + [0];
  }

  lemma AboveStart(decay: nat)
    requires decay < 0x8000
    ensures Above(decay, 0) == Max(7, decay)
  {
  }

  lemma AboveNext(decay: nat, i: nat)
    requires decay < 0x8000 && 0 < i <= 6
    ensures Above(decay, i) == Max(7 - i, Above(decay, i - 1) * decay / 0x8000)
  {
  }

  /** What is still to be coded. */
  function RunRest(decay: nat, value: int): (ops: seq<Op>)
    requires decay < 0x8000
    ensures AllLegal(ops)
  {
    if value < 0 then [] else RunOps(decay, value)
  }

  lemma RestNext(decay: nat, value: nat, before: seq<Op>)
    requires decay < 0x8000
    ensures before + RunRest(decay, value) == before + [MagnitudeOp(decay, Min(value, 7))] + RunRest(decay, value - 7)
  {
    hide MagnitudeOp;
  }

  method EncodeRun(enc: EcCtx, n: nat, decay: nat, icdf: seq<nat>)
    requires enc.ValidEnc() && decay < 0x8000 && icdf == MagnitudeIcdf(decay)
    modifies enc, enc.buf
    ensures enc.ValidEnc() && enc.ops == old(enc.ops) + RunOps(decay, n) && enc.storage == old(enc.storage)
    ensures old(enc.front) <= enc.front && enc.tail == old(enc.tail)
  {
    MagnitudeModel(decay);
    hide EcCtx.ValidEnc, IcdfTable, HasWidth, IcdfOp, MagnitudeIcdf, RunOps, RunRest;
    assert enc.ops + RunRest(decay, n) == enc.ops + RunOps(decay, n) by { RunRestIs(decay, n); }
    var value: int := n;
    while value >= 0
      invariant -7 <= value && enc.ValidEnc() && enc.storage == old(enc.storage)
      invariant old(enc.front) <= enc.front && enc.tail == old(enc.tail)
      invariant enc.ops + RunRest(decay, value) == old(enc.ops) + RunOps(decay, n)
    {
      RestNext(decay, value, enc.ops);
      enc.EncIcdf(Min(value, 7), icdf, 15);
      value := value - 7;
    }
    assert enc.ops + RunRest(decay, value) == enc.ops by { RestDone(decay, value, enc.ops); }
  }

  lemma RunRestIs(decay: nat, n: nat)
    requires decay < 0x8000
    ensures RunRest(decay, n) == RunOps(decay, n)
  {
  }

  lemma RestDone(decay: nat, value: int, before: seq<Op>)
    requires decay < 0x8000 && value < 0
    ensures before + RunRest(decay, value) == before
  {
  }

  /** ec_laplace_encode_p0 */
  method EncodeP0(enc: EcCtx, value: int, p0: nat, decay: nat)
    requires enc.ValidEnc() && P0Model(p0, decay)
    modifies enc, enc.buf
    ensures enc.ValidEnc() && enc.ops == old(enc.ops) + ValueOps(p0, decay, value)
    ensures enc.storage == old(enc.storage) && old(enc.front) <= enc.front && enc.tail == old(enc.tail)
  {
    SignModel(p0);
    hide EcCtx.ValidEnc, IcdfTable, HasWidth, IcdfOp, SignIcdf, MagnitudeIcdf, RunOps;
    enc.EncIcdf(SignOf(value), SignIcdf(p0), 15);
    assert enc.ops == old(enc.ops) + [SignOp(p0, value)];
    hide SignOp, SignOf;
    if value != 0 {
      var icdf := MakeIcdf(decay);
      EncodeRun(enc, Abs(value) - 1, decay, icdf);
      OpsAssoc(old(enc.ops), [SignOp(p0, value)], RunOps(decay, Abs(value) - 1));
    }
  }

  // -------------------------------------------------- the escape loop stops

  /** How far the code value is below the top of the range. */
  function Gap(buf: seq<byte>, sp: Span): int { sp.low + sp.rng - Code(buf, sp.n) }

  /** Past scale `end`, where the packet is used up, the gap grows by 256 each time. */
  predicate Wide(buf: seq<byte>, sp: Span, end: nat) {
    Gap(buf, sp) >= Pow2(8 * Max(sp.n - end, 0))
  }

  lemma {:induction false} NormWide(buf: seq<byte>, sp: Span, end: nat)
    requires 0 < sp.rng <= TOP && end >= |buf| && Wide(buf, sp, end)
    ensures Wide(buf, Norm(sp), end) && Norm(sp).n >= sp.n && (Norm(sp).n == sp.n ==> Norm(sp) == sp)
    decreases TOP - sp.rng
  {
    if sp.rng <= BOT {
      var sp' := Span(sp.low * 256, sp.rng * 256, sp.n + 1, sp.nraw);
      CodeNext(buf, sp.n);
      if sp.n >= end {
        Pow2Byte(sp.n - end);
      } else {
        PowZero();
      }
      hide Code, Pow2;
      NormWide(buf, sp', end);
    }
  }

  lemma WideBound(buf: seq<byte>, sp: Span, end: nat)
    requires Proper(sp) && Contains(buf, sp) && Wide(buf, sp, end)
    ensures sp.n < end + 4
  {
    Pow2Values();
    hide Pow2, Code;
    if sp.n >= end + 4 { Pow2Mono(32, 8 * Max(sp.n - end, 0)); }
  }

  lemma EscapeOp(decay: nat)
    requires decay < 0x8000
    ensures var op := MagnitudeOp(decay, 7); op.fh == op.ft && op.fl > 0 && !op.first
  {
    MagnitudeModel(decay);
    hide Above, IcdfTable, Pow2;
  }

  /** The last symbol of a model keeps the top of the range and shrinks it. */
  lemma TopSymbol(sp: Span, op: Op)
    requires Proper(sp) && op.Sym? && Legal(op) && op.fh == op.ft && op.fl > 0 && !op.first
    ensures var w := Narrow(sp, op); w.low + w.rng == sp.low + sp.rng && w.rng < sp.rng
  {
    Ends(sp.rng, op);
    EndsInside(sp.rng, op);
    LessTimes(sp.rng, op.ft, op.fl);
  }

  lemma LessTimes(rng: nat, ft: nat, fl: nat)
    requires 0 < fl <= ft && rng / ft >= 1
    ensures rng / ft * (ft - fl) < rng
  {
    var r := rng / ft;
    MulMono(ft - fl, ft - 1, r);
    assert (ft - fl) * r == r * (ft - fl) && (ft - 1) * r == r * ft - r;
    assert r * ft <= rng;
  }

  lemma EscapeStays(sp: Span, decay: nat)
    requires Proper(sp) && decay < 0x8000
    ensures var op := MagnitudeOp(decay, 7);
      && Narrow(sp, op).low + Narrow(sp, op).rng == sp.low + sp.rng && Narrow(sp, op).rng < sp.rng
  {
    hide MagnitudeOp, Narrow;
    EscapeOp(decay);
    TopSymbol(sp, MagnitudeOp(decay, 7));
  }

  /** One more escape either takes in code bytes or shrinks the range. */
  lemma EscapeStep(buf: seq<byte>, sp: Span, decay: nat, end: nat)
    requires Proper(sp) && decay < 0x8000 && ReadsOp(buf, sp, MagnitudeOp(decay, 7))
    requires Wide(buf, sp, end) && end >= |buf|
    ensures var r := Step(sp, MagnitudeOp(decay, 7));
      && Wide(buf, r, end) && r.n < end + 4 && (r.n > sp.n || (r.n == sp.n && r.rng < sp.rng))
  {
    hide Code, Pow2, MagnitudeOp, Narrow;
    var op := MagnitudeOp(decay, 7);
    EscapeStays(sp, decay);
    NarrowKeeps(sp, op);
    NormWide(buf, Narrow(sp, op), end);
    StepContains(buf, sp, op);
    WideBound(buf, Step(sp, op), end);
  }

  lemma NarrowKeeps(sp: Span, op: Op)
    requires Proper(sp) && op.Sym? && Legal(op)
    ensures Narrow(sp, op).n == sp.n && Narrow(sp, op).nraw == sp.nraw
  {
  }

  lemma StartWide(buf: seq<byte>, sp: Span)
    requires Contains(buf, sp)
    ensures Wide(buf, sp, Max(sp.n, |buf|))
  {
    PowZero();
  }

  /** The symbols read so far, of a magnitude that has reached `value`. */
  predicate Track(decay: nat, read: seq<Op>, value: int, v: nat)
    requires decay < 0x8000
  {
    value >= 1 && v <= 7 &&
    if v == 7 then value % 7 == 1 && read == Sevens(decay, (value - 1) / 7) else read == RunOps(decay, value - 1)
  }

  lemma TrackNext(decay: nat, read: seq<Op>, value: int, v: nat)
    requires decay < 0x8000 && Track(decay, read, value, 7) && v <= 7
    ensures Track(decay, read + [MagnitudeOp(decay, v)], value + v, v)
  {
    hide MagnitudeOp, RunOps, Sevens;
    var k := (value - 1) / 7;
    if v == 7 { SevensNext(decay, k); } else { SevensThen(decay, k, v); }
  }

  /** One symbol of the escape loop. */
  method ReadMagnitude(dec: EcCtx, decay: nat, icdf: seq<nat>, ghost sp: Span, ghost read: seq<Op>) returns (v: nat)
    requires dec.ValidDec() && decay < 0x8000 && icdf == MagnitudeIcdf(decay)
    requires Proper(sp) && AllLegal(read) && Carries(dec.data, sp, read) && dec.pos == Run(sp, read)
    modifies dec
    ensures dec.ValidDec() && dec.data == old(dec.data) && v <= 7
    ensures var op := MagnitudeOp(decay, v);
      && ReadsOp(dec.data, old(dec.pos), op) && dec.pos == Step(old(dec.pos), op) && AllLegal(read + [op])
      && Carries(dec.data, sp, read + [op]) && dec.pos == Run(sp, read + [op])
  {
    MagnitudeModel(decay);
    hide EcCtx.ValidDec, IcdfTable, IcdfOp, MagnitudeIcdf, ReadsOp, Carries, Run, Step;
    v := dec.DecIcdf(icdf, 15);
    CarriesSnoc(dec.data, sp, read, MagnitudeOp(decay, v));
    RunSnoc(sp, read, MagnitudeOp(decay, v));
  }

  /** The escape loop of ec_laplace_decode_p0.  It stops on every packet. */
  method DecodeRun(dec: EcCtx, decay: nat, icdf: seq<nat>) returns (value: int)
    requires dec.ValidDec() && decay < 0x8000 && icdf == MagnitudeIcdf(decay)
    modifies dec
    ensures dec.ValidDec() && dec.data == old(dec.data) && value >= 1
    ensures Carries(dec.data, old(dec.pos), RunOps(decay, value - 1))
    ensures dec.pos == Run(old(dec.pos), RunOps(decay, value - 1))
  {
    dec.DecState();
    hide EcCtx.ValidDec, MagnitudeIcdf, RunOps, ReadsOp, Carries, Run, Wide, Step, MagnitudeOp;
    ghost var sp, data, end := dec.pos, dec.data, Max(dec.pos.n, |dec.data|);
    StartWide(data, sp);
    ghost var read: seq<Op> := [];
    RunNothing(data, sp);
    value := 1;
    var v := 7;
    while v == 7
      invariant dec.ValidDec() && dec.data == data && AllLegal(read) && Track(decay, read, value, v)
      invariant Carries(data, sp, read) && dec.pos == Run(sp, read)
      invariant v == 7 ==> Wide(data, dec.pos, end) && dec.pos.n < end + 4
      decreases if v == 7 then 1 else 0, end + 4 - dec.pos.n, dec.pos.rng
    {
      ghost var was := dec.pos;
      v := ReadMagnitude(dec, decay, icdf, sp, read);
      TrackNext(decay, read, value, v);
      read := read + [MagnitudeOp(decay, v)];
      if v == 7 { EscapeStep(data, was, decay, end); }
      value := value + v;
    }
  }

  lemma RunNothing(buf: seq<byte>, sp: Span)
    requires Proper(sp)
    ensures Carries(buf, sp, []) && Run(sp, []) == sp
  {
  }

  function Sevens(decay: nat, k: nat): (ops: seq<Op>)
    requires decay < 0x8000
    ensures AllLegal(ops)
  {
    if k == 0 then [] else Sevens(decay, k - 1) + [MagnitudeOp(decay, 7)]
  }

  lemma SevensNext(decay: nat, k: nat)
    requires decay < 0x8000
    ensures Sevens(decay, k + 1) == Sevens(decay, k) + [MagnitudeOp(decay, 7)]
  {
  }

  lemma {:induction false} SevensThen(decay: nat, k: nat, v: nat)
    requires decay < 0x8000 && v < 7
    ensures Sevens(decay, k) + [MagnitudeOp(decay, v)] == RunOps(decay, 7 * k + v)
  {
    hide MagnitudeOp;
    if k > 0 {
      SevensFront(decay, k);
      SevensThen(decay, k - 1, v);
      assert RunOps(decay, 7 * k + v) == [MagnitudeOp(decay, 7)] + RunOps(decay, 7 * (k - 1) + v);
    }
  }

  lemma {:induction false} SevensFront(decay: nat, k: nat)
    requires decay < 0x8000 && k > 0
    ensures Sevens(decay, k) == [MagnitudeOp(decay, 7)] + Sevens(decay, k - 1)
  {
    hide MagnitudeOp;
    if k > 1 { SevensFront(decay, k - 1); }
  }

  /** ec_laplace_decode_p0 */
  method DecodeP0(dec: EcCtx, p0: nat, decay: nat) returns (value: int)
    requires dec.ValidDec() && P0Model(p0, decay)
    modifies dec
    ensures dec.ValidDec() && dec.data == old(dec.data)
    ensures Carries(dec.data, old(dec.pos), ValueOps(p0, decay, value))
    ensures dec.pos == Run(old(dec.pos), ValueOps(p0, decay, value))
  {
    SignModel(p0);
    hide EcCtx.ValidDec, IcdfTable, HasWidth, IcdfOp, SignIcdf, RunOps, ReadsOp, Carries, Run, Step;
    dec.DecState();
    ghost var sp, data := dec.pos, dec.data;
    var s := dec.DecIcdf(SignIcdf(p0), 15);
    assert s < 3 by { SignSize(p0, s); }
    value := 0;
    if s != 0 {
      var icdf := MakeIcdf(decay);
      var m := DecodeRun(dec, decay, icdf);
      value := if s == 2 then -m else m;
    }
    hide ValueOps, SignOp;
    ValueJoined(data, sp, p0, decay, value);
  }

  lemma ValueJoined(buf: seq<byte>, sp: Span, p0: nat, decay: nat, v: int)
    requires Proper(sp) && P0Model(p0, decay) && ReadsOp(buf, sp, SignOp(p0, v))
    requires v != 0 ==> Carries(buf, Step(sp, SignOp(p0, v)), RunOps(decay, Abs(v) - 1))
    ensures Carries(buf, sp, ValueOps(p0, decay, v))
    ensures Run(sp, ValueOps(p0, decay, v))
            == if v == 0 then Step(sp, SignOp(p0, v)) else Run(Step(sp, SignOp(p0, v)), RunOps(decay, Abs(v) - 1))
  {
    hide ReadsOp, Carries, RunOps, SignOp, Step, Run;
    RunNothing(buf, Step(sp, SignOp(p0, v)));
    CarriesHead(buf, sp, SignOp(p0, v), if v == 0 then [] else RunOps(decay, Abs(v) - 1));
  }

  lemma SignSize(p0: nat, s: nat)
    requires 0 < p0 < 32767 && HasWidth(SignIcdf(p0), s, 15)
    ensures s < 3
  {
  }
}
