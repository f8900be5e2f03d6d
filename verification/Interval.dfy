/** The ideal range coder: one interval of unbounded integers, narrowed by each
    symbol and rescaled by bytes.  Both directions of the real coder are proved
    against it, and it says what it means for a packet to carry a symbol. */
module Interval {
  import opened Arith

  const TOP: nat := 0x8000_0000  // EC_CODE_TOP
  const BOT: nat := 0x80_0000    // EC_CODE_BOT

  /** One primitive coding step.  A symbol owns [fl, fh) out of ft; `first` marks
      the symbol that also receives the part of the range lost to rounding. */
  datatype Op =
    | Sym(first: bool, fl: nat, fh: nat, ft: nat)
    | Raw(v: nat, bits: nat)

  predicate Legal(op: Op) {
    match op
    case Sym(first, fl, fh, ft) => fl < fh <= ft <= BOT && (first ==> fl == 0)
    case Raw(v, bits) => bits <= 25 && v < Pow2(bits)
  }

  predicate AllLegal(ops: seq<Op>) { forall i :: 0 <= i < |ops| ==> Legal(ops[i]) }

  /** What encoder and decoder agree on: the interval [low, low + rng) at the
      scale reached after n rescalings, and how many raw bits were used. */
  datatype Span = Span(low: nat, rng: nat, n: nat, nraw: nat)

  const START: Span := Span(0, TOP, 0, 0)

  predicate Proper(sp: Span) {
    BOT < sp.rng <= TOP && sp.low + sp.rng <= TOP * Pow2(8 * sp.n)
  }

  /** ec_tell as a function of the span. */
  function Tell(sp: Span): int {
    33 + 8 * sp.n + sp.nraw - ILog(sp.rng)
  }

  /** The bits already behind: whole bytes of the range coder, and raw bits. */
  function Spent(sp: Span): nat { 8 * sp.n + sp.nraw }

  /** Distances from the top of the range to the two ends of a symbol. */
  function Far(rng: nat, op: Op): nat
    requires op.Sym? && Legal(op)
  {
    if op.first then rng
    else
      var r, w := rng / op.ft, op.ft - op.fl;
      MulNat(r, w);
      r * w
  }

  function Near(rng: nat, op: Op): nat
    requires op.Sym? && Legal(op)
  {
    var r, w := rng / op.ft, op.ft - op.fh;
    MulNat(r, w);
    r * w
  }

  lemma EndsInside(rng: nat, op: Op)
    requires op.Sym? && Legal(op) && BOT <= rng
    ensures Near(rng, op) < Far(rng, op) <= rng
    ensures Far(rng, op) - Near(rng, op) >= rng / op.ft >= 1
  {
    var r := rng / op.ft;
    DivGe(rng, op.ft, 1);
    assert r * op.ft <= rng;
    MulMono(op.ft - op.fh + 1, op.ft - op.fl, r);
    MulMono(op.ft - op.fl, op.ft, r);
    assert (op.ft - op.fh + 1) * r == Near(rng, op) + r;
    assert (op.ft - op.fl) * r == r * (op.ft - op.fl);
  }

  /** The two ends in the form the coder computes them. */
  lemma Ends(rng: nat, op: Op)
    requires op.Sym? && Legal(op)
    ensures Near(rng, op) == rng / op.ft * (op.ft - op.fh)
    ensures !op.first ==> Far(rng, op) == rng / op.ft * (op.ft - op.fl)
    ensures !op.first ==> Far(rng, op) - Near(rng, op) == rng / op.ft * (op.fh - op.fl)
  {
    var r := rng / op.ft;
    assert r * (op.ft - op.fl) == r * (op.ft - op.fh) + r * (op.fh - op.fl);
  }

  function Norm(sp: Span): Span
    requires 0 < sp.rng <= TOP
    decreases TOP - sp.rng
  {
    if sp.rng > BOT then sp else Norm(Span(sp.low * 256, sp.rng * 256, sp.n + 1, sp.nraw))
  }

  function Narrow(sp: Span, op: Op): (r: Span)
    requires Proper(sp) && op.Sym? && Legal(op)
    ensures 0 < r.rng <= TOP
  {
    EndsInside(sp.rng, op);
    Span(sp.low + sp.rng - Far(sp.rng, op), Far(sp.rng, op) - Near(sp.rng, op), sp.n, sp.nraw)
  }

  function Step(sp: Span, op: Op): (r: Span)
    requires Proper(sp) && Legal(op)
    ensures Proper(r)
  {
    match op
    case Sym(_, _, _, _) =>
      EndsInside(sp.rng, op);
      NormProper(Narrow(sp, op));
      Norm(Narrow(sp, op))
    case Raw(_, bits) => sp.(nraw := sp.nraw + bits)
  }

  lemma {:induction false} NormProper(sp: Span)
    requires 0 < sp.rng <= TOP && sp.low + sp.rng <= TOP * Pow2(8 * sp.n)
    ensures Proper(Norm(sp))
    decreases TOP - sp.rng
  {
    if sp.rng <= BOT {
      Pow2Byte(sp.n);
      NormProper(Span(sp.low * 256, sp.rng * 256, sp.n + 1, sp.nraw));
    }
  }

  /** Rescaling leaves the bit count unchanged. */
  lemma {:induction false} NormTell(sp: Span)
    requires 0 < sp.rng <= TOP
    ensures Tell(Norm(sp)) == Tell(sp)
    ensures Norm(sp).n >= sp.n && Norm(sp).nraw == sp.nraw
    decreases TOP - sp.rng
  {
    if sp.rng <= BOT {
      ILogShift(sp.rng, 8);
      assert Pow2(8) == 256;
      NormTell(Span(sp.low * 256, sp.rng * 256, sp.n + 1, sp.nraw));
    }
  }

  /** A symbol of an n-bit model raises the bit count by between 0 and n. */
  lemma StepTell(sp: Span, op: Op, bits: nat)
    requires Proper(sp) && Legal(op) && op.Sym? && op.ft == Pow2(bits)
    ensures Tell(sp) <= Tell(Step(sp, op)) <= Tell(sp) + bits
  {
    StepTellMono(sp, op);
    EndsInside(sp.rng, op);
    var w := Narrow(sp, op);
    NormTell(w);
    ILogBounds(sp.rng);
    if bits >= ILog(sp.rng) { Pow2Mono(ILog(sp.rng), bits); }
    ILogDrop(sp.rng, bits);
    ILogMono(sp.rng / op.ft, w.rng);
  }

  /** The bit count never goes down. */
  lemma StepTellMono(sp: Span, op: Op)
    requires Proper(sp) && Legal(op)
    ensures Tell(sp) <= Tell(Step(sp, op))
    ensures Step(sp, op).n >= sp.n && Step(sp, op).nraw >= sp.nraw
  {
    if op.Sym? {
      EndsInside(sp.rng, op);
      var w := Narrow(sp, op);
      NormTell(w);
      ILogMono(w.rng, sp.rng);
    }
  }

  lemma RangeBits(sp: Span)
    requires Proper(sp)
    ensures 24 <= ILog(sp.rng) <= 32
  {
    hide Pow2, ILog;
    ILogMono(sp.rng, TOP);
    ILogMono(BOT, sp.rng);
    Pow2Values();
    ILogUnique(TOP, 32);
    ILogUnique(BOT, 24);
  }

  lemma SpentTell(sp: Span)
    requires Proper(sp)
    ensures Spent(sp) < Tell(sp) <= Spent(sp) + 9
  {
    RangeBits(sp);
    hide ILog;
  }

  // ---------------------------------------------------------------- runs

  function Run(sp: Span, ops: seq<Op>): (r: Span)
    requires Proper(sp) && AllLegal(ops)
    ensures Proper(r)
  {
    if |ops| == 0 then sp else Step(Run(sp, ops[..|ops| - 1]), ops[|ops| - 1])
  }

  lemma OpsAssoc(a: seq<Op>, b: seq<Op>, c: seq<Op>)
    ensures a + b + c == a + (b + c)
  {
  }

  lemma LegalJoin(a: seq<Op>, b: seq<Op>)
    requires AllLegal(a) && AllLegal(b)
    ensures AllLegal(a + b)
  {
  }

  lemma StartProper()
    ensures Proper(START)
  {
    assert Pow2(0) == 1;
  }

  lemma RunNone(sp: Span)
    requires Proper(sp)
    ensures Run(sp, []) == sp
  {
  }

  lemma RunSnoc(sp: Span, ops: seq<Op>, op: Op)
    requires Proper(sp) && AllLegal(ops) && Legal(op)
    ensures AllLegal(ops + [op])
    ensures Run(sp, ops + [op]) == Step(Run(sp, ops), op)
  {
    assert (ops + [op])[..|ops|] == ops;
  }

  lemma {:induction false} RunConcat(sp: Span, a: seq<Op>, b: seq<Op>)
    requires Proper(sp) && AllLegal(a) && AllLegal(b)
    ensures AllLegal(a + b)
    ensures Run(sp, a + b) == Run(Run(sp, a), b)
  {
    if |b| == 0 {
      assert a + b == a;
    } else {
      var b' := b[..|b| - 1];
      RunConcat(sp, a, b');
      assert (a + b)[..|a + b| - 1] == a + b';
    }
  }

  lemma {:induction false} RunTellMono(sp: Span, ops: seq<Op>)
    requires Proper(sp) && AllLegal(ops)
    ensures Tell(sp) <= Tell(Run(sp, ops))
  {
    if |ops| > 0 {
      var b := ops[..|ops| - 1];
      RunTellMono(sp, b);
      StepTellMono(Run(sp, b), ops[|ops| - 1]);
    }
  }

  // --------------------------------------------- the steps each call codes

  lemma BinLegal(bits: nat)
    requires bits <= 23
    ensures 1 <= Pow2(bits) <= BOT
    ensures bits >= 1 ==> Pow2(bits) >= 2
  {
    Pow2Mono(bits, 23);
    Pow2Values();
    if bits >= 1 { Pow2Mono(1, bits); }
  }

  /** A flag whose value 1 has probability 2^-logp. */
  function BitOp(v: bool, logp: nat): (op: Op)
    requires 1 <= logp <= 23
    ensures op.Sym? && Legal(op) && op.ft == Pow2(logp)
  {
    BinLegal(logp);
    var ft := Pow2(logp);
    if v then Sym(false, ft - 1, ft, ft) else Sym(true, 0, ft - 1, ft)
  }

  /** An inverse cumulative table: non-increasing from below ft down to 0. */
  predicate IcdfTable(icdf: seq<nat>, ftb: nat) {
    && 1 <= ftb <= 23 && |icdf| > 0 && icdf[|icdf| - 1] == 0 && icdf[0] < Pow2(ftb)
    && forall i, j :: 0 <= i <= j < |icdf| ==> icdf[j] <= icdf[i]
  }

  function IcdfAbove(icdf: seq<nat>, s: nat, ftb: nat): nat
    requires s < |icdf|
  {
    if s == 0 then Pow2(ftb) else icdf[s - 1]
  }

  predicate HasWidth(icdf: seq<nat>, s: nat, ftb: nat) {
    s < |icdf| && icdf[s] < IcdfAbove(icdf, s, ftb)
  }

  function IcdfOp(s: nat, icdf: seq<nat>, ftb: nat): (op: Op)
    requires IcdfTable(icdf, ftb) && HasWidth(icdf, s, ftb)
    ensures op.Sym? && Legal(op) && op.ft == Pow2(ftb)
  {
    BinLegal(ftb);
    var ft := Pow2(ftb);
    Sym(s == 0, ft - IcdfAbove(icdf, s, ftb), ft - icdf[s], ft)
  }

  /** The symbols of a table follow one another without a gap, from 0 to the total. */
  lemma IcdfParts(icdf: seq<nat>, ftb: nat, s: nat)
    requires IcdfTable(icdf, ftb) && HasWidth(icdf, s, ftb)
    ensures var op := IcdfOp(s, icdf, ftb);
      && op.fh - op.fl == IcdfAbove(icdf, s, ftb) - icdf[s]
      && (s == 0 ==> op.first && op.fl == 0) && (s == |icdf| - 1 ==> op.fh == op.ft)
      && (HasWidth(icdf, s + 1, ftb) ==> op.fh == IcdfOp(s + 1, icdf, ftb).fl)
  {
    BinLegal(ftb);
    hide Pow2;
  }

  /** A flag is the second symbol of the table {1, 0}: one part of 2^logp, at the top. */
  lemma FlagIsIcdf(v: bool, logp: nat)
    requires 1 <= logp <= 23
    ensures IcdfTable([1, 0], logp) && HasWidth([1, 0], if v then 1 else 0, logp)
    ensures BitOp(v, logp) == IcdfOp(if v then 1 else 0, [1, 0], logp)
    ensures v ==> BitOp(v, logp).fh - BitOp(v, logp).fl == 1
  {
    BinLegal(logp);
    hide Pow2;
  }

  lemma UintSplit(v: nat, ft: nat)
    requires v < ft && ILog(ft - 1) > 8 && ft <= 0x1_0000_0000
    ensures var ftb := ILog(ft - 1) - 8;
            && 1 <= ftb <= 24
            && v / Pow2(ftb) < (ft - 1) / Pow2(ftb) + 1 <= 256
            && v % Pow2(ftb) < Pow2(ftb)
            && Legal(UintHead(v, ft, Pow2(ftb))) && Legal(Raw(v % Pow2(ftb), ftb))
  {
    assert ft > 1;
    hide Pow2, ILog;
    var p := Pow2(ILog(ft - 1) - 8);
    SplitWidth(ft - 1);
    DivMono(v, ft - 1, p);
    DivGe(ft - 1, p, 256);
    assert v % p < p;
  }

  /** Without its top eight bits a word has at most 24, and the top is below 256. */
  lemma SplitWidth(w: nat)
    requires ILog(w) > 8 && w < 0x1_0000_0000
    ensures ILog(w) <= 32 && w < 256 * Pow2(ILog(w) - 8)
  {
    assert w > 0;
    hide Pow2, ILog;
    var l := ILog(w);
    ILogBounds(w);
    Pow2Values();
    if l > 32 { Pow2Mono(32, l - 1); }
    Pow2Byte(l - 8);
  }

  function UintHead(v: nat, ft: nat, p: nat): Op
    requires 0 < p && 0 < ft
  {
    Sym(v / p == 0, v / p, v / p + 1, (ft - 1) / p + 1)
  }

  /** A uniform integer below ft: its top eight bits as a symbol, the rest raw. */
  function UintOps(v: nat, ft: nat): (ops: seq<Op>)
    requires 2 <= ft <= 0x1_0000_0000 && v < ft
    ensures AllLegal(ops) && 1 <= |ops| <= 2
  {
    hide Pow2, ILog;
    if ILog(ft - 1) > 8 then
      UintSplit(v, ft);
      var ftb := ILog(ft - 1) - 8;
      [UintHead(v, ft, Pow2(ftb)), Raw(v % Pow2(ftb), ftb)]
    else
      SmallUint(ft);
      [Sym(v == 0, v, v + 1, ft)]
  }

  lemma SmallUint(ft: nat)
    requires 2 <= ft && ILog(ft - 1) <= 8
    ensures ft <= 256
  {
    ILogBounds(ft - 1);
    Pow2Mono(ILog(ft - 1), 8);
    Pow2Values();
  }

  /** Symbol and raw bits give the value back; the symbol has the fewest parts that hold all
      values, and more than 128 of them if raw bits are needed. */
  lemma UintWhole(v: nat, ft: nat)
    requires 2 <= ft <= 0x1_0000_0000 && v < ft
    ensures var ops := UintOps(v, ft); var head := ops[0];
      && head.Sym? && head.fh == head.fl + 1 && (ft <= 256 <==> |ops| == 1)
      && (|ops| == 1 ==> head.fl == v && head.ft == ft)
      && (|ops| == 2 ==>
            && ops[1].Raw? && v == head.fl * Pow2(ops[1].bits) + ops[1].v
            && 128 < head.ft <= 256 && (head.ft - 1) * Pow2(ops[1].bits) < ft <= head.ft * Pow2(ops[1].bits))
  {
    UintSize(ft);
    UintForm(v, ft);
    hide *;
    if ILog(ft - 1) > 8 { UintParts(v, ft, Pow2(ILog(ft - 1) - 8)); }
  }

  lemma UintForm(v: nat, ft: nat)
    requires 2 <= ft <= 0x1_0000_0000 && v < ft
    ensures var ftb := ILog(ft - 1) - 8;
      if ftb > 0 then
        && ftb <= 24 && UintOps(v, ft) == [UintHead(v, ft, Pow2(ftb)), Raw(v % Pow2(ftb), ftb)]
        && UintHead(v, ft, Pow2(ftb))
           == Sym(v / Pow2(ftb) == 0, v / Pow2(ftb), v / Pow2(ftb) + 1, (ft - 1) / Pow2(ftb) + 1)
        && (ft - 1) / Pow2(ftb) + 1 <= 256
      else UintOps(v, ft) == [Sym(v == 0, v, v + 1, ft)]
  {
    hide Pow2, ILog;
    if ILog(ft - 1) > 8 { UintSplit(v, ft); }
  }

  lemma UintParts(v: nat, ft: nat, p: nat)
    requires v < ft && p > 0 && 128 * p <= ft - 1
    ensures v == v / p * p + v % p && (ft - 1) / p >= 128
    ensures (ft - 1) / p * p < ft <= ((ft - 1) / p + 1) * p
  {
    DivGe(ft - 1, p, 128);
    assert ft - 1 == (ft - 1) / p * p + (ft - 1) % p;
    assert ((ft - 1) / p + 1) * p == (ft - 1) / p * p + p;
  }

  lemma UintSize(ft: nat)
    requires 2 <= ft <= 0x1_0000_0000
    ensures ILog(ft - 1) > 8 <==> ft > 256
    ensures ILog(ft - 1) > 8 ==> 128 * Pow2(ILog(ft - 1) - 8) <= ft - 1
  {
    assert Pow2(7) == 128;
    hide ILog, Pow2;
    ILogBounds(ft - 1);
    Pow2Values();
    var l := ILog(ft - 1);
    if l > 8 {
      Pow2Mono(8, l - 1);
      Pow2Add(7, l - 8);
    } else {
      Pow2Mono(l, 8);
    }
  }

  // ------------------------------------------------------ reading a packet

  function ByteAt(buf: seq<byte>, i: nat): byte {
    if i < |buf| then buf[i] else 0
  }

  /** The first i bytes of the packet, zeros following its end. */
  function Prefix(buf: seq<byte>, i: nat): nat {
    if i == 0 then 0 else Prefix(buf, i - 1) * 256 + ByteAt(buf, i - 1)
  }

  /** The first 31 + 8n bits: the code value at the scale of n rescalings. */
  function Code(buf: seq<byte>, n: nat): nat {
    Prefix(buf, n + 4) / 2
  }

  predicate Contains(buf: seq<byte>, sp: Span) {
    sp.low <= Code(buf, sp.n) < sp.low + sp.rng
  }

  /** The raw bits of the packet after the first `from`, as a number. */
  function RawField(buf: seq<byte>, from: nat, bits: nat): nat {
    Num(buf) / Pow2(from) % Pow2(bits)
  }

  /** Half-integer form of the next code value: i bytes seen, one more to come. */
  lemma PrefixNext(buf: seq<byte>, i: nat)
    requires i > 0
    ensures Prefix(buf, i + 1) / 2 ==
            Prefix(buf, i) / 2 * 256 + (ByteAt(buf, i - 1) * 256 + ByteAt(buf, i)) / 2 % 256
  {
    assert Prefix(buf, i) == Prefix(buf, i - 1) * 256 + ByteAt(buf, i - 1);
    assert Prefix(buf, i + 1) == Prefix(buf, i) * 256 + ByteAt(buf, i);
    hide Prefix, ByteAt;
    HalfBytes(Prefix(buf, i - 1), ByteAt(buf, i - 1), ByteAt(buf, i));
  }

  lemma HalfBytes(p: nat, a: byte, b: byte)
    ensures ((p * 256 + a) * 256 + b) / 2 == (p * 256 + a) / 2 * 256 + (a * 256 + b) / 2 % 256
  {
    var h, l := (p * 256 + a) / 2, a % 2;
    assert p * 256 + a == 2 * h + l;
    DivUnique(((p * 256 + a) * 256 + b), 2, h * 256 + l * 128 + b / 2, b % 2);
    DivUnique((a * 256 + b) / 2, 256, a / 2, l * 128 + b / 2);
  }

  /** The raw bytes from the end of the packet are its base-256 digits. */
  lemma RawByteIs(buf: seq<byte>, k: nat)
    ensures RawField(buf, 8 * k, 8) == Num(buf) / Pow2(8 * k) % 256
  {
    hide Num;
    Pow2Values();
  }

  lemma RawByte(buf: seq<byte>, k: nat)
    ensures RawField(buf, 8 * k, 8) == if k < |buf| then buf[|buf| - 1 - k] else 0
  {
    hide *;
    RawByteIs(buf, k);
    if k < |buf| { ByteFromEnd(buf, k); } else { ByteBefore(buf, k); }
  }

  lemma ByteFromEnd(buf: seq<byte>, k: nat)
    requires k < |buf|
    ensures Num(buf) / Pow2(8 * k) % 256 == buf[|buf| - 1 - k]
  {
    hide *;
    var p, i := Pow2(8 * k), |buf| - 1 - k;
    var head, tail := buf[..i + 1], buf[i + 1..];
    assert buf == head + tail;
    NumConcat(head, tail);
    NumBound(tail);
    DivUnique(Num(buf), p, Num(head), Num(tail));
    assert head == buf[..i] + [buf[i]];
    NumSnoc(buf[..i], buf[i]);
  }

  lemma ByteBefore(buf: seq<byte>, k: nat)
    requires k >= |buf|
    ensures Num(buf) / Pow2(8 * k) % 256 == 0
  {
    hide *;
    NumBound(buf);
    Pow2Mono(8 * |buf|, 8 * k);
    DivUnique(Num(buf), Pow2(8 * k), 0, Num(buf));
  }

  /** Taking the low bits of a field, and what remains. */
  lemma RawFieldTake(buf: seq<byte>, from: nat, all: nat, bits: nat)
    requires bits <= all
    ensures RawField(buf, from, all) % Pow2(bits) == RawField(buf, from, bits)
    ensures RawField(buf, from, all) / Pow2(bits) == RawField(buf, from + bits, all - bits)
  {
    RawFieldSplit(buf, from, bits, all - bits);
    DivUnique(RawField(buf, from, all), Pow2(bits), RawField(buf, from + bits, all - bits), RawField(buf, from, bits));
  }

  /** The packet, read from span sp, selects exactly this step. */
  predicate ReadsOp(buf: seq<byte>, sp: Span, op: Op)
    requires Legal(op)
  {
    match op
    case Sym(_, _, _, _) => Near(sp.rng, op) <= sp.low + sp.rng - 1 - Code(buf, sp.n) < Far(sp.rng, op)
    case Raw(v, bits) => RawField(buf, sp.nraw, bits) == v
  }

  lemma CodeNext(buf: seq<byte>, n: nat)
    ensures Code(buf, n + 1) / 256 == Code(buf, n)
    ensures Code(buf, n + 1) == Code(buf, n) * 256 + ByteAt(buf, n + 3) % 2 * 128 + ByteAt(buf, n + 4) / 2
  {
    var p := Prefix(buf, n + 4);
    assert p == Prefix(buf, n + 3) * 256 + ByteAt(buf, n + 3);
    assert Prefix(buf, n + 5) == p * 256 + ByteAt(buf, n + 4);
  }

  lemma {:induction false} NormContains(buf: seq<byte>, sp: Span)
    requires 0 < sp.rng <= TOP
    ensures Contains(buf, Norm(sp)) <==> Contains(buf, sp)
    decreases TOP - sp.rng
  {
    if sp.rng <= BOT {
      var sp' := Span(sp.low * 256, sp.rng * 256, sp.n + 1, sp.nraw);
      CodeNext(buf, sp.n);
      NormContains(buf, sp');
    }
  }

  /** A symbol is selected exactly when the code value lies in its interval. */
  lemma StepContains(buf: seq<byte>, sp: Span, op: Op)
    requires Proper(sp) && Legal(op) && op.Sym?
    ensures Contains(buf, Step(sp, op)) <==> ReadsOp(buf, sp, op)
    ensures ReadsOp(buf, sp, op) ==> Contains(buf, sp)
  {
    EndsInside(sp.rng, op);
    NormContains(buf, Narrow(sp, op));
  }

  /** The packet, read from sp, selects every step of ops in turn. */
  predicate Carries(buf: seq<byte>, sp: Span, ops: seq<Op>)
    requires Proper(sp) && AllLegal(ops)
  {
    |ops| == 0 ||
    (Carries(buf, sp, ops[..|ops| - 1]) && ReadsOp(buf, Run(sp, ops[..|ops| - 1]), ops[|ops| - 1]))
  }

  lemma CarriesSnoc(buf: seq<byte>, sp: Span, ops: seq<Op>, op: Op)
    requires Proper(sp) && AllLegal(ops) && Legal(op)
    ensures AllLegal(ops + [op])
    ensures Carries(buf, sp, ops + [op]) <==> Carries(buf, sp, ops) && ReadsOp(buf, Run(sp, ops), op)
  {
    assert (ops + [op])[..|ops|] == ops;
  }

  lemma {:induction false} CarriesConcat(buf: seq<byte>, sp: Span, a: seq<Op>, b: seq<Op>)
    requires Proper(sp) && AllLegal(a) && AllLegal(b)
    ensures AllLegal(a + b)
    ensures Carries(buf, sp, a + b) <==> Carries(buf, sp, a) && Carries(buf, Run(sp, a), b)
  {
    if |b| == 0 {
      assert a + b == a;
    } else {
      var b' := b[..|b| - 1];
      CarriesConcat(buf, sp, a, b');
      RunConcat(sp, a, b');
      assert (a + b)[..|a + b| - 1] == a + b';
    }
  }

  /** The raw bits of a run, first written least significant. */
  function RawBits(ops: seq<Op>): nat {
    if |ops| == 0 then 0
    else RawBits(ops[..|ops| - 1]) + if ops[|ops| - 1].Raw? then ops[|ops| - 1].bits else 0
  }

  function RawOf(ops: seq<Op>): nat {
    if |ops| == 0 then 0
    else
      var init, last := ops[..|ops| - 1], ops[|ops| - 1];
      RawOf(init) + if last.Raw? then last.v * Pow2(RawBits(init)) else 0
  }

  lemma RawSnoc(ops: seq<Op>, op: Op)
    ensures RawBits(ops + [op]) == RawBits(ops) + if op.Raw? then op.bits else 0
    ensures RawOf(ops + [op]) == RawOf(ops) + if op.Raw? then op.v * Pow2(RawBits(ops)) else 0
  {
    assert (ops + [op])[..|ops|] == ops;
  }

  lemma {:induction false} RunRaw(sp: Span, ops: seq<Op>)
    requires Proper(sp) && AllLegal(ops)
    ensures Run(sp, ops).nraw == sp.nraw + RawBits(ops)
  {
    if |ops| > 0 {
      var b := ops[..|ops| - 1];
      RunRaw(sp, b);
      if ops[|ops| - 1].Sym? {
        EndsInside(Run(sp, b).rng, ops[|ops| - 1]);
        NormTell(Narrow(Run(sp, b), ops[|ops| - 1]));
      }
    }
  }

  lemma FieldBound(f: nat, v: nat, p: nat, q: nat)
    requires f < p && v < q
    ensures f + v * p < p * q
  {
    MulMono(v + 1, q, p);
    assert (v + 1) * p == v * p + p;
    assert p * q == q * p;
  }

  lemma {:induction false} RawOfBound(ops: seq<Op>)
    requires AllLegal(ops)
    ensures RawOf(ops) < Pow2(RawBits(ops))
  {
    if |ops| > 0 {
      var b, last := ops[..|ops| - 1], ops[|ops| - 1];
      RawOfBound(b);
      if last.Raw? {
        Pow2Add(RawBits(b), last.bits);
        FieldBound(RawOf(b), last.v, Pow2(RawBits(b)), Pow2(last.bits));
      }
    }
  }

  lemma SplitField(x: nat, f: nat, a: nat, b: nat)
    requires f > 0 && a > 0 && b > 0
    ensures f * a > 0 && b * a > 0
    ensures x / f % (b * a) == x / f % a + x / (f * a) % b * a
  {
    DivDiv(x, f, a);
    ModMod(x / f, b, a);
    var y := x / f % (b * a);
    assert y == y / a * a + y % a;
  }

  /** Splitting a raw field into a low and a high part. */
  lemma RawFieldSplit(buf: seq<byte>, from: nat, a: nat, b: nat)
    ensures RawField(buf, from, a + b) == RawField(buf, from, a) + RawField(buf, from + a, b) * Pow2(a)
  {
    Pow2Add(b, a);
    Pow2Add(from, a);
    SplitField(Num(buf), Pow2(from), Pow2(a), Pow2(b));
  }

  lemma FieldsUnique(f: nat, g: nat, f': nat, g': nat, p: nat)
    requires f < p && f' < p
    ensures f + g * p == f' + g' * p <==> f == f' && g == g'
  {
    if f + g * p == f' + g' * p {
      DivUnique(f + g * p, p, g, f);
      DivUnique(f + g * p, p, g', f');
    }
  }

  /** Whole-stream safety: a packet selects every step of a run if and only if
      its code value lies in the final interval and its raw bits are the run's. */
  lemma {:induction false} CarriesIff(buf: seq<byte>, sp: Span, ops: seq<Op>)
    requires Proper(sp) && AllLegal(ops) && Contains(buf, sp)
    ensures Carries(buf, sp, ops) <==>
            Contains(buf, Run(sp, ops)) && RawField(buf, sp.nraw, RawBits(ops)) == RawOf(ops)
  {
    if |ops| == 0 {
      assert Pow2(0) == 1;
    } else {
      var b, last := ops[..|ops| - 1], ops[|ops| - 1];
      CarriesIff(buf, sp, b);
      RunRaw(sp, b);
      match last
      case Sym(_, _, _, _) => StepContains(buf, Run(sp, b), last);
      case Raw(v, bits) =>
        RawFieldSplit(buf, sp.nraw, RawBits(b), bits);
        RawOfBound(b);
        FieldsUnique(RawField(buf, sp.nraw, RawBits(b)), RawField(buf, sp.nraw + RawBits(b), bits),
                     RawOf(b), v, Pow2(RawBits(b)));
    }
  }

  // --------------------------------------------------- what a decoder sees

  /** The decoder's view of the code value: top of the range, minus it, minus one. */
  function Below(buf: seq<byte>, sp: Span): int {
    sp.low + sp.rng - 1 - Code(buf, sp.n)
  }

  /** ec_decode: the cumulative frequency the code value points at. */
  function PointedAt(d: nat, rng: nat, ft: nat): (fm: nat)
    requires 0 < ft <= rng && d < rng
    ensures fm < ft
  {
    DivGe(rng, ft, 1);
    ft - Min(d / (rng / ft) + 1, ft)
  }

  /** The value ec_decode returns lies in [fl, fh) exactly when that symbol is read. */
  lemma PointedInside(d: nat, rng: nat, op: Op)
    requires op.Sym? && Legal(op) && BOT <= rng && d < rng && (op.first <==> op.fl == 0)
    ensures op.fl <= PointedAt(d, rng, op.ft) < op.fh <==> Near(rng, op) <= d < Far(rng, op)
  {
    var r := rng / op.ft;
    DivGe(rng, op.ft, 1);
    DivGe(d, r, op.ft - op.fh);
    DivGe(d, r, op.ft - op.fl);
    Ends(rng, op);
    assert (op.ft - op.fh) * r == r * (op.ft - op.fh);
    assert (op.ft - op.fl) * r == r * (op.ft - op.fl);
  }

  /** Two symbols of one model that do not overlap are never both read. */
  lemma ReadOnce(buf: seq<byte>, sp: Span, a: Op, b: Op)
    requires Proper(sp) && Legal(a) && Legal(b) && a.Sym? && b.Sym? && a.ft == b.ft
    requires a.fh <= b.fl && !b.first
    ensures !(ReadsOp(buf, sp, a) && ReadsOp(buf, sp, b))
  {
    Ends(sp.rng, a);
    Ends(sp.rng, b);
    MulMono(a.ft - b.fl, a.ft - a.fh, sp.rng / a.ft);
    assert (a.ft - b.fl) * (sp.rng / a.ft) == sp.rng / a.ft * (a.ft - b.fl);
    assert (a.ft - a.fh) * (sp.rng / a.ft) == sp.rng / a.ft * (a.ft - a.fh);
  }

  lemma BitOnce(buf: seq<byte>, sp: Span, v: bool, w: bool, logp: nat)
    requires Proper(sp) && 1 <= logp <= 23
    requires ReadsOp(buf, sp, BitOp(v, logp)) && ReadsOp(buf, sp, BitOp(w, logp))
    ensures v == w
  {
    ReadOnce(buf, sp, BitOp(false, logp), BitOp(true, logp));
  }

  lemma IcdfOnce(buf: seq<byte>, sp: Span, s: nat, t: nat, icdf: seq<nat>, ftb: nat)
    requires Proper(sp) && IcdfTable(icdf, ftb) && HasWidth(icdf, s, ftb) && HasWidth(icdf, t, ftb)
    requires ReadsOp(buf, sp, IcdfOp(s, icdf, ftb)) && ReadsOp(buf, sp, IcdfOp(t, icdf, ftb))
    ensures s == t
  {
    if s < t { ReadOnce(buf, sp, IcdfOp(s, icdf, ftb), IcdfOp(t, icdf, ftb)); }
    if t < s { ReadOnce(buf, sp, IcdfOp(t, icdf, ftb), IcdfOp(s, icdf, ftb)); }
  }

  lemma CarriesOne(buf: seq<byte>, sp: Span, op: Op)
    requires Proper(sp) && Legal(op)
    ensures AllLegal([op]) && Run(sp, [op]) == Step(sp, op)
    ensures Carries(buf, sp, [op]) <==> ReadsOp(buf, sp, op)
  {
    RunSnoc(sp, [], op);
    CarriesSnoc(buf, sp, [], op);
    assert [] + [op] == [op];
  }

  lemma CarriesTwo(buf: seq<byte>, sp: Span, a: Op, b: Op)
    requires Proper(sp) && Legal(a) && Legal(b)
    ensures AllLegal([a, b]) && Run(sp, [a, b]) == Step(Step(sp, a), b)
    ensures Carries(buf, sp, [a, b]) <==> ReadsOp(buf, sp, a) && ReadsOp(buf, Step(sp, a), b)
  {
    CarriesOne(buf, sp, a);
    RunSnoc(sp, [a], b);
    CarriesSnoc(buf, sp, [a], b);
    assert [a] + [b] == [a, b];
  }

  /** Of the symbols [v, v+1) of one uniform model, at most one is read. */
  lemma UnitOnce(buf: seq<byte>, sp: Span, v: nat, w: nat, ft: nat)
    requires Proper(sp) && v < ft <= BOT && w < ft
    requires ReadsOp(buf, sp, Sym(v == 0, v, v + 1, ft)) && ReadsOp(buf, sp, Sym(w == 0, w, w + 1, ft))
    ensures v == w
  {
    hide Near, Far, Code;
    if v < w { ReadOnce(buf, sp, Sym(v == 0, v, v + 1, ft), Sym(w == 0, w, w + 1, ft)); }
    if w < v { ReadOnce(buf, sp, Sym(w == 0, w, w + 1, ft), Sym(v == 0, v, v + 1, ft)); }
  }

  lemma WideOnce(buf: seq<byte>, sp: Span, v: nat, w: nat, ft: nat)
    requires Proper(sp) && v < ft <= 0x1_0000_0000 && w < ft && ILog(ft - 1) > 8
    requires Carries(buf, sp, UintOps(v, ft)) && Carries(buf, sp, UintOps(w, ft))
    ensures v == w
  {
    hide Carries, Run, Code, ReadsOp, Pow2, ILog, Step;
    UintSplit(v, ft);
    UintSplit(w, ft);
    var k := ILog(ft - 1) - 8;
    var p := Pow2(k);
    CarriesTwo(buf, sp, UintHead(v, ft, p), Raw(v % p, k));
    CarriesTwo(buf, sp, UintHead(w, ft, p), Raw(w % p, k));
    UnitOnce(buf, sp, v / p, w / p, (ft - 1) / p + 1);
    SameRaw(buf, Step(sp, UintHead(v, ft, p)), v % p, w % p, k);
    SameParts(v, w, p);
  }

  /** The total of the head symbol. */
  function WideTotal(ft: nat): (t: nat)
    requires 2 <= ft <= 0x1_0000_0000 && ILog(ft - 1) > 8
  {
    hide Pow2, ILog;
    HeadTotal(ft - 1, Pow2(ILog(ft - 1) - 8))
  }

  function HeadTotal(last: nat, p: nat): (t: nat)
    requires p > 0
  {
    last / p + 1
  }

  lemma WideTop(ft: nat)
    requires 2 <= ft <= 0x1_0000_0000 && ILog(ft - 1) > 8
    ensures var k := ILog(ft - 1) - 8; 1 <= k <= 24 && Pow2(k) > 0 && (ft - 1) / Pow2(k) + 1 <= 256
    ensures WideTotal(ft) <= 256
  {
    UintSplit(ft - 1, ft);
  }

  /** A head symbol s and then low bits b were read under the wide model of ft. */
  predicate ReadWide(buf: seq<byte>, sp: Span, s: nat, b: nat, ft: nat)
    requires Proper(sp) && 2 <= ft <= 0x1_0000_0000 && ILog(ft - 1) > 8
  {
    hide ReadsOp, Pow2, ILog, Step, WideTotal;
    var k := ILog(ft - 1) - 8;
    WideTop(ft);
    var ft' := WideTotal(ft);
    s < ft' && b < Pow2(k) && ReadsOp(buf, sp, Sym(s == 0, s, s + 1, ft'))
    && ReadsOp(buf, Step(sp, Sym(s == 0, s, s + 1, ft')), Raw(b, k))
  }

  /** `next` is the span after that symbol and those bits. */
  predicate AfterWide(sp: Span, s: nat, b: nat, ft: nat, next: Span)
    requires Proper(sp) && 2 <= ft <= 0x1_0000_0000 && ILog(ft - 1) > 8
  {
    hide Pow2, ILog, Step, WideTotal;
    WideTop(ft);
    var k := ILog(ft - 1) - 8;
    var head := Sym(s == 0, s, s + 1, WideTotal(ft));
    Legal(head) && Legal(Raw(b, k)) && next == Step(Step(sp, head), Raw(b, k))
  }

  /** The value they name is carried ... */
  lemma WideSome(buf: seq<byte>, sp: Span, s: nat, b: nat, v: nat, ft: nat)
    requires Proper(sp) && v < ft <= 0x1_0000_0000 && 2 <= ft && ILog(ft - 1) > 8
    requires ReadWide(buf, sp, s, b, ft) && v == s * Pow2(ILog(ft - 1) - 8) + b
    ensures var k := ILog(ft - 1) - 8; var head := Sym(s == 0, s, s + 1, (ft - 1) / Pow2(k) + 1);
      && Carries(buf, sp, UintOps(v, ft))
      && Legal(head) && Legal(Raw(b, k)) && Run(sp, UintOps(v, ft)) == Step(Step(sp, head), Raw(b, k))
  {
    UintSplit(v, ft);
    var k := ILog(ft - 1) - 8;
    var p := Pow2(k);
    DivUnique(v, p, s, b);
    hide Carries, Run, Code, ReadsOp, Pow2, ILog;
    CarriesTwo(buf, sp, UintHead(v, ft, p), Raw(v % p, k));
  }

  /** ... and no other is. */
  lemma WideNone(buf: seq<byte>, sp: Span, s: nat, b: nat, v: nat, ft: nat)
    requires Proper(sp) && v < ft <= 0x1_0000_0000 && 2 <= ft && ILog(ft - 1) > 8
    requires ReadWide(buf, sp, s, b, ft) && Carries(buf, sp, UintOps(v, ft))
    ensures v == s * Pow2(ILog(ft - 1) - 8) + b
  {
    UintSplit(v, ft);
    var k := ILog(ft - 1) - 8;
    var p := Pow2(k);
    hide Carries, Run, Code, ReadsOp, Pow2, ILog;
    CarriesTwo(buf, sp, UintHead(v, ft, p), Raw(v % p, k));
    UnitOnce(buf, sp, v / p, s, (ft - 1) / p + 1);
    SameRaw(buf, Step(sp, UintHead(v, ft, p)), v % p, b, k);
    SplitBack(v, p);
  }

  lemma SplitBack(v: nat, p: nat)
    requires p > 0
    ensures v == v / p * p + v % p
  {
  }

  /** A packet carries at most one value of a uniform integer. */
  lemma UintOnce(buf: seq<byte>, sp: Span, v: nat, w: nat, ft: nat)
    requires Proper(sp) && 2 <= ft <= 0x1_0000_0000 && v < ft && w < ft
    requires Carries(buf, sp, UintOps(v, ft)) && Carries(buf, sp, UintOps(w, ft))
    ensures v == w
  {
    if ILog(ft - 1) > 8 {
      WideOnce(buf, sp, v, w, ft);
    } else {
      SmallUint(ft);
      hide Carries, Run, Code, ReadsOp, Pow2, ILog;
      CarriesOne(buf, sp, Sym(v == 0, v, v + 1, ft));
      CarriesOne(buf, sp, Sym(w == 0, w, w + 1, ft));
      UnitOnce(buf, sp, v, w, ft);
    }
  }

  lemma SameRaw(buf: seq<byte>, sp: Span, a: nat, b: nat, k: nat)
    requires Legal(Raw(a, k)) && Legal(Raw(b, k))
    requires ReadsOp(buf, sp, Raw(a, k)) && ReadsOp(buf, sp, Raw(b, k))
    ensures a == b
  {
  }

  lemma SameParts(v: nat, w: nat, p: nat)
    requires p > 0 && v / p == w / p && v % p == w % p
    ensures v == w
  {
    assert v == v / p * p + v % p && w == w / p * p + w % p;
  }

  /** Rescaling does not depend on where the scale is counted from. */
  lemma {:induction false} NormShift(low: nat, rng: nat, n: nat, nraw: nat, k: nat, nraw': nat)
    requires 0 < rng <= TOP
    ensures var a, b := Norm(Span(low, rng, n, nraw)), Norm(Span(low, rng, n + k, nraw'));
            b == Span(a.low, a.rng, a.n + k, nraw') && a.nraw == nraw
    decreases TOP - rng
  {
    if rng <= BOT {
      NormShift(low * 256, rng * 256, n + 1, nraw, k, nraw');
    }
  }
}
