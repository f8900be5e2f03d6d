/** The one state in which patching the first flags goes wrong without an error, reached
    and its packet read back. */
module PatchFailure {
  import opened Arith
  import opened Interval
  import opened Flush
  import opened Patch
  import opened Registers
  import opened EntCode

  function Ones(n: nat): (ops: seq<Op>)
    ensures |ops| == n && AllLegal(ops)
  {
    if n == 0 then [] else Ones(n - 1) + [BitOp(true, 1)]
  }

  /** The registers after i flags of value one, before any digit is out. */
  function OnesRegister(i: nat): Register
    requires i <= 7
  {
    Pow2Mono(31 - i, 31);
    Pow2Values();
    Register(-1, 0, TOP - Pow2(31 - i), Pow2(31 - i))
  }

  lemma OneMore(i: nat)
    requires i < 7
    ensures BOT < Pow2(31 - i) <= TOP
    ensures FlagRegister(OnesRegister(i), true, 1) == OnesRegister(i + 1)
    ensures Shifted(OnesRegister(i + 1)) == OnesRegister(i + 1)
  {
    Pow2Values();
    Pow2Mono(24, 31 - i);
    Pow2Mono(24, 31 - (i + 1));
    Pow2Mono(31 - i, 31);
    assert Pow2(31 - i) == 2 * Pow2(30 - i) && Pow2(1) == 2;
  }

  /** The eighth moves a digit 0xFF out of val, which waits for a carry; no byte is
      buffered in front of it. */
  lemma EighthOne()
    ensures Pow2(24) == 0x100_0000
    ensures Shifted(FlagRegister(OnesRegister(7), true, 1)) == Register(-1, 1, 0, TOP)
  {
    Pow2Values();
    assert Pow2(1) == 2;
    hide Pow2;
    var r := FlagRegister(OnesRegister(7), true, 1);
    assert r == Register(-1, 0, TOP - 0x80_0000, 0x80_0000);
    assert ShiftedOnce(r) == Register(-1, 1, 0, TOP);
    assert Shifted(ShiftedOnce(r)) == ShiftedOnce(r);
  }

  lemma NinthOne()
    ensures Shifted(FlagRegister(Register(-1, 1, 0, TOP), true, 1)) == Register(-1, 1, 0x4000_0000, 0x4000_0000)
  {
    assert Pow2(1) == 2;
  }

  lemma FreshRegister(e: EcCtx)
    requires e.ValidEnc() && e.ops == [] && e.storage >= 1
    ensures e.error == 0 && e.Registers() == OnesRegister(0)
  {
    hide EcCtx.ValidEnc, EcCtx.Written, Pow2, Num, ILog;
    e.Started();
    Pow2Values();
    assert e.rem < 0 && e.ext == 0 && e.val == 0;
  }

  lemma FlagOnes(v: nat)
    requires v <= 1
    ensures Flags(v, 1) == [BitOp(v == 1, 1)] && FlagHead(Flags(v, 1), v, 1)
    ensures Ones(9) == Flags(1, 1) + Ones(8)
  {
    assert Pow2(1) == 2;
    FlagsHead(v, 1);
    assert Flags(v, 1) == Flags(v / 2, 0) + [BitOp(v % 2 == 1, 1)];
    OnesSplit(8);
    hide *;
  }

  lemma {:induction false} OnesSplit(n: nat)
    ensures Ones(n + 1) == [BitOp(true, 1)] + Ones(n)
  {
    if n > 0 { OnesSplit(n - 1); }
  }

  lemma {:induction false} OnesTell(n: nat)
    ensures Proper(START) && Tell(Run(START, Ones(n))) <= 1 + n
  {
    hide Tell, Run, BitOp, Ones;
    StartProper();
    OnesEnd(n);
    if n > 0 {
      OnesTell(n - 1);
      RunSnoc(START, Ones(n - 1), BitOp(true, 1));
      PowOne();
      StepTell(Run(START, Ones(n - 1)), BitOp(true, 1), 1);
    } else {
      StartTell();
    }
  }

  lemma OnesEnd(n: nat)
    ensures Ones(n) == if n == 0 then [] else Ones(n - 1) + [BitOp(true, 1)]
  {
  }

  lemma PowOne()
    ensures Pow2(1) == 2
  {
  }

  lemma StartTell()
    ensures Proper(START) && Tell(Run(START, [])) == 1
  {
    StartProper();
    Pow2Values();
    ILogUnique(TOP, 32);
  }

  /** One more flag of value one. */
  method CodeOne(e: EcCtx, ghost n: nat)
    requires e.ValidEnc() && e.ops == Ones(n)
    modifies e, e.buf
    ensures e.ValidEnc() && e.ops == Ones(n + 1) && e.storage == old(e.storage)
    ensures BOT <= old(e.rng) <= TOP && e.Registers() == Shifted(FlagRegister(old(e.Registers()), true, 1))
  {
    hide EcCtx.ValidEnc, Shifted, FlagRegister;
    e.EncState();
    e.EncBitLogp(true, 1);
  }

  /** Nine flags of value one leave the first byte pending as 0xFF. */
  method NineOnes(e: EcCtx)
    requires e.ValidEnc() && e.ops == [] && e.storage >= 2
    modifies e, e.buf
    ensures e.ValidEnc() && e.ops == Ones(9) && e.storage == old(e.storage)
    ensures e.Registers() == Register(-1, 1, 0x4000_0000, 0x4000_0000)
    ensures Proper(START) && Run(START, Ones(8)).rng == TOP
  {
    hide EcCtx.ValidEnc, Shifted, OnesRegister, FlagRegister, Ones, Pow2, Tell, Run;
    FreshRegister(e);
    OnesEnd(0);
    for i := 0 to 7
      invariant e.ValidEnc() && e.ops == Ones(i) && e.Registers() == OnesRegister(i) && e.storage == old(e.storage)
    {
      OneMore(i);
      CodeOne(e, i);
    }
    EighthOne();
    CodeOne(e, 7);
    e.EncState();
    NinthOne();
    CodeOne(e, 8);
  }

  /** Patching the first of the nine flags to zero then reports no error, and changes the
      ninth instead. */
  method SilentPatch(e: EcCtx)
    requires e.ValidEnc() && e.ops == Ones(9) && e.storage >= 2
    requires e.Registers() == Register(-1, 1, 0x4000_0000, 0x4000_0000)
    requires Proper(START) && Run(START, Ones(8)).rng == TOP
    modifies e, e.buf
    ensures e.ValidEnc() && e.error == 0 && e.ops == NinthFlipped() && e.storage == old(e.storage)
  {
    hide EcCtx.ValidEnc, Ones, Pow2, Flags, FlagHead, Tell, Run, Or, LowBits;
    OnesTell(9);
    e.EncState();
    FlagOnes(0);
    FlagOnes(1);
    HalfTop();
    PatchedVal();
    label before:
    e.PatchInitialBits(0, 1, 1, Flags(1, 1), Flags(0, 1), Ones(8));
    e.ops := NinthFlipped();
    ShiftedBack@before(e);
  }

  /** Only val has changed, by just what separates the two histories. */
  twostate lemma ShiftedBack(e: EcCtx)
    requires old(e.ValidEnc()) && old(e.ops) == Ones(9) && e.ops == NinthFlipped() && e.Stored()
    requires old(e.error) == 0 && e.error == 0 && e.front == old(e.front) && e.tail == old(e.tail)
    requires e.rem == old(e.rem) == -1 && e.ext == old(e.ext) == 1 && e.rng == old(e.rng) == 0x4000_0000
    requires old(e.val) == 0x4000_0000 && e.val == 0 && e.nbitsTotal == old(e.nbitsTotal)
    requires e.nendBits == old(e.nendBits) && e.endWindow == old(e.endWindow) && e.storage == old(e.storage)
    requires Proper(START) && Run(START, Ones(8)).rng == TOP
    ensures e.ValidEnc()
  {
    hide Num, EcCtx.Stored, Digits, RawBits, RawOf, RawTotal, Run, Emitted, Pow2, Ones;
    NinthSpan();
    NinthRaw();
    assert e.Written() == old(e.Written());
  }

  /** Eight flags of value one and one of value zero. */
  function NinthFlipped(): (ops: seq<Op>)
    ensures |ops| == 9 && AllLegal(ops)
  {
    Ones(8) + [BitOp(false, 1)]
  }

  lemma NinthSpan()
    requires Proper(START) && Run(START, Ones(8)).rng == TOP
    ensures var a, b := Run(START, Ones(9)), Run(START, NinthFlipped());
      a.low == b.low + 0x4000_0000 && a == b.(low := a.low)
    ensures Emitted(Ones(9)) == Emitted(NinthFlipped())
  {
    hide Run, Emitted, Pow2, Ones;
    OnesEnd(9);
    PowOne();
    RunSnoc(START, Ones(8), BitOp(true, 1));
    RunSnoc(START, Ones(8), BitOp(false, 1));
    EmittedSnoc(Ones(8), BitOp(true, 1));
    EmittedSnoc(Ones(8), BitOp(false, 1));
  }

  lemma NinthRaw()
    ensures RawBits(Ones(9)) == RawBits(NinthFlipped()) && RawOf(Ones(9)) == RawOf(NinthFlipped())
  {
    hide RawBits, RawOf, Ones;
    OnesEnd(9);
    RawSnoc(Ones(8), BitOp(true, 1));
    RawSnoc(Ones(8), BitOp(false, 1));
  }

  lemma PatchedVal()
    ensures Or(0 * Pow2(31 - 1), LowBits(0x4000_0000, 31 - 1)) == 0
  {
    Pow2Values();
    assert Pow2(31) == 2 * Pow2(30);
  }

  lemma {:induction false} OnesCarried(buf: seq<byte>, i: nat, n: nat)
    requires i < n && Proper(START) && Carries(buf, START, Ones(n))
    ensures ReadsOp(buf, Run(START, Ones(i)), BitOp(true, 1))
    ensures Run(START, Ones(i + 1)) == Step(Run(START, Ones(i)), BitOp(true, 1))
    decreases n
  {
    hide Carries, Run, ReadsOp, Step;
    OnesEnd(n);
    CarriesSnoc(buf, START, Ones(n - 1), BitOp(true, 1));
    if i < n - 1 { OnesCarried(buf, i, n - 1); } else { RunSnoc(START, Ones(i), BitOp(true, 1)); }
  }

  /** Reads the flag held by the packet. */
  method ReadFlag(d: EcCtx, ghost v: bool) returns (b: bool)
    requires d.ValidDec() && Proper(d.pos) && ReadsOp(d.data, d.pos, BitOp(v, 1))
    modifies d
    ensures d.ValidDec() && d.data == old(d.data) && b == v && d.pos == Step(old(d.pos), BitOp(v, 1))
  {
    hide EcCtx.ValidDec, ReadsOp, Step;
    b := d.DecBitLogp(1);
    BitOnce(d.data, old(d.pos), b, v, 1);
  }

  lemma NinthCarried(buf: seq<byte>)
    requires Proper(START) && Carries(buf, START, NinthFlipped())
    ensures forall i :: 0 <= i < 8 ==> ReadsOp(buf, Run(START, Ones(i)), BitOp(true, 1))
    ensures forall i :: 0 <= i < 8 ==> Run(START, Ones(i + 1)) == Step(Run(START, Ones(i)), BitOp(true, 1))
    ensures ReadsOp(buf, Run(START, Ones(8)), BitOp(false, 1)) && Run(START, Ones(0)) == START
  {
    OnesEnd(0);
    RunNone(START);
    hide Carries, Run, ReadsOp, Step, Ones;
    CarriesSnoc(buf, START, Ones(8), BitOp(false, 1));
    forall i | 0 <= i < 8
      ensures ReadsOp(buf, Run(START, Ones(i)), BitOp(true, 1))
      ensures Run(START, Ones(i + 1)) == Step(Run(START, Ones(i)), BitOp(true, 1))
    {
      OnesCarried(buf, i, 8);
    }
  }

  /** Reads back the nine flags. */
  method ReadNine(d: EcCtx) returns (flags: seq<bool>)
    requires d.ValidDec() && d.pos == START && Proper(START) && Carries(d.data, START, NinthFlipped())
    modifies d
    ensures flags == [true, true, true, true, true, true, true, true, false]
  {
    hide *;
    ghost var data := d.data;
    NinthCarried(data);
    flags := [];
    for i := 0 to 8
      invariant d.ValidDec() && d.data == data && d.pos == Run(START, Ones(i))
      invariant |flags| == i && forall k :: 0 <= k < i ==> flags[k]
    {
      var b := ReadFlag(d, true);
      flags := flags + [b];
    }
    var b := ReadFlag(d, false);
    flags := flags + [b];
  }

  /** Nine flags of value one are coded and the first is patched to zero: there is no
      error, and a decoder finds the first flag still one and the ninth zero. */
  method SilentFailure(b: array<byte>) returns (error: int, flags: seq<bool>)
    requires b.Length >= 2
    modifies b
    ensures error == 0 && flags == [true, true, true, true, true, true, true, true, false]
  {
    hide EcCtx.ValidEnc, EcCtx.ValidDec, Run, Carries, Ones, Num;
    var e := new EcCtx.EncInit(b, b.Length);
    NineOnes(e);
    SilentPatch(e);
    FlippedFits(b.Length);
    e.Done();
    error := e.error;
    var d := new EcCtx.DecInit(b, b.Length);
    flags := ReadNine(d);
  }

  lemma FlippedFits(size: nat)
    requires size >= 2
    ensures Proper(START) && Fits(Run(START, NinthFlipped()), size)
  {
    hide Run, Tell, Ones, Fits;
    OnesTell(8);
    RunSnoc(START, Ones(8), BitOp(false, 1));
    PowOne();
    StepTell(Run(START, Ones(8)), BitOp(false, 1), 1);
    TellFits(Run(START, NinthFlipped()), size);
  }

  lemma HalfTop()
    ensures TOP / Pow2(1) == 0x4000_0000
  {
    assert Pow2(1) == 2;
  }
}
