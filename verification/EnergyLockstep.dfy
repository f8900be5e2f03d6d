/** The coarse energy on both sides of a packet. */
module EnergyLockstep {
  import opened Arith
  import opened Interval
  import opened Flush
  import opened EntCode
  import opened Duplex
  import opened Energy
  import opened EnergyPass
  import opened EnergyEncoder

  /** No energy the pass stores is above the bound only the decoder applies. */
  ghost predicate Bounded(p: Input)
    requires ValidInput(p)
  {
    forall k :: 0 <= k < Total(p) ==>
      Place(p.f, p.nb, k) < |p.was| && Energies(p)[Place(p.f, p.nb, k)] <= 28 * UNIT
  }

  lemma BoundedIs(p: Input)
    requires ValidInput(p)
    ensures forall k :: 0 <= k < Total(p) ==> Place(p.f, p.nb, k) < |p.was|
    ensures Bounded(p) <==> forall k :: 0 <= k < Total(p) ==>
              EncLevel(p.f, Coded(p, Total(p)).es, k, p.was[Place(p.f, p.nb, k)]) <= 28 * UNIT
  {
    var n := Total(p);
    AllInside(p, n);
    hide Place, Predicted, Prev, Shift, Coded, Filled, Inside;
    forall k | 0 <= k < n
      ensures Place(p.f, p.nb, k) < |p.was|
      ensures Energies(p)[Place(p.f, p.nb, k)]
              == EncLevel(p.f, Coded(p, n).es, k, p.was[Place(p.f, p.nb, k)])
    {
      FilledAt(p.f, p.nb, Coded(p, n).es, n, p.was, false, k);
    }
  }

  /** Energy lockstep.  The decoder reads the values the encoder sent; and if the encoder
      lost none, both sides' energies agree exactly when the encoder's stay within the
      bound that only the decoder applies. */
  lemma Lockstep(buf: seq<byte>, p: Input, rs: seq<int>)
    requires ValidInput(p) && |rs| == Total(p) && AllFit(p.f, rs, |rs|)
    requires Carries(buf, p.f.sp, PassOps(p)) && Carries(buf, p.f.sp, EnergyOps(p.f, rs, |rs|))
    ensures rs == Coded(p, Total(p)).qs && Inside(p.f, p.nb, |rs|, |p.was|)
    ensures !Loses(p, 0) && !Loses(p, 1) ==>
              (Energies(p) == Filled(p.f, p.nb, rs, |rs|, p.was, true) <==> Bounded(p))
  {
    var n := Total(p);
    AllInside(p, n);
    CodedFits(p, n);
    hide Place, EncLevel, Carries, EnergyOps, AllFit, Loses, Tell, Coded, Filled, Inside, Bounded, Total;
    EnergyOnce(buf, p.f, Coded(p, n).qs, rs, n);
    assert rs[..n] == rs && Coded(p, n).qs[..n] == Coded(p, n).qs;
    SentExactly(p);
    BoundedIs(p);
    if Coded(p, n).es == rs { LevelsAgree(p.f, p.nb, rs, n, p.was); }
  }

  // ------------------------------------------------------ a value that is lost

  /** One band two steps below its prediction, one bit left. */
  ghost predicate OneBit(p: Input) {
    && Proper(p.f.sp) && Tell(p.f.sp) == 7 && p.f == Frame(p.f.sp, 8, 0, 1, 0, false)
    && p == Input(p.f, 1, 1, [-2 * UNIT], [0], 16 * UNIT, false)
  }

  lemma OneBitIs(p: Input)
    requires Proper(p.f.sp) && Tell(p.f.sp) == 7 && p.f == Frame(p.f.sp, 8, 0, 1, 0, false)
    requires p == Input(p.f, 1, 1, [-2 * UNIT], [0], 16 * UNIT, false)
    ensures OneBit(p)
  {
    hide Tell;
  }

  lemma OneBitWishes(p: Input)
    requires OneBit(p)
    ensures ValidInput(p) && Total(p) == 1 && SpanOf(p, 0) == p.f.sp && Coded(p, 0) == Values([], [])
    ensures Wished(p, [], p.f.sp, 0) == -2
  {
    hide Tell, HeldUp;
    assert Ahead(p, [], 0) == 0;
    HeldUpTwo();
    assert Rounded(p, [], 0) == -2;
  }

  lemma HeldUpTwo()
    ensures HeldUp(-2 * UNIT, 0, 0, 16 * UNIT) == -2
  {
  }

  /** The encoder goes on with -2 and sends -1. */
  lemma OneBitLoses(p: Input)
    requires OneBit(p)
    ensures ValidInput(p) && Total(p) == 1 && Loses(p, 0) && Coded(p, 1) == Values([-2], [-1])
    ensures Energies(p) == [-2 * UNIT]
    ensures Inside(p.f, 1, 1, 1) && Filled(p.f, 1, [-1], 1, [0], true) == [-UNIT]
  {
    OneBitWishes(p);
    hide Tell, Wished, SpanOf, HeldUp, Coded;
    CodedNext(p, 0);
    assert p.f.budget - Tell(p.f.sp) == 1;
    assert Place(p.f, 1, 0) == 0 && Prev(p.f, [-2], 0) == 0 && Prev(p.f, [-1], 0) == 0;
    ShiftExact(-2);
    ShiftExact(-1);
    assert SpanAt(p.f, [], 0) == p.f.sp;
  }

  lemma SixBits()
    ensures 0 < Pow2(6) && AllLegal([Raw(0, 6)]) && Proper(START)
    ensures Proper(Run(START, [Raw(0, 6)])) && Tell(Run(START, [Raw(0, 6)])) == 7
  {
    Pow2Values();
    ILogUnique(TOP, 32);
    RunSnoc(START, [], Raw(0, 6));
    assert [] + [Raw(0, 6)] == [Raw(0, 6)];
  }

  /** The encoder's half: six raw bits, then the band. */
  method WriteOneBit(b: array<byte>) returns (error: int, energy: int, ghost p: Input)
    requires b.Length == 1 && Proper(START)
    modifies b
    ensures error == 0 && energy == -2 * UNIT
    ensures OneBit(p) && p.f.sp == Run(START, [Raw(0, 6)]) && ValidInput(p)
    ensures Carries(b[..1], START, [Raw(0, 6)] + PassOps(p))
  {
    hide *;
    SixBits();
    var enc := new EcCtx.EncInit(b, 1);
    enc.EncBits(0, 6);
    assert [] + [Raw(0, 6)] == [Raw(0, 6)];
    ghost var from := HereNow(enc);
    var eBands, oldEBands, errors := new int[1](_ => -2 * UNIT), new int[1](_ => 0), new int[1];
    p := Input(Frame(from.sp, 8, 0, 1, 0, false), 1, 1, eBands[..], oldEBands[..], 16 * UNIT, false);
    assert eBands[..] == [-2 * UNIT] && oldEBands[..] == [0];
    NoIntra(from.sp);
    OneBitIs(p);
    var badness := QuantCoarseEnergyImpl(1, 0, 1, eBands, oldEBands, 8, errors, enc, 1, 0, false, 16 * UNIT, false,
                                         from, [], p);
    OneBitLoses(p);
    energy := oldEBands[..][0];
    Finished(enc, from, p);
    enc.Done();
    error := enc.error;
  }

  ghost method HereNow(enc: EcCtx) returns (from: Origin)
    requires enc.ValidEnc()
    ensures At(enc, true, from, []) && from.ops == enc.ops && from.sp == enc.Where() == Run(START, enc.ops)
  {
    from := Here(enc, true);
  }

  lemma NoIntra(sp: Span)
    requires Proper(sp) && Tell(sp) == 7
    ensures IntraOps(sp, 8, false) == [] && [] + IntraOps(sp, 8, false) == [] && Run(sp, []) == sp
  {
  }

  lemma Finished(enc: EcCtx, from: Origin, p: Input)
    requires OneBit(p) && ValidInput(p) && from.sp == p.f.sp && enc.storage == 1
    requires At(enc, true, from, [] + IntraOps(from.sp, 8, false) + PassOps(p))
    ensures enc.ValidEnc() && enc.ops == from.ops + PassOps(p) && enc.error == 0 && Fits(enc.Where(), 1)
  {
    NoIntra(from.sp);
    assert [] + PassOps(p) == PassOps(p);
    CodedFits(p, Total(p));
    WithinBudget(p.f, Coded(p, Total(p)).qs, Total(p));
    TellAt(enc, true, from, PassOps(p));
    hide Run, Tell, EcCtx.ValidEnc, Coded, Total, EnergyOps;
    enc.EncState();
    TellFits(enc.Where(), 1);
  }

  /** The decoder's half. */
  method ReadOneBit(b: array<byte>, ghost p: Input) returns (energy: int)
    requires b.Length == 1 && OneBit(p) && ValidInput(p) && Proper(START) && AllLegal([Raw(0, 6)])
    requires p.f.sp == Run(START, [Raw(0, 6)]) && Carries(b[..1], START, [Raw(0, 6)] + PassOps(p))
    modifies b
    ensures energy == -UNIT
  {
    hide *;
    ghost var data := b[..1];
    SixBitsThen(data, PassOps(p), p.f.sp);
    OneBitFrame(p);
    var dec := new EcCtx.DecInit(b, 1);
    var raw := dec.DecBits(6);
    assert raw == 0;
    ghost var from := ThereNow(dec);
    NoIntra(from.sp);
    var oldEBands := new int[1](_ => 0);
    ghost var was := oldEBands[..];
    assert was == [0];
    ghost var rs := UnquantCoarseEnergy(1, 0, 1, oldEBands, false, dec, 1, 0, from, []);
    OneBitRead(dec, from, p, rs);
    energy := oldEBands[..][0];
  }

  ghost method ThereNow(dec: EcCtx) returns (from: Origin)
    requires dec.ValidDec()
    ensures At(dec, false, from, []) && from.sp == dec.pos && from.data == dec.data
  {
    from := Here(dec, false);
  }

  lemma SixBitsThen(data: seq<byte>, rest: seq<Op>, sp: Span)
    requires Proper(START) && AllLegal([Raw(0, 6)]) && sp == Run(START, [Raw(0, 6)]) && AllLegal(rest)
    requires Carries(data, START, [Raw(0, 6)] + rest)
    ensures RawField(data, START.nraw, 6) == 0 && Legal(Raw(0, 6)) && Proper(sp)
    ensures Step(START, Raw(0, 6)) == sp && Carries(data, sp, rest)
  {
    hide Run, Carries, Tell, RawField, Pow2;
    CarriesConcat(data, START, [Raw(0, 6)], rest);
    CarriesOne(data, START, Raw(0, 6));
  }

  lemma OneBitFrame(p: Input)
    requires OneBit(p)
    ensures p.f == Frame(p.f.sp, 8, 0, 1, 0, false) && ValidFrame(p.f) && Count(0, 1, 1) == 1 && Tell(p.f.sp) == 7
  {
    hide Tell;
  }

  lemma OneBitRead(dec: EcCtx, from: Origin, p: Input, rs: seq<int>)
    requires OneBit(p) && ValidInput(p) && from.sp == p.f.sp && |rs| == 1 && ValidFrame(p.f)
    requires Reached(dec, false, from, [], p.f, rs) && Carries(from.data, p.f.sp, PassOps(p))
    ensures rs == [-1] && Inside(p.f, 1, 1, 1) && Filled(p.f, 1, rs, 1, [0], true) == [-UNIT]
  {
    OneBitLoses(p);
    NoIntra(p.f.sp);
    hide Run, Carries, Tell, PassOps, EnergyOps, AllFit, Loses, Coded, Total;
    assert [] + EnergyOps(p.f, rs, 1) == EnergyOps(p.f, rs, 1);
    Lockstep(from.data, p, rs);
  }

  /** A value lost.  With seven bits of eight used, a first band that is two steps below
      its prediction is coded without an error; the encoder's energy then is two steps
      down, and the decoder's one. */
  method OneStepApart() returns (error: int, encoder: int, decoder: int)
    ensures error == 0 && encoder == -2 * UNIT && decoder == -UNIT
  {
    hide *;
    SixBits();
    var b := new byte[1];
    ghost var p;
    error, encoder, p := WriteOneBit(b);
    decoder := ReadOneBit(b, p);
  }
}
