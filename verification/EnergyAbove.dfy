/** A band above the bound that only the decoder applies: both sides are run, no value
    is lost, and their energies differ all the same. */
module EnergyAbove {
  import opened Arith
  import opened Interval
  import opened Flush
  import opened EntCode
  import opened Duplex
  import opened Laplace
  import opened Energy
  import opened EnergyPass
  import opened EnergyEncoder
  import opened EnergyLockstep

  /** The step the encoder stores: four above the prediction from 28. */
  const ABOVE: int := 29 * UNIT + 5 * UNIT / 32

  /** One band at 29 steps that was at 28, in a packet of three bytes. */
  ghost predicate HighBand(p: Input) {
    && Proper(p.f.sp) && Tell(p.f.sp) <= 4 && p.f == Frame(p.f.sp, 24, 0, 1, 0, false)
    && p == Input(p.f, 1, 1, [29 * UNIT], [28 * UNIT], 16 * UNIT, false)
  }

  lemma HighPredicted(p: Input)
    requires HighBand(p)
    ensures ValidInput(p) && Total(p) == 1 && Predicted(p.f, 28 * UNIT) == 25 * UNIT + 5 * UNIT / 32
    ensures HeldUp(29 * UNIT, 28 * UNIT, 25 * UNIT + 5 * UNIT / 32, 16 * UNIT) == 4
  {
    hide Tell;
  }

  lemma HighWished(p: Input)
    requires HighBand(p)
    ensures ValidInput(p) && Total(p) == 1 && SpanOf(p, 0) == p.f.sp && Coded(p, 0) == Values([], [])
    ensures Wished(p, [], p.f.sp, 0) == 4
  {
    HighPredicted(p);
    hide Tell, HeldUp, Predicted;
    assert Ahead(p, [], 0) == 25 * UNIT + 5 * UNIT / 32;
    assert Rounded(p, [], 0) == 4;
  }

  /** Four can be coded in any model, and is. */
  lemma HighChosen(p: Input)
    requires HighBand(p)
    ensures ValidFrame(p.f) && Chosen(p.f, p.f.sp, 0, 4) == 4 && Sent(p.f, p.f.sp, 4) == 4
  {
    hide Tell, Peak, DecayOf, Codable, Nearest;
    PeakOf(p.f, 0);
    var fs0, d := Peak(p.f, 0), DecayOf(p.f, 0);
    SixteenCodable(fs0, d, 4);
    ClampedSame(fs0, d, 4, Nearest(fs0, d, 4));
  }

  lemma HighCoded(p: Input)
    requires HighBand(p)
    ensures ValidInput(p) && Total(p) == 1 && Coded(p, 1) == Values([4], [4])
  {
    HighWished(p);
    HighChosen(p);
    hide Tell, Wished, SpanOf, Coded, Chosen, Sent, Predicted;
    CodedNext(p, 0);
    assert SpanAt(p.f, [], 0) == p.f.sp;
  }

  /** The encoder's energy is above the bound, the decoder's at it; nothing was lost. */
  lemma HighLevels(p: Input)
    requires HighBand(p)
    ensures ValidInput(p) && Total(p) == 1 && Energies(p) == [ABOVE] && !Loses(p, 0) && !Loses(p, 1) && !Bounded(p)
    ensures Inside(p.f, 1, 1, 1) && Filled(p.f, 1, [4], 1, [28 * UNIT], true) == [28 * UNIT]
  {
    HighCoded(p);
    HighPredicted(p);
    SentExactly(p);
    hide Tell, Coded, Predicted, Loses;
    assert Place(p.f, 1, 0) == 0 && Prev(p.f, [4], 0) == 0;
    ShiftExact(4);
  }

  /** The start of the packet, after the flag in front of the energies. */
  lemma FlagFirst()
    ensures Proper(START) && forall v :: IntraOps(START, 24, v) == [BitOp(v, 3)]
    ensures Tell(Run(START, [BitOp(false, 3)])) <= 4
  {
    StartProper();
    Pow2Values();
    ILogUnique(TOP, 32);
    assert Pow2(3) == 8;
    RunSnoc(START, [], BitOp(false, 3));
    assert [] + [BitOp(false, 3)] == [BitOp(false, 3)];
    RunNone(START);
    StepTell(START, BitOp(false, 3), 3);
  }

  lemma FreshAt(enc: EcCtx)
    requires enc.ValidEnc() && enc.ops == []
    ensures At(enc, true, Origin([], [], START), []) && Run(START, []) == START
  {
    hide EcCtx.ValidEnc;
    assert [] + [] == enc.ops;
    RunNone(START);
  }

  /** The encoder's half. */
  method WriteHigh(b: array<byte>) returns (error: int, energy: int, ghost p: Input)
    requires b.Length == 3
    modifies b
    ensures error == 0 && energy == ABOVE
    ensures HighBand(p) && ValidInput(p) && Proper(START) && p.f.sp == Run(START, [BitOp(false, 3)])
    ensures Carries(b[..3], START, [BitOp(false, 3)] + PassOps(p))
  {
    hide *;
    FlagFirst();
    var enc := new EcCtx.EncInit(b, 3);
    FreshAt(enc);
    ghost var from := Origin([], [], START);
    var eBands, oldEBands, errors := new int[1](_ => 29 * UNIT), new int[1](_ => 28 * UNIT), new int[1];
    assert eBands[..] == [29 * UNIT] && oldEBands[..] == [28 * UNIT];
    assert [] + [BitOp(false, 3)] == [BitOp(false, 3)];
    p := Input(Frame(Run(START, [BitOp(false, 3)]), 24, 0, 1, 0, false), 1, 1, [29 * UNIT], [28 * UNIT], 16 * UNIT,
               false);
    HighIs(p);
    var badness := QuantCoarseEnergyImpl(1, 0, 1, eBands, oldEBands, 24, errors, enc, 1, 0, false, 16 * UNIT, false,
                                         from, [], p);
    HighLevels(p);
    energy := oldEBands[..][0];
    HighFits(enc, p);
    enc.Done();
    error := enc.error;
  }

  lemma HighIs(p: Input)
    requires Proper(p.f.sp) && Tell(p.f.sp) <= 4 && p.f == Frame(p.f.sp, 24, 0, 1, 0, false)
    requires p == Input(p.f, 1, 1, [29 * UNIT], [28 * UNIT], 16 * UNIT, false)
    ensures HighBand(p)
  {
    hide Tell;
  }

  lemma HighFits(enc: EcCtx, p: Input)
    requires HighBand(p) && ValidInput(p) && Proper(START) && p.f.sp == Run(START, [BitOp(false, 3)])
    requires At(enc, true, Origin([], [], START), [BitOp(false, 3)] + PassOps(p)) && enc.storage == 3
    ensures enc.ValidEnc() && enc.ops == [BitOp(false, 3)] + PassOps(p) && Fits(enc.Where(), 3)
  {
    hide Run, Tell, EcCtx.ValidEnc, Coded, Total, EnergyOps;
    assert [] + ([BitOp(false, 3)] + PassOps(p)) == [BitOp(false, 3)] + PassOps(p);
    CodedFits(p, Total(p));
    WithinBudget(p.f, Coded(p, Total(p)).qs, Total(p));
    RunConcat(START, [BitOp(false, 3)], PassOps(p));
    TellFits(enc.Where(), 3);
  }

  /** The decoder's half. */
  method ReadHigh(b: array<byte>, ghost p: Input) returns (energy: int)
    requires b.Length == 3 && HighBand(p) && ValidInput(p) && Proper(START)
    requires p.f.sp == Run(START, [BitOp(false, 3)]) && Carries(b[..3], START, [BitOp(false, 3)] + PassOps(p))
    modifies b
    ensures energy == 28 * UNIT
  {
    hide *;
    FlagFirst();
    ghost var data := b[..3];
    var dec := new EcCtx.DecInit(b, 3);
    ghost var from := ThereNow(dec);
    RunNone(START);
    var intra := CodeIntra(dec, false, false, 24, from, []);
    assert [] + [BitOp(intra, 3)] == [BitOp(intra, 3)];
    AtCarries(dec, from, [BitOp(intra, 3)]);
    HighFlag(data, intra, PassOps(p));
    HighFrame(p);
    var oldEBands := new int[1](_ => 28 * UNIT);
    assert oldEBands[..] == [28 * UNIT];
    ghost var rs := UnquantCoarseEnergy(1, 0, 1, oldEBands, intra, dec, 1, 0, from, [BitOp(false, 3)]);
    HighRead(dec, from, p, rs);
    energy := oldEBands[..][0];
  }

  lemma AtCarries(dec: EcCtx, from: Origin, steps: seq<Op>)
    requires At(dec, false, from, steps)
    ensures Proper(from.sp) && AllLegal(steps) && Carries(from.data, from.sp, steps)
  {
    hide EcCtx.ValidDec;
  }

  /** The flag read is the one in the packet. */
  lemma HighFlag(data: seq<byte>, intra: bool, rest: seq<Op>)
    requires Proper(START) && AllLegal(rest) && Carries(data, START, [BitOp(false, 3)] + rest)
    requires Carries(data, START, [BitOp(intra, 3)])
    ensures !intra && Carries(data, Run(START, [BitOp(false, 3)]), rest)
  {
    hide Run, Carries, ReadsOp, BitOp;
    CarriesConcat(data, START, [BitOp(false, 3)], rest);
    CarriesOne(data, START, BitOp(false, 3));
    CarriesOne(data, START, BitOp(intra, 3));
    BitOnce(data, START, false, intra, 3);
  }

  lemma HighFrame(p: Input)
    requires HighBand(p)
    ensures p.f == Frame(p.f.sp, 24, 0, 1, 0, false) && ValidFrame(p.f) && Count(0, 1, 1) == 1
  {
    hide Tell;
  }

  lemma HighRead(dec: EcCtx, from: Origin, p: Input, rs: seq<int>)
    requires HighBand(p) && ValidInput(p) && |rs| == 1 && from.sp == START && Proper(START)
    requires Reached(dec, false, from, [BitOp(false, 3)], p.f, rs) && Carries(from.data, p.f.sp, PassOps(p))
    ensures rs == [4] && Inside(p.f, 1, 1, 1) && Filled(p.f, 1, rs, 1, [28 * UNIT], true) == [28 * UNIT]
  {
    HighCoded(p);
    HighLevels(p);
    hide Run, Carries, Tell, PassOps, EnergyOps, AllFit, Loses, Coded, Total, Bounded;
    CarriesConcat(from.data, from.sp, [BitOp(false, 3)], EnergyOps(p.f, rs, 1));
    Lockstep(from.data, p, rs);
  }

  /** No value is lost, no error is reported, and yet the encoder goes on above the bound
      and the decoder at it. */
  method AboveBound() returns (error: int, encoder: int, decoder: int)
    ensures error == 0 && encoder == ABOVE > 28 * UNIT && decoder == 28 * UNIT
  {
    hide *;
    var b := new byte[3];
    ghost var p;
    error, encoder, p := WriteHigh(b);
    decoder := ReadHigh(b, p);
    AboveIs();
  }

  lemma AboveIs()
    ensures ABOVE > 28 * UNIT
  {
  }
}
