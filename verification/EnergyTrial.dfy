/** The two-pass coarse energy: intra and inter are both coded, the better is kept. */
module EnergyTrial {
  import opened Arith
  import opened Interval
  import opened Registers
  import opened EntCode
  import opened Duplex
  import opened Distortion
  import opened Energy
  import opened EnergyPass
  import opened EnergyEncoder
  import opened Trial
  import TellFrac

  /** Where the frame's energies begin: the coder, the bands, the old energies. */
  datatype Setting = Setting(from: Origin, nb: nat, start: nat, end: nat, C: nat, lm: nat, budget: int,
                             x: seq<int>, was: seq<int>, maxDecay: int, lfe: bool)

  ghost predicate ValidSetting(st: Setting) {
    && Placed(st.from, true) && 1 <= st.C <= 2 && st.lm <= 3 && st.start <= st.end <= st.nb
    && |st.x| == |st.was| >= st.C * st.nb
  }

  /** The pass over it, intra or inter. */
  ghost function PassInput(st: Setting, intra: bool): (p: Input)
    requires ValidSetting(st)
    ensures ValidInput(p)
  {
    hide Run, IntraOps;
    Input(Frame(Run(st.from.sp, IntraOps(st.from.sp, st.budget, intra)), st.budget, st.start, st.C, st.lm, intra),
          st.nb, st.end, st.x, st.was, st.maxDecay, st.lfe)
  }

  /** All its steps, the flag first. */
  ghost function AllOps(st: Setting, intra: bool): (ops: seq<Op>)
    requires ValidSetting(st)
    ensures AllLegal(ops)
  {
    hide IntraOps, PassOps, PassInput;
    IntraOps(st.from.sp, st.budget, intra) + PassOps(PassInput(st, intra))
  }

  ghost function PassCost(st: Setting, intra: bool): nat
    requires ValidSetting(st)
  {
    if st.lfe then 0 else Badness(PassInput(st, intra), Total(PassInput(st, intra)))
  }

  /** ec_tell_frac after it. */
  ghost function TellAfterPass(st: Setting, intra: bool): int
    requires ValidSetting(st)
  {
    TellFrac.TellEighths(Run(st.from.sp, AllOps(st, intra)))
  }

  /** The history, energies and errors are those of one pass, and of no other. */
  ghost predicate TrialOutcome(st: Setting, intra: bool, ops: seq<Op>, now: seq<int>, error: seq<int>)
    requires ValidSetting(st)
  {
    var p := PassInput(st, intra);
    ops == st.from.ops + AllOps(st, intra) && now == Energies(p) && Errors(p, Coded(p, Total(p)).es, Total(p), error)
  }

  /** The intra pass is the better one: less badness, or as much and not so much longer. */
  ghost predicate IntraBetter(st: Setting, bias: int)
    requires ValidSetting(st)
  {
    || PassCost(st, true) < PassCost(st, false)
    || (PassCost(st, true) == PassCost(st, false) && TellAfterPass(st, false) + bias > TellAfterPass(st, true))
  }

  /** One pass, from the encoder's present state. */
  method Pass(ghost st: Setting, nb: nat, start: nat, end: nat, eBands: array<int>, oldEBands: array<int>, budget: int,
              error: array<int>, enc: EcCtx, C: nat, lm: nat, intra: bool, maxDecay: int, lfe: bool)
    returns (badness: nat)
    requires enc.ValidEnc() && ValidSetting(st) && st.from.ops == enc.ops
    requires eBands.Length == oldEBands.Length == error.Length
    requires oldEBands != error && oldEBands != eBands && error != eBands
    requires st == Setting(st.from, nb, start, end, C, lm, budget, eBands[..], oldEBands[..], maxDecay, lfe)
    modifies oldEBands, error, enc, enc.buf
    ensures enc.ValidEnc() && TrialOutcome(st, intra, enc.ops, oldEBands[..], error[..])
    ensures enc.storage == old(enc.storage)
    ensures badness == PassCost(st, intra) && enc.Where() == Run(st.from.sp, AllOps(st, intra))
    ensures old(enc.front) <= enc.front && enc.tail == old(enc.tail)
  {
    hide EcCtx.ValidEnc, Errors, IntraOps, PassOps, Coded, Total, Energies, Badness, Run, AllLegal;
    PassHere(st, enc, intra);
    badness := QuantCoarseEnergyImpl(nb, start, end, eBands, oldEBands, budget, error, enc, C, lm, intra, maxDecay, lfe,
                                     st.from, [], PassInput(st, intra));
    PassDone(st, enc, intra);
  }

  lemma PassHere(st: Setting, enc: EcCtx, intra: bool)
    requires enc.ValidEnc() && ValidSetting(st) && st.from.ops == enc.ops
    ensures AllLegal([]) && Run(st.from.sp, []) == st.from.sp && At(enc, true, st.from, [])
    ensures [] + IntraOps(st.from.sp, st.budget, intra) == IntraOps(st.from.sp, st.budget, intra)
  {
    hide EcCtx.ValidEnc, IntraOps;
    assert enc.ops + [] == enc.ops;
  }

  lemma PassDone(st: Setting, enc: EcCtx, intra: bool)
    requires ValidSetting(st)
    requires At(enc, true, st.from, [] + IntraOps(st.from.sp, st.budget, intra) + PassOps(PassInput(st, intra)))
    ensures enc.ValidEnc() && enc.ops == st.from.ops + AllOps(st, intra)
    ensures enc.Where() == Run(st.from.sp, AllOps(st, intra))
  {
    hide EcCtx.ValidEnc, IntraOps, PassOps, PassInput, Run;
    assert [] + IntraOps(st.from.sp, st.budget, intra) == IntraOps(st.from.sp, st.budget, intra);
    RunConcat(START, st.from.ops, AllOps(st, intra));
  }

  /** OPUS_COPY between energy arrays. */
  method CopyAll(to: array<int>, values: seq<int>)
    requires |values| == to.Length
    modifies to
    ensures to[..] == values
  {
    forall i | 0 <= i < to.Length {
      to[i] := values[i];
    }
  }

  /** ec_tell_frac of an encoder. */
  method TellFracOf(enc: EcCtx) returns (frac: int)
    requires enc.ValidEnc()
    ensures frac == TellFrac.TellEighths(enc.Where())
  {
    enc.EncState();
    RangeBits(enc.Where());
    hide EcCtx.ValidEnc, Run;
    frac := TellFrac.EcTellFrac(enc.nbitsTotal, enc.rng);
  }

  /** The intra bytes join the bytes before them again. */
  lemma FrontAgain(now: seq<byte>, first: seq<byte>, whole: seq<byte>, n: nat, m: nat)
    requires n == |first| <= m == |whole| <= |now| && first <= whole
    requires now[..n] == first && now[n..m] == whole[n..]
    ensures now[..m] == whole
  {
    assert now[..m] == now[..n] + now[n..m];
    assert whole == whole[..n] + whole[n..];
  }

  /** Bytes put back at n restore the front `whole` and leave the tail alone. */
  lemma BackInPlace(was: seq<byte>, now: seq<byte>, whole: seq<byte>, n: nat, tailAt: nat, size: nat)
    requires n <= |whole| <= tailAt <= size <= |was| == |now| && was[..n] == whole[..n]
    requires now[..n] == was[..n] && now[n..|whole|] == whole[n..] && now[|whole|..] == was[|whole|..]
    ensures now[..|whole|] == whole && now[tailAt..size] == was[tailAt..size]
  {
    var m := |whole|;
    FrontAgain(now, whole[..n], whole, n, m);
    assert now[tailAt..size] == now[m..][tailAt - m..size - m];
    assert was[tailAt..size] == was[m..][tailAt - m..size - m];
  }

  /** The copy itself. */
  method PutFront(buf: array<byte>, n: nat, bits: seq<byte>, ghost whole: seq<byte>, ghost tailAt: nat, ghost size: nat)
    requires n <= |whole| == n + |bits| <= tailAt <= size <= buf.Length
    requires buf[..n] == whole[..n] && bits == whole[n..]
    modifies buf
    ensures buf[..|whole|] == whole && buf[tailAt..size] == old(buf[tailAt..size])
  {
    hide *;
    ghost var was := buf[..];
    PutBytes(buf, n, bits);
    ghost var now := buf[..];
    assert now[n..|whole|] == buf[n..n + |bits|];
    BackInPlace(was, now, whole, n, tailAt, size);
  }

  /** The intra state is put back: the copy of the coder, and the bytes the inter pass
      may have overwritten.  Only the front can have changed. */
  method PutIntraBack(enc: EcCtx, s0: Saved, s1: Saved, bits: seq<byte>, ghost g0: Trace, ghost g1: Trace)
    requires enc.ValidEnc() && Snapshot(s0, g0) && Snapshot(s1, g1) && s0.storage == s1.storage == enc.storage
    requires g0.front <= enc.front && enc.tail == g1.tail && g0.front <= g1.front && s0.offs <= s1.offs
    requires bits == g1.front[s0.offs..]
    modifies enc, enc.buf
    ensures enc.ValidEnc() && enc.ops == g1.ops && enc.front == g1.front && enc.tail == g1.tail
    ensures enc.storage == old(enc.storage)
  {
    SaveFacts(enc, s0, g0);
    SaveFacts(enc, s1, g1);
    BytesShown(enc);
    hide EcCtx.ValidEnc, Snapshot;
    assert enc.buf[..s0.offs] == g1.front[..s0.offs] by {
      assert enc.buf[..enc.offs][..s0.offs] == enc.buf[..s0.offs];
    }
    PutFront(enc.buf, s0.offs, bits, g1.front, s1.storage - s1.endOffs, s1.storage);
    enc.Restore(s1, g1);
  }

  /** The inter pass, from the start again; the intra pass is put back if better. */
  method TryInter(ghost st: Setting, nb: nat, start: nat, end: nat, eBands: array<int>, oldEBands: array<int>,
                  budget: int,
                  error: array<int>, enc: EcCtx, C: nat, lm: nat, maxDecay: int, lfe: bool, s0: Saved, ghost g0: Trace,
                  twoPass: bool, badness1: nat, oldIntra: array<int>, errorIntra: array<int>, intraBias: int)
    returns (intra: bool)
    requires enc.ValidEnc() && ValidSetting(st) && st.from.ops == g0.ops
    requires eBands.Length == oldEBands.Length == error.Length == oldIntra.Length == errorIntra.Length
    requires oldEBands != error && oldEBands != eBands && error != eBands
    requires oldIntra != oldEBands && oldIntra != error && errorIntra != oldEBands && errorIntra != error
    requires st == Setting(st.from, nb, start, end, C, lm, budget, eBands[..], oldEBands[..], maxDecay, lfe)
    requires Snapshot(s0, g0) && s0.storage == enc.storage && g0.front <= enc.front && enc.tail == g0.tail
    requires twoPass ==> TrialOutcome(st, true, enc.ops, oldIntra[..], errorIntra[..]) && badness1 == PassCost(st, true)
    requires twoPass ==> enc.Where() == Run(st.from.sp, AllOps(st, true))
    modifies oldEBands, error, enc, enc.buf
    ensures enc.ValidEnc() && TrialOutcome(st, intra, enc.ops, oldEBands[..], error[..])
    ensures enc.storage == old(enc.storage)
    ensures intra <==> twoPass && IntraBetter(st, intraBias)
    ensures g0.front <= enc.front && enc.tail == g0.tail
  {
    hide EcCtx.ValidEnc, TrialOutcome, Snapshot, Tell, Run, PassCost, AllOps, ValidSetting, EcCtx.Where;
    var tellIntra := TellFracOf(enc);
    var s1, g1 := enc.Save();
    var intraBits := TakeBytes(enc, s0, s1, g0, g1);
    BytesKept(enc, s0, g0);
    enc.Restore(s0, g0);
    ghost var now, errors := oldIntra[..], errorIntra[..];
    var badness2 := Pass(st, nb, start, end, eBands, oldEBands, budget, error, enc, C, lm, false, maxDecay, lfe);
    var tellInter := TellFracOf(enc);
    intra := false;
    if twoPass && (badness1 < badness2 || (badness1 == badness2 && tellInter + intraBias > tellIntra)) {
      PutIntraBack(enc, s0, s1, intraBits, g0, g1);
      CopyAll(oldEBands, oldIntra[..]);
      CopyAll(error, errorIntra[..]);
      intra := true;
    }
  }

  /** The front bytes written between two copies. */
  method TakeBytes(enc: EcCtx, s0: Saved, s1: Saved, ghost g0: Trace, ghost g1: Trace) returns (bits: seq<byte>)
    requires enc.ValidEnc() && Snapshot(s0, g0) && Snapshot(s1, g1) && s0.storage == s1.storage == enc.storage
    requires g0.front <= g1.front == enc.front && s1.offs == enc.offs
    ensures s0.offs <= s1.offs && bits == g1.front[s0.offs..]
  {
    SaveFacts(enc, s0, g0);
    SaveFacts(enc, s1, g1);
    BytesShown(enc);
    hide EcCtx.ValidEnc, Snapshot;
    bits := enc.buf[s0.offs..s1.offs];
    assert enc.buf[..enc.offs][s0.offs..] == bits;
  }

  /** The passes wanted, on copies of the old energies, and the choice between them. */
  method TryPasses(ghost st: Setting, nb: nat, start: nat, end: nat, eBands: array<int>, oldEBands: array<int>,
                   budget: int, error: array<int>, enc: EcCtx, C: nat, lm: nat, maxDecay: int, lfe: bool,
                   intra0: bool, twoPass: bool, intraBias: int)
    returns (intra: bool)
    requires enc.ValidEnc() && ValidSetting(st) && st.from.ops == enc.ops
    requires eBands.Length == oldEBands.Length == error.Length
    requires oldEBands != error && oldEBands != eBands && error != eBands
    requires st == Setting(st.from, nb, start, end, C, lm, budget, eBands[..], oldEBands[..], maxDecay, lfe)
    modifies oldEBands, error, enc, enc.buf
    ensures enc.ValidEnc() && TrialOutcome(st, intra, enc.ops, oldEBands[..], error[..])
    ensures enc.storage == old(enc.storage)
    ensures intra <==> intra0 || (twoPass && IntraBetter(st, intraBias))
    ensures old(enc.front) <= enc.front && enc.tail == old(enc.tail)
  {
    hide *;
    var s0, g0 := enc.Save();
    var oldEBandsIntra, errorIntra := new int[oldEBands.Length], new int[error.Length];
    CopyAll(oldEBandsIntra, oldEBands[..]);
    var badness1 := 0;
    if twoPass || intra0 {
      badness1 := Pass(st, nb, start, end, eBands, oldEBandsIntra, budget, errorIntra, enc, C, lm, true, maxDecay, lfe);
    }
    intra := intra0;
    if !intra {
      intra := TryInter(st, nb, start, end, eBands, oldEBands, budget, error, enc, C, lm, maxDecay, lfe, s0, g0,
                        twoPass, badness1, oldEBandsIntra, errorIntra, intraBias);
    } else {
      CopyAll(oldEBands, oldEBandsIntra[..]);
      CopyAll(error, errorIntra[..]);
    }
  }

  /** max_decay: how fast the energy may fall. */
  function MaxDecay(bands: nat, nbAvailableBytes: nat, lfe: bool): (d: int)
    ensures lfe ==> d == 3 * UNIT
    ensures !lfe ==> d <= 16 * UNIT && (bands <= 10 || nbAvailableBytes >= 128 ==> d == 16 * UNIT)
    ensures !lfe && bands > 10 && nbAvailableBytes <= 128 ==> 8 * d == nbAvailableBytes * UNIT
  {
    if lfe then 3 * UNIT
    else if bands > 10 then Min(16 * UNIT / 0x20_0000, nbAvailableBytes) * 0x20_0000
    else 16 * UNIT
  }

  /** Intra is coded without a trial. */
  predicate AsksIntra(bands: nat, C: nat, nbAvailableBytes: nat, forceIntra: bool, delayedIntra: int, twoPass: bool) {
    forceIntra || (!twoPass && delayedIntra > 2 * C * bands && nbAvailableBytes > bands * C)
  }

  /** quant_coarse_energy.  Whatever the two passes code, the encoder, the energies and
      the errors end as those of an encoder that only ever ran the pass kept; and that
      is the intra pass when the flag can be coded and intra is asked for, or both are
      tried and it is the better one.  The distortion remembered is the one against the
      energies before. */
  method QuantCoarseEnergy(ghost st: Setting, nb: nat, start: nat, end: nat, effEnd: nat, eBands: array<int>,
                           oldEBands: array<int>, budget: nat, error: array<int>, enc: EcCtx, C: nat, lm: nat,
                           nbAvailableBytes: nat, forceIntra: bool, delayedIntra: int, twoPass0: bool, lossRate: nat,
                           lfe: bool)
    returns (intra: bool, delayed: int)
    requires enc.ValidEnc() && ValidSetting(st) && st.from.ops == enc.ops && start <= end && start <= effEnd <= nb
    requires eBands.Length == oldEBands.Length == error.Length
    requires oldEBands != error && oldEBands != eBands && error != eBands
    requires st == Setting(st.from, nb, start, end, C, lm, budget, eBands[..], oldEBands[..],
                           MaxDecay(end - start, nbAvailableBytes, lfe), lfe)
    modifies oldEBands, error, enc, enc.buf
    ensures enc.ValidEnc() && TrialOutcome(st, intra, enc.ops, oldEBands[..], error[..])
    ensures enc.storage == old(enc.storage)
    ensures intra <==> Tell(st.from.sp) + 3 <= budget
                       && (AsksIntra(end - start, C, nbAvailableBytes, forceIntra, delayedIntra, twoPass0)
                           || (twoPass0 && IntraBetter(st, Bias(budget, delayedIntra, lossRate, C))))
    ensures delayed == Delayed(delayedIntra, lm, intra, Loss(st.x, st.was, start, effEnd, nb, C))
    ensures old(enc.front) <= enc.front && enc.tail == old(enc.tail)
  {
    TellHere(st, enc);
    hide EcCtx.ValidEnc, TrialOutcome, Tell, Run, EcCtx.EcTell, IntraBetter, ValidSetting, AsksIntra, Bias, Loss,
      Delayed;
    var twoPass := twoPass0;
    intra := AsksIntra(end - start, C, nbAvailableBytes, forceIntra, delayedIntra, twoPass);
    var intraBias := Bias(budget, delayedIntra, lossRate, C);
    var newDistortion := LossDistortion(eBands, oldEBands, start, effEnd, nb, C);
    var tell := enc.EcTell();
    if tell + 3 > budget { twoPass, intra := false, false; }
    var maxDecay := 16 * UNIT;
    if end - start > 10 { maxDecay := Min(maxDecay / 0x20_0000, nbAvailableBytes) * 0x20_0000; }
    if lfe { maxDecay := 3 * UNIT; }
    intra := TryPasses(st, nb, start, end, eBands, oldEBands, budget, error, enc, C, lm, maxDecay, lfe, intra, twoPass,
                       intraBias);
    delayed := Remembered(delayedIntra, lm, intra, newDistortion);
  }

  method Remembered(delayedIntra: int, lm: nat, intra: bool, newDistortion: int) returns (delayed: int)
    requires lm <= 3
    ensures delayed == Delayed(delayedIntra, lm, intra, newDistortion)
  {
    if intra {
      delayed := newDistortion;
    } else {
      delayed := Mult15(Mult15(PRED_COEF[lm], PRED_COEF[lm]), delayedIntra) + newDistortion;
    }
  }

  lemma TellHere(st: Setting, enc: EcCtx)
    requires enc.ValidEnc() && ValidSetting(st) && st.from.ops == enc.ops
    ensures enc.EcTell() == Tell(st.from.sp) && 1 <= st.C <= 2 && st.lm <= 3 && st.C * st.nb <= |st.x|
  {
    enc.EncState();
    hide Run, Tell;
  }
}
