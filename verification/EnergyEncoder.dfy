/** The encoder's loop over the coarse energies, proved against the pass it computes. */
module EnergyEncoder {
  import opened Arith
  import opened Interval
  import opened EntCode
  import opened Duplex
  import opened Energy
  import opened EnergyPass

  /** The quantized value the encoder would like, given what it may still spend. */
  method Wish(x: int, oldE: int, predicted: int, maxDecay: int, budget: int, tell: int, start: nat, end: nat, i: nat,
              C: nat, lfe: bool) returns (qi0: int, qi: int)
    ensures qi0 == HeldUp(x, oldE, predicted, maxDecay)
    ensures qi == Spared(qi0, budget - tell - 3 * C * (end - i), start, i, lfe)
  {
    var f := x - predicted;
    qi := (f + UNIT / 2) / UNIT;
    var decayBound := Max(-28 * UNIT, oldE - maxDecay);
    if qi < 0 && x < decayBound {
      qi := qi + (decayBound - x) / UNIT;
      if qi > 0 { qi := 0; }
    }
    qi0 := qi;
    var bitsLeft := budget - tell - 3 * C * (end - i);
    if i != start && bitsLeft < 30 {
      if bitsLeft < 24 { qi := Min(1, qi); }
      if bitsLeft < 16 { qi := Max(-1, qi); }
    }
    if lfe && i >= 2 { qi := Min(qi, 0); }
  }

  lemma CodedNext(p: Input, k: nat)
    requires ValidInput(p) && k < Total(p)
    ensures var v, sp := Coded(p, k), SpanAt(p.f, Coded(p, k).qs, k);
      var e := Chosen(p.f, sp, k, Wished(p, v.es, sp, k));
      Coded(p, k + 1) == Values(v.es + [e], v.qs + [Sent(p.f, sp, e)])
  {
    hide Chosen, Wished, SpanAt, Sent, Total;
  }

  /** The parameters of the code's loop body, as the pass sees them. */
  lemma WishedAs(p: Input, k: nat, sp: Span, qi0: int, qi: int)
    requires ValidInput(p) && k < Total(p) && Place(p.f, p.nb, k) < |p.x|
    requires var at := Place(p.f, p.nb, k);
      qi0 == HeldUp(p.x[at], p.was[at], Ahead(p, Coded(p, k).es, k), p.maxDecay)
    requires qi == Spared(qi0, p.f.budget - Tell(sp) - 3 * p.f.C * (p.end - Band(p.f, k)), p.f.start, Band(p.f, k),
                          p.lfe)
    ensures qi0 == Rounded(p, Coded(p, k).es, k) && qi == Wished(p, Coded(p, k).es, sp, k)
  {
    hide Coded, Tell, HeldUp, Spared, Ahead, Total;
  }

  /** The value is chosen and coded. */
  method ChooseValue(x: int, oldE: int, predicted: int, maxDecay: int, budget: int, start: nat, end: nat, i: nat,
                     enc: EcCtx, C: nat, lm: nat, intra: bool, lfe: bool,
                     ghost p: Input, ghost k: nat, ghost from: Origin, ghost steps: seq<Op>)
    returns (bad: nat, q: int)
    requires ValidInput(p) && k < Total(p) && Reached(enc, true, from, steps, p.f, Coded(p, k).qs)
    requires budget == p.f.budget && C == p.f.C && lm == p.f.lm && intra == p.f.intra && start == p.f.start
    requires end == p.end && i == Band(p.f, k) && maxDecay == p.maxDecay && lfe == p.lfe
    requires Place(p.f, p.nb, k) < |p.x|
    requires x == p.x[Place(p.f, p.nb, k)] && oldE == p.was[Place(p.f, p.nb, k)]
    requires predicted == Ahead(p, Coded(p, k).es, k)
    modifies enc, enc.buf
    ensures Reached(enc, true, from, steps, p.f, Coded(p, k + 1).qs)
    ensures Coded(p, k + 1).es == Coded(p, k).es + [q] && bad == Abs(Rounded(p, Coded(p, k).es, k) - q)
    ensures enc.storage == old(enc.storage)
    ensures old(enc.front) <= enc.front && enc.tail == old(enc.tail)
  {
    hide Reached, Tell, SpanAt, Chosen, Wished, Rounded, Sent, HeldUp, Spared, Ahead, Place, Band, ValidFrame, Total,
      Coded;
    ghost var sp := SpanAt(p.f, Coded(p, k).qs, k);
    ReachedTell(enc, true, from, steps, p.f, Coded(p, k).qs);
    var tell := enc.EcTell();
    var qi0, qi := Wish(x, oldE, predicted, maxDecay, budget, tell, start, end, i, C, lfe);
    WishedAs(p, k, sp, qi0, qi);
    CodedNext(p, k);
    ghost var sent;
    q, sent := CodeValue(enc, true, qi, budget, i, lm, intra, from, steps, p.f, Coded(p, k).qs);
    bad := Abs(qi0 - q);
  }

  /** The state of the loop after n values. */
  ghost predicate InPass(p: Input, n: nat, prev: seq<int>, now: seq<int>, error: seq<int>) {
    && ValidInput(p) && n <= Total(p) && InLoop(p.f, p.nb, Coded(p, n).es, prev, p.was, now, false)
    && Errors(p, Coded(p, n).es, n, error)
  }

  lemma InputFacts(p: Input)
    requires ValidInput(p)
    ensures ValidFrame(p.f) && p.f.start <= p.end <= p.nb && |p.x| == |p.was|
  {
  }

  lemma ErrorsNext(p: Input, k: nat, error: seq<int>)
    requires ValidInput(p) && k < Total(p) && Errors(p, Coded(p, k).es, k, error)
    ensures Place(p.f, p.nb, k) < |error|
    ensures Errors(p, Coded(p, k + 1).es, k + 1, error[Place(p.f, p.nb, k) := Missing(p, Coded(p, k + 1).es, k)])
  {
    hide ValidInput, ValidFrame, Missing, Place, Coded, Shift, Ahead, Band, Total;
    InputFacts(p);
    BandInside(p, k);
    CodedPrefix(p, k, k + 1);
    var at, es := Place(p.f, p.nb, k), Coded(p, k + 1).es;
    var error' := error[at := Missing(p, es, k)];
    forall j | 0 <= j < k + 1
      ensures Place(p.f, p.nb, j) < |error'| && error'[Place(p.f, p.nb, j)] == Missing(p, es, j)
    {
      if j < k {
        PlaceOnce(p.f, p.nb, j, k);
        MissingSame(p, es, Coded(p, k).es, j);
        assert error[Place(p.f, p.nb, j)] == Missing(p, Coded(p, k).es, j);
      }
    }
  }

  lemma MissingSame(p: Input, v: seq<int>, w: seq<int>, j: nat)
    requires ValidInput(p) && j < Total(p) && j < |w| <= |v| && v[..|w|] == w
    ensures Missing(p, v, j) == Missing(p, w, j)
  {
    assert v[..j] == v[..|w|][..j] == w[..j] && v[j] == v[..|w|][j] == w[j];
    PrevPrefix(p.f, v, w, j);
    hide Prev, Predicted, Place, Shift, Total;
  }

  /** What the loop body needs to know about the arrays before value k. */
  lemma BodyFacts(p: Input, k: nat, prev: seq<int>, now: seq<int>, error: seq<int>)
    requires ValidInput(p) && k < Total(p) && InPass(p, k, prev, now, error)
    ensures Place(p.f, p.nb, k) == Band(p.f, k) + Channel(p.f, k) * p.nb
    ensures |p.x| == |p.was| == |now| == |error| && Channel(p.f, k) < |prev| == 2
    ensures var at := Place(p.f, p.nb, k);
      && at < |p.was| && now[at] == p.was[at]
      && Ahead(p, Coded(p, k).es, k) == Mult15(Coef(p.f), Max(-9 * UNIT, now[at])) + prev[Channel(p.f, k)]
  {
    BandInside(p, k);
    AllInside(p, k + 1);
    FilledNext(p.f, p.nb, Coded(p, k).es, k, p.was, false);
    hide Coded, Filled, Place, Prev, Coef, Mult15, Errors, Total, Band, Inside;
  }

  /** What a value misses is stored. */
  method StoreError(at: nat, error: array<int>, missing: int, ghost p: Input, ghost k: nat)
    requires ValidInput(p) && k < Total(p) && Errors(p, Coded(p, k).es, k, error[..])
    requires at == Place(p.f, p.nb, k) && missing == Missing(p, Coded(p, k + 1).es, k)
    modifies error
    ensures Errors(p, Coded(p, k + 1).es, k + 1, error[..])
  {
    ErrorsNext(p, k, error[..]);
    hide Errors, Missing, Place, Total, Coded, ValidInput;
    ghost var errors := error[..][at := missing];
    error[at] := missing;
    assert error[..] == errors;
  }

  lemma InPassIs(p: Input, n: nat, prev: seq<int>, now: seq<int>, error: seq<int>)
    requires ValidInput(p) && n <= Total(p)
    ensures InPass(p, n, prev, now, error) <==>
            InLoop(p.f, p.nb, Coded(p, n).es, prev, p.was, now, false) && Errors(p, Coded(p, n).es, n, error)
  {
    hide InLoop, Errors, Coded;
  }

  /** The value's energy and what it misses are stored. */
  method StoreValue(nb: nat, i: nat, c: nat, oldEBands: array<int>, error: array<int>, predicted: int, x: int,
                    prev: seq<int>, coef: int, beta: int, q: int, ghost p: Input, ghost k: nat)
    returns (next: seq<int>)
    requires ValidInput(p) && k < Total(p) && InPass(p, k, prev, oldEBands[..], error[..]) && oldEBands != error
    requires coef == Coef(p.f) && beta == Beta(p.f) && nb == p.nb && i == Band(p.f, k) && c == Channel(p.f, k)
    requires Coded(p, k + 1).es == Coded(p, k).es + [q] && predicted == Ahead(p, Coded(p, k).es, k)
    requires Place(p.f, p.nb, k) == i + c * nb < |p.x| && x == p.x[i + c * nb]
    modifies oldEBands, error
    ensures InPass(p, k + 1, next, oldEBands[..], error[..])
  {
    hide *;
    InputFacts(p);
    BandInside(p, k);
    InPassIs(p, k, prev, oldEBands[..], error[..]);
    MissingIs(p, k, q);
    ghost var now := oldEBands[..];
    StoreError(i + c * nb, error, x - (predicted + Shift(q)), p, k);
    ghost var errors := error[..];
    assert oldEBands[..] == now;
    next := StoreLevel(coef, beta, nb, i, c, oldEBands, prev, q, false, p.f, Coded(p, k).es, p.was);
    assert error[..] == errors;
    InPassIs(p, k + 1, next, oldEBands[..], error[..]);
  }

  lemma MissingIs(p: Input, k: nat, q: int)
    requires ValidInput(p) && k < Total(p) && Coded(p, k + 1).es == Coded(p, k).es + [q]
    ensures Place(p.f, p.nb, k) < |p.x|
    ensures Missing(p, Coded(p, k + 1).es, k) == p.x[Place(p.f, p.nb, k)] - (Ahead(p, Coded(p, k).es, k) + Shift(q))
  {
    BandInside(p, k);
    PrevGrows(p.f, Coded(p, k).es, q, k);
    hide Coded, Prev, Predicted, Place, Shift, Total;
  }

  /** The loop after n values: what has been coded, what has been stored, and what the
      values so far are worth. */
  ghost predicate Running(enc: EcCtx, from: Origin, steps: seq<Op>, p: Input, n: nat, prev: seq<int>, now: seq<int>,
                          error: seq<int>, badness: nat)
    reads enc, enc.buf
  {
    && InPass(p, n, prev, now, error) && Reached(enc, true, from, steps, p.f, Coded(p, n).qs)
    && badness == Badness(p, n)
  }

  /** The code's parameters are those of the pass. */
  ghost predicate Given(p: Input, nb: nat, start: nat, end: nat, coef: int, beta: int, budget: int, C: nat, lm: nat,
                        intra: bool, maxDecay: int, lfe: bool)
  {
    && ValidInput(p) && coef == Coef(p.f) && beta == Beta(p.f) && budget == p.f.budget && C == p.f.C && lm == p.f.lm
    && intra == p.f.intra && start == p.f.start && nb == p.nb && end == p.end && maxDecay == p.maxDecay && lfe == p.lfe
  }

  lemma RunningIs(enc: EcCtx, from: Origin, steps: seq<Op>, p: Input, n: nat, prev: seq<int>, now: seq<int>,
                  error: seq<int>, badness: nat)
    requires ValidInput(p) && n <= Total(p)
    ensures Running(enc, from, steps, p, n, prev, now, error, badness) <==>
            && InPass(p, n, prev, now, error) && Reached(enc, true, from, steps, p.f, Coded(p, n).qs)
            && badness == Badness(p, n)
  {
    hide InPass, Reached, Coded, Badness, ValidInput, Total;
  }

  lemma GivenIs(p: Input, nb: nat, start: nat, end: nat, coef: int, beta: int, budget: int, C: nat, lm: nat,
                intra: bool, maxDecay: int, lfe: bool)
    requires Given(p, nb, start, end, coef, beta, budget, C, lm, intra, maxDecay, lfe)
    ensures ValidInput(p) && ValidFrame(p.f) && coef == Coef(p.f) && beta == Beta(p.f) && budget == p.f.budget
    ensures C == p.f.C
    ensures lm == p.f.lm && intra == p.f.intra && start == p.f.start && nb == p.nb && end == p.end
    ensures maxDecay == p.maxDecay && lfe == p.lfe
  {
  }

  /** One value of the loop. */
  method QuantValue(nb: nat, start: nat, end: nat, i: nat, c: nat, eBands: array<int>, oldEBands: array<int>,
                    error: array<int>, prev: seq<int>, badness0: nat, coef: int, beta: int, budget: int, enc: EcCtx,
                    C: nat, lm: nat, intra: bool, maxDecay: int, lfe: bool, ghost p: Input, ghost k: nat,
                    ghost from: Origin, ghost steps: seq<Op>)
    returns (next: seq<int>, badness: nat)
    requires Given(p, nb, start, end, coef, beta, budget, C, lm, intra, maxDecay, lfe) && k < Total(p)
    requires Running(enc, from, steps, p, k, prev, oldEBands[..], error[..], badness0)
    requires eBands[..] == p.x && i == Band(p.f, k) && c == Channel(p.f, k)
    requires oldEBands != error && oldEBands != eBands && error != eBands
    modifies oldEBands, error, enc, enc.buf
    ensures Running(enc, from, steps, p, k + 1, next, oldEBands[..], error[..], badness)
    ensures enc.storage == old(enc.storage)
    ensures old(enc.front) <= enc.front && enc.tail == old(enc.tail)
  {
    hide *;
    GivenIs(p, nb, start, end, coef, beta, budget, C, lm, intra, maxDecay, lfe);
    RunningIs(enc, from, steps, p, k, prev, oldEBands[..], error[..], badness0);
    BodyFacts(p, k, prev, oldEBands[..], error[..]);
    assert |eBands[..]| == |oldEBands[..]| == |error[..]|;
    var at := i + c * nb;
    assert eBands[at] == p.x[at] && oldEBands[at] == p.was[at];
    ghost var now, errors := oldEBands[..], error[..];
    var predicted := Mult15(coef, Max(-9 * UNIT, oldEBands[at])) + prev[c];
    var bad, q := ChooseValue(eBands[at], oldEBands[at], predicted, maxDecay, budget, start, end, i, enc, C, lm, intra,
                              lfe, p, k, from, steps);
    BadnessNext(p, k, bad);
    assert oldEBands[..] == now && error[..] == errors;
    next := StoreValue(nb, i, c, oldEBands, error, predicted, eBands[at], prev, coef, beta, q, p, k);
    badness := badness0 + bad;
    RunningIs(enc, from, steps, p, k + 1, next, oldEBands[..], error[..], badness);
  }

  lemma PassStart(p: Input, error: seq<int>)
    requires ValidInput(p) && |error| == |p.x|
    ensures InPass(p, 0, [0, 0], p.was, error) && Coded(p, 0) == Values([], []) && Badness(p, 0) == 0
  {
    LoopStart(p.f, p.nb, p.was, false);
  }

  lemma PassEnd(p: Input, prev: seq<int>, now: seq<int>, error: seq<int>)
    requires ValidInput(p) && InPass(p, Total(p), prev, now, error)
    ensures now == Energies(p) && Errors(p, Coded(p, Total(p)).es, Total(p), error)
    ensures PassOps(p) == EnergyOps(p.f, Coded(p, Total(p)).qs, Total(p))
  {
    hide Coded, Filled, Inside, Carried, Total, Errors;
  }

  /** The loop over bands and channels. */
  method QuantAll(nb: nat, start: nat, end: nat, eBands: array<int>, oldEBands: array<int>, budget: int,
                  error: array<int>, enc: EcCtx, C: nat, lm: nat, intra: bool, maxDecay: int, lfe: bool,
                  ghost from: Origin, ghost steps: seq<Op>, ghost p: Input) returns (badness: nat)
    requires At(enc, true, from, steps) && ValidInput(p) && eBands.Length == oldEBands.Length == error.Length
    requires oldEBands != error && oldEBands != eBands && error != eBands && 1 <= C <= 2 && lm <= 3
    requires p == Input(Frame(Run(from.sp, steps), budget, start, C, lm, intra), nb, end, eBands[..], oldEBands[..],
                        maxDecay, lfe)
    modifies oldEBands, error, enc, enc.buf
    ensures At(enc, true, from, steps + PassOps(p))
    ensures oldEBands[..] == Energies(p) && Errors(p, Coded(p, Total(p)).es, Total(p), error[..])
    ensures badness == Badness(p, Total(p))
    ensures enc.storage == old(enc.storage) && old(enc.front) <= enc.front && enc.tail == old(enc.tail)
  {
    hide Run, At, Running, Reached, InPass, ValidFrame, Coded, Badness, Errors, Energies, PassOps, ValidInput,
      EnergyOps,
      Band, Channel, Place;
    InputFacts(p);
    var coef := if intra then 0 else PRED_COEF[lm];
    var beta := if intra then BETA_INTRA else BETA_COEF[lm];
    ReachedStart(enc, true, from, steps, p.f);
    PassStart(p, error[..]);
    RunningIs(enc, from, steps, p, 0, [0, 0], oldEBands[..], error[..], 0);
    badness := 0;
    var prev := [0, 0];
    ghost var k := 0;
    for i := start to end
      invariant k == Count(start, C, i) <= Total(p) && enc.storage == old(enc.storage)
      invariant old(enc.front) <= enc.front && enc.tail == old(enc.tail)
      invariant Running(enc, from, steps, p, k, prev, oldEBands[..], error[..], badness)
    {
      var c := 0;
      while c < C
        invariant c <= C && k == Count(start, C, i) + c <= Total(p) && enc.storage == old(enc.storage)
        invariant old(enc.front) <= enc.front && enc.tail == old(enc.tail)
        invariant Running(enc, from, steps, p, k, prev, oldEBands[..], error[..], badness)
      {
        Position(p.f, i, c, k);
        prev, badness := QuantValue(nb, start, end, i, c, eBands, oldEBands, error, prev, badness, coef, beta, budget,
                                    enc, C, lm, intra, maxDecay, lfe, p, k, from, steps);
        c, k := c + 1, k + 1;
      }
    }
    RunningIs(enc, from, steps, p, k, prev, oldEBands[..], error[..], badness);
    PassEnd(p, prev, oldEBands[..], error[..]);
    ReachedAt(enc, true, from, steps, p.f, Coded(p, k).qs);
  }

  lemma InputValid(p: Input, sp: Span, nb: nat, start: nat, end: nat, x: seq<int>, was: seq<int>, budget: int, C: nat,
                   lm: nat, intra: bool, maxDecay: int, lfe: bool)
    requires p == Input(Frame(sp, budget, start, C, lm, intra), nb, end, x, was, maxDecay, lfe)
    requires Proper(sp) && start <= end <= nb && 1 <= C <= 2 && lm <= 3 && |x| == |was| >= C * nb
    ensures ValidInput(p)
  {
    hide Proper;
  }

  /** quant_coarse_energy_impl: the steps, energies, errors and badness are those of the
      pass, whatever was in error[] before. */
  method QuantCoarseEnergyImpl(nb: nat, start: nat, end: nat, eBands: array<int>, oldEBands: array<int>, budget: int,
                               error: array<int>, enc: EcCtx, C: nat, lm: nat, intra: bool, maxDecay: int, lfe: bool,
                               ghost from: Origin, ghost steps: seq<Op>, ghost p: Input)
    returns (badness: nat)
    requires At(enc, true, from, steps) && start <= end <= nb && 1 <= C <= 2 && lm <= 3
    requires eBands.Length == oldEBands.Length == error.Length >= C * nb
    requires oldEBands != error && oldEBands != eBands && error != eBands
    requires var steps1 := steps + IntraOps(Run(from.sp, steps), budget, intra);
      p == Input(Frame(Run(from.sp, steps1), budget, start, C, lm, intra), nb, end, eBands[..], oldEBands[..],
                 maxDecay, lfe)
    modifies oldEBands, error, enc, enc.buf
    ensures ValidInput(p)
    ensures At(enc, true, from, steps + IntraOps(Run(from.sp, steps), budget, intra) + PassOps(p))
    ensures oldEBands[..] == Energies(p) && Errors(p, Coded(p, Total(p)).es, Total(p), error[..])
    ensures badness == if lfe then 0 else Badness(p, Total(p))
    ensures enc.storage == old(enc.storage)
    ensures old(enc.front) <= enc.front && enc.tail == old(enc.tail)
  {
    hide *;
    ghost var sp := SpanReached(enc, true, from, steps);
    LegalJoin(steps, IntraOps(sp, budget, intra));
    InputValid(p, Run(from.sp, steps + IntraOps(sp, budget, intra)), nb, start, end, eBands[..], oldEBands[..], budget,
               C, lm, intra, maxDecay, lfe);
    ghost var steps1 := steps + IntraOps(Run(from.sp, steps), budget, intra);
    var flag := CodeIntra(enc, true, intra, budget, from, steps);
    badness := QuantAll(nb, start, end, eBands, oldEBands, budget, error, enc, C, lm, intra, maxDecay, lfe, from,
                        steps1, p);
    if lfe { badness := 0; }
  }

  lemma BadnessNext(p: Input, k: nat, bad: nat)
    requires ValidInput(p) && k < Total(p) && bad == Abs(Rounded(p, Coded(p, k).es, k) - Coded(p, k + 1).es[k])
    ensures Badness(p, k + 1) == Badness(p, k) + bad
  {
    hide Coded, Rounded, Total;
  }

  lemma ReachedAt(ec: EcCtx, encode: bool, from: Origin, steps: seq<Op>, f: Frame, qs: seq<int>)
    requires Reached(ec, encode, from, steps, f, qs)
    ensures ValidFrame(f) && At(ec, encode, from, steps + EnergyOps(f, qs, |qs|))
  {
    hide At, AllFit;
  }
}
