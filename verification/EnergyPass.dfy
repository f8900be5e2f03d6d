/** One pass of the coarse energy encoder: every value, step, level and error as a
    function of what the pass is given. */
module EnergyPass {
  import opened Arith
  import opened Interval
  import opened EntCode
  import opened Duplex
  import opened Energy

  /** What a pass is given: the frame, the bands' energies and those before. */
  datatype Input = Input(f: Frame, nb: nat, end: nat, x: seq<int>, was: seq<int>, maxDecay: int, lfe: bool)

  predicate ValidInput(p: Input) {
    ValidFrame(p.f) && p.f.start <= p.end <= p.nb && |p.x| == |p.was| >= p.f.C * p.nb
  }

  function Total(p: Input): nat
    requires ValidInput(p)
  {
    Count(p.f.start, p.f.C, p.end)
  }

  lemma BandInside(p: Input, k: nat)
    requires ValidInput(p) && k < Total(p)
    ensures p.f.start <= Band(p.f, k) < p.end && Place(p.f, p.nb, k) < |p.x|
  {
    PlaceInside(p.f, p.nb, k);
  }

  /** All places up to here are inside. */
  lemma AllInside(p: Input, n: nat)
    requires ValidInput(p) && n <= Total(p)
    ensures Inside(p.f, p.nb, n, |p.was|)
  {
    if n > 0 { BandInside(p, n - 1); }
  }

  // ---------------------------------------------------- the values it chooses

  /** qi0: the nearest step, held up where the energy would fall too fast. */
  function HeldUp(x: int, was: int, predicted: int, maxDecay: int): int {
    var qi := (x - predicted + UNIT / 2) / UNIT;
    var bound := Max(-28 * UNIT, was - maxDecay);
    if qi < 0 && x < bound then Min(0, qi + (bound - x) / UNIT) else qi
  }

  /** The value after the measures that save bits for later bands. */
  function Spared(qi0: int, bitsLeft: int, start: nat, i: nat, lfe: bool): int {
    var capped := if i != start && bitsLeft < 24 then Min(1, qi0) else qi0;
    var raised := if i != start && bitsLeft < 16 then Max(-1, capped) else capped;
    if lfe && i >= 2 then Min(raised, 0) else raised
  }

  /** A value is held up only where the energy would fall below its bound.  It is then raised,
      not above zero, and short of that to within one and a half steps of the bound. */
  lemma HeldUpNear(x: int, was: int, predicted: int, maxDecay: int)
    ensures var r, bound := HeldUp(x, was, predicted, maxDecay), Max(-28 * UNIT, was - maxDecay);
      && (x >= bound || predicted <= x ==> 2 * Abs(predicted + r * UNIT - x) <= UNIT)
      && (2 * Abs(predicted + r * UNIT - x) > UNIT ==>
            x < bound && r <= 0 && predicted + r * UNIT > x
            && (r < 0 ==> -3 * UNIT < 2 * (predicted + r * UNIT - bound) <= UNIT))
  {
    var qi := (x - predicted + UNIT / 2) / UNIT;
    var bound := Max(-28 * UNIT, was - maxDecay);
    Steps(x - predicted + UNIT / 2);
    Steps(bound - x);
  }

  lemma Steps(d: int)
    ensures d / UNIT * UNIT <= d < d / UNIT * UNIT + UNIT
  {
  }

  /** Bits are only spared after the first band: with fewer than 24 left to it a value is at
      most one, with fewer than 16 also at least minus one; without low frequencies to save
      for, nothing else changes it. */
  lemma SparedCases(qi0: int, bitsLeft: int, start: nat, i: nat, lfe: bool)
    ensures var r := Spared(qi0, bitsLeft, start, i, lfe);
      && (!lfe || i < 2 ==>
            && (i == start || bitsLeft >= 24 ==> r == qi0)
            && (i != start && bitsLeft < 24 ==> r <= 1)
            && (i != start && bitsLeft < 16 ==> -1 <= r <= 1)
            && (-1 <= qi0 <= 1 ==> r == qi0) && (r != qi0 ==> r == 1 || r == -1) && (r < qi0 ==> r == 1))
      && (lfe && i >= 2 ==> r == Min(0, Spared(qi0, bitsLeft, start, i, false)))
  {
  }

  /** What the values es, the earlier ones, predict for value k. */
  function Ahead(p: Input, es: seq<int>, k: nat): int
    requires ValidInput(p) && k < Total(p) && k <= |es|
  {
    BandInside(p, k);
    Predicted(p.f, p.was[Place(p.f, p.nb, k)]) + Prev(p.f, es, k)
  }

  function Rounded(p: Input, es: seq<int>, k: nat): int
    requires ValidInput(p) && k < Total(p) && k <= |es|
  {
    BandInside(p, k);
    var at := Place(p.f, p.nb, k);
    HeldUp(p.x[at], p.was[at], Ahead(p, es, k), p.maxDecay)
  }

  function Wished(p: Input, es: seq<int>, sp: Span, k: nat): int
    requires ValidInput(p) && k < Total(p) && k <= |es|
  {
    Spared(Rounded(p, es, k), p.f.budget - Tell(sp) - 3 * p.f.C * (p.end - Band(p.f, k)), p.f.start, Band(p.f, k),
           p.lfe)
  }

  /** The values the encoder goes on with, and those it sent. */
  datatype Values = Values(es: seq<int>, qs: seq<int>)

  function Coded(p: Input, n: nat): (v: Values)
    requires ValidInput(p) && n <= Total(p)
    ensures |v.es| == |v.qs| == n
  {
    hide Chosen, Wished, SpanAt, Sent, Total;
    if n == 0 then Values([], [])
    else
      var v := Coded(p, n - 1);
      var sp := SpanAt(p.f, v.qs, n - 1);
      var e := Chosen(p.f, sp, n - 1, Wished(p, v.es, sp, n - 1));
      Values(v.es + [e], v.qs + [Sent(p.f, sp, e)])
  }

  /** The span value k is coded from. */
  function SpanOf(p: Input, k: nat): (sp: Span)
    requires ValidInput(p) && k <= Total(p)
    ensures Proper(sp)
  {
    hide SpanAt;
    SpanAt(p.f, Coded(p, k).qs, k)
  }

  /** How far the choices are from the nearest steps. */
  function Badness(p: Input, n: nat): nat
    requires ValidInput(p) && n <= Total(p)
  {
    if n == 0 then 0
    else Badness(p, n - 1) + Abs(Rounded(p, Coded(p, n - 1).es, n - 1) - Coded(p, n).es[n - 1])
  }

  /** oldEBands[] as the pass leaves it. */
  function Energies(p: Input): (now: seq<int>)
    requires ValidInput(p)
    ensures |now| == |p.was|
  {
    AllInside(p, Total(p));
    Filled(p.f, p.nb, Coded(p, Total(p)).es, Total(p), p.was, false)
  }

  /** The steps of the pass. */
  function PassOps(p: Input): (ops: seq<Op>)
    requires ValidInput(p)
    ensures AllLegal(ops)
  {
    EnergyOps(p.f, Coded(p, Total(p)).qs, Total(p))
  }

  // -------------------------------------------------- what the choices amount to

  /** The earlier values are the same whenever the pass stops. */
  lemma {:induction false} CodedPrefix(p: Input, m: nat, n: nat)
    requires ValidInput(p) && m <= n <= Total(p)
    ensures Coded(p, n).es[..m] == Coded(p, m).es && Coded(p, n).qs[..m] == Coded(p, m).qs
    decreases n
  {
    hide Chosen, Wished, SpanAt, Sent;
    if m < n {
      CodedPrefix(p, m, n - 1);
      var v := Coded(p, n - 1);
      assert Coded(p, n).es[..m] == v.es[..m] && Coded(p, n).qs[..m] == v.qs[..m];
    }
  }

  /** One value of a longer pass. */
  lemma ValueOf(p: Input, k: nat, n: nat)
    requires ValidInput(p) && k < n <= Total(p)
    ensures SpanAt(p.f, Coded(p, n).qs, k) == SpanOf(p, k)
    ensures var v, sp := Coded(p, k), SpanOf(p, k);
      var e := Chosen(p.f, sp, k, Wished(p, v.es, sp, k));
      Coded(p, n).es[k] == e && Coded(p, n).qs[k] == Sent(p.f, sp, e)
  {
    hide Chosen, Wished, Sent, EnergyOps;
    CodedPrefix(p, k, n);
    CodedPrefix(p, k + 1, n);
    FitPrefix(p.f, Coded(p, n).qs, Coded(p, k).qs, k);
    assert Coded(p, n).es[..k + 1][k] == Coded(p, n).es[k] && Coded(p, n).qs[..k + 1][k] == Coded(p, n).qs[k];
  }

  lemma NearestFits(f: Frame, sp: Span, k: nat, wish: int)
    requires ValidFrame(f)
    ensures Sendable(f, sp, k, Sent(f, sp, Chosen(f, sp, k, wish)))
  {
    hide Peak, DecayOf, Tell;
  }

  lemma {:induction false} CodedFits(p: Input, n: nat)
    requires ValidInput(p) && n <= Total(p)
    ensures AllFit(p.f, Coded(p, n).qs, n)
  {
    hide Chosen, Wished, SpanAt, Sent, Sendable;
    if n > 0 {
      CodedFits(p, n - 1);
      CodedPrefix(p, n - 1, n);
      FitPrefix(p.f, Coded(p, n).qs, Coded(p, n - 1).qs, n - 1);
      ValueOf(p, n - 1, n);
      var sp := SpanOf(p, n - 1);
      NearestFits(p.f, sp, n - 1, Wished(p, Coded(p, n - 1).es, sp, n - 1));
    }
  }

  /** The pass loses value k: it is in the first band, exactly one bit is left, and the
      encoder would like less than minus one. */
  predicate Loses(p: Input, k: nat)
    requires ValidInput(p)
  {
    && k < Total(p) && k < p.f.C && p.f.budget - Tell(SpanOf(p, k)) == 1
    && Wished(p, Coded(p, k).es, SpanOf(p, k), k) < -1
  }

  /** In later bands the value is raised before that. */
  lemma SparedLater(p: Input, k: nat)
    requires ValidInput(p) && p.f.C <= k < Total(p)
    requires p.f.budget - Tell(SpanOf(p, k)) == 1
    ensures Wished(p, Coded(p, k).es, SpanOf(p, k), k) >= -1
  {
    BandInside(p, k);
    LaterBands(p.f, k);
    ToCome(p.f.C, p.end - Band(p.f, k));
    hide *;
    SparedLow(Rounded(p, Coded(p, k).es, k), p.f.budget - Tell(SpanOf(p, k)) - 3 * p.f.C * (p.end - Band(p.f, k)),
              p.f.start, Band(p.f, k), p.lfe);
    WishedIs(p, k);
  }

  lemma WishedIs(p: Input, k: nat)
    requires ValidInput(p) && k < Total(p)
    ensures Wished(p, Coded(p, k).es, SpanOf(p, k), k)
            == Spared(Rounded(p, Coded(p, k).es, k),
                      p.f.budget - Tell(SpanOf(p, k)) - 3 * p.f.C * (p.end - Band(p.f, k)),
                      p.f.start, Band(p.f, k), p.lfe)
  {
    hide Rounded, Tell, SpanOf, Spared, Coded;
  }

  lemma SparedLow(qi0: int, bitsLeft: int, start: nat, i: nat, lfe: bool)
    requires i != start && bitsLeft < 16
    ensures Spared(qi0, bitsLeft, start, i, lfe) >= -1
  {
  }

  lemma ToCome(C: nat, bands: nat)
    ensures 3 * C * bands >= 0
  {
  }

  lemma LaterBands(f: Frame, k: nat)
    requires ValidFrame(f)
    ensures k >= f.C <==> Band(f, k) != f.start
  {
  }

  lemma SentOf(p: Input, k: nat, n: nat)
    requires ValidInput(p) && k < n <= Total(p)
    ensures Coded(p, n).es[k] == Coded(p, n).qs[k] <==> !Loses(p, k)
    ensures Loses(p, k) ==> Coded(p, n).es[k] < -1 == Coded(p, n).qs[k]
  {
    ValueOf(p, k, n);
    if k >= p.f.C && p.f.budget - Tell(SpanOf(p, k)) == 1 { SparedLater(p, k); }
    hide Wished, Tell, SpanOf, Coded;
  }

  /** What the decoder gets is what the encoder went on with exactly when neither value
      of the first band is lost. */
  lemma SentExactly(p: Input)
    requires ValidInput(p)
    ensures var v := Coded(p, Total(p)); v.es == v.qs <==> !Loses(p, 0) && !Loses(p, 1)
  {
    var n := Total(p);
    forall k | 0 <= k < n ensures Coded(p, n).es[k] == Coded(p, n).qs[k] <==> !Loses(p, k) { SentOf(p, k, n); }
    hide Coded, SpanOf, Wished, Tell, Total;
    if Loses(p, 0) || Loses(p, 1) {
      var k := if Loses(p, 0) then 0 else 1;
      assert Coded(p, n).es[k] != Coded(p, n).qs[k];
    }
  }

  /** The badness is zero exactly when every value is the nearest step, or that held up. */
  lemma {:induction false} BadnessZero(p: Input, n: nat)
    requires ValidInput(p) && n <= Total(p)
    ensures Badness(p, n) == 0 <==> forall k :: 0 <= k < n ==> Coded(p, n).es[k] == Rounded(p, Coded(p, k).es, k)
  {
    hide Coded, Rounded;
    if n > 0 {
      BadnessZero(p, n - 1);
      CodedPrefix(p, n - 1, n);
      forall k | 0 <= k < n - 1 ensures Coded(p, n).es[k] == Coded(p, n - 1).es[k] {
        assert Coded(p, n).es[..n - 1][k] == Coded(p, n).es[k];
      }
    }
  }

  /** What the coded energy misses. */
  function Missing(p: Input, es: seq<int>, k: nat): int
    requires ValidInput(p) && k < Total(p) && k < |es|
  {
    BandInside(p, k);
    p.x[Place(p.f, p.nb, k)] - (Ahead(p, es, k) + Shift(es[k]))
  }

  /** error[] holds that for the first n values. */
  ghost predicate Errors(p: Input, es: seq<int>, n: nat, error: seq<int>)
    requires ValidInput(p) && n <= Total(p)
  {
    && n <= |es| && |error| == |p.x|
    && (forall k :: 0 <= k < n ==> Place(p.f, p.nb, k) < |error| && error[Place(p.f, p.nb, k)] == Missing(p, es, k))
  }

  /** A value that is the nearest step misses at most half a step, unless it was held up
      or left the range SHL32 keeps. */
  lemma MissesHalf(p: Input, k: nat, n: nat)
    requires ValidInput(p) && k < n <= Total(p) && Coded(p, n).es[k] == Rounded(p, Coded(p, k).es, k)
    requires -128 <= Coded(p, n).es[k] < 128
    ensures Missing(p, Coded(p, n).es, k) < UNIT / 2
    ensures Place(p.f, p.nb, k) < |p.x|
    ensures p.x[Place(p.f, p.nb, k)] >= Max(-28 * UNIT, p.was[Place(p.f, p.nb, k)] - p.maxDecay) ==>
              Missing(p, Coded(p, n).es, k) >= -UNIT / 2
  {
    hide *;
    BandInside(p, k);
    SameAhead(p, k, n);
    RoundedIs(p, Coded(p, k).es, k);
    MissingIs(p, Coded(p, n).es, k);
    ShiftExact(Coded(p, n).es[k]);
    HeldUpMiss(p.x[Place(p.f, p.nb, k)], p.was[Place(p.f, p.nb, k)], Ahead(p, Coded(p, k).es, k), p.maxDecay);
  }

  lemma SameAhead(p: Input, k: nat, n: nat)
    requires ValidInput(p) && k < n <= Total(p)
    ensures Ahead(p, Coded(p, n).es, k) == Ahead(p, Coded(p, k).es, k)
  {
    CodedPrefix(p, k, n);
    hide Coded, Predicted, Prev, Place;
    PrevPrefix(p.f, Coded(p, n).es, Coded(p, k).es, k);
  }

  lemma RoundedIs(p: Input, es: seq<int>, k: nat)
    requires ValidInput(p) && k < Total(p) && k <= |es|
    ensures Place(p.f, p.nb, k) < |p.x| == |p.was|
    ensures Rounded(p, es, k)
            == HeldUp(p.x[Place(p.f, p.nb, k)], p.was[Place(p.f, p.nb, k)], Ahead(p, es, k), p.maxDecay)
  {
    BandInside(p, k);
    hide Ahead, HeldUp, Place;
  }

  lemma MissingIs(p: Input, es: seq<int>, k: nat)
    requires ValidInput(p) && k < Total(p) && k < |es|
    ensures Place(p.f, p.nb, k) < |p.x|
    ensures Missing(p, es, k) == p.x[Place(p.f, p.nb, k)] - (Ahead(p, es, k) + Shift(es[k]))
  {
    BandInside(p, k);
    hide Ahead, Shift, Place;
  }

  lemma HeldUpMiss(x: int, was: int, predicted: int, maxDecay: int)
    ensures var e := x - (predicted + HeldUp(x, was, predicted, maxDecay) * UNIT);
      e < UNIT / 2 && (x >= Max(-28 * UNIT, was - maxDecay) ==> e >= -UNIT / 2)
  {
    Steps(x - predicted + UNIT / 2);
  }

  lemma ShiftExact(q: int)
    requires -128 <= q < 128
    ensures Shift(q) == q * UNIT
  {
  }
}
