/** Band boosts: for each band, flags that raise its share of the bits, as long as there
    are bits for them. */
module Boosts {
  import opened Arith
  import opened Interval
  import opened EntCode
  import opened Duplex
  import opened TellFrac

  /** A band: what one flag adds, in eighth-bits, and the most it can have. */
  datatype Boosted = Boosted(quanta: nat, cap: int)

  /** Where a band's flags begin: the span, the eighth-bits not promised yet, and the
      model of the first flag. */
  datatype BoostState = BoostState(sp: Span, total: int, logp: nat)

  predicate ValidState(s: BoostState) { Proper(s.sp) && 1 <= s.logp <= 6 }

  /** The first flag of a band is unlikely, the next ones are not. */
  function FlagLogp(s: BoostState, k: nat): (logp: nat)
    requires ValidState(s)
    ensures 1 <= logp <= 6
  {
    if k == 0 then s.logp else 1
  }

  /** n flags of value one. */
  function BoostFlags(s: BoostState, n: nat): (ops: seq<Op>)
    requires ValidState(s)
    ensures AllLegal(ops) && |ops| == n
  {
    if n == 0 then [] else BoostFlags(s, n - 1) + [BitOp(true, FlagLogp(s, n - 1))]
  }

  function FlagSpan(s: BoostState, n: nat): (sp: Span)
    requires ValidState(s)
    ensures Proper(sp)
  {
    Run(s.sp, BoostFlags(s, n))
  }

  /** The boost after n flags. */
  function BoostOf(band: Boosted, n: nat): (b: nat) {
    MulNat(n, band.quanta);
    n * band.quanta
  }

  /** After n flags there is room for another. */
  predicate HasRoom(s: BoostState, band: Boosted, n: nat)
    requires ValidState(s)
  {
    && TellEighths(FlagSpan(s, n)) + 8 * FlagLogp(s, n) < s.total - BoostOf(band, n)
    && BoostOf(band, n) < band.cap
  }

  /** The band can be boosted n times. */
  predicate CanBoost(s: BoostState, band: Boosted, n: nat)
    requires ValidState(s)
  {
    forall k: nat :: k < n ==> HasRoom(s, band, k)
  }

  /** Its flags: n of value one, and a zero if there is room. */
  function BandOps(s: BoostState, band: Boosted, n: nat): (ops: seq<Op>)
    requires ValidState(s)
    ensures AllLegal(ops)
  {
    BoostFlags(s, n) + if HasRoom(s, band, n) then [BitOp(false, FlagLogp(s, n))] else []
  }

  /** A boosted band makes the next boosts likelier. */
  function NextBand(s: BoostState, band: Boosted, n: nat): (r: BoostState)
    requires ValidState(s)
    ensures ValidState(r)
  {
    BoostState(Run(s.sp, BandOps(s, band, n)), s.total - BoostOf(band, n), if n > 0 then Max(2, s.logp - 1) else s.logp)
  }

  /** All bands, from this state on. */
  datatype BoostInput = BoostInput(sp: Span, total: int, bands: seq<Boosted>)

  function StateAt(f: BoostInput, ns: seq<nat>, i: nat): (s: BoostState)
    requires Proper(f.sp) && i <= |ns| && i <= |f.bands|
    ensures ValidState(s)
  {
    hide Run, BandOps;
    if i == 0 then BoostState(f.sp, f.total, 6) else NextBand(StateAt(f, ns, i - 1), f.bands[i - 1], ns[i - 1])
  }

  function BoostOps(f: BoostInput, ns: seq<nat>, i: nat): (ops: seq<Op>)
    requires Proper(f.sp) && i <= |ns| && i <= |f.bands|
    ensures AllLegal(ops)
  {
    hide BandOps;
    if i == 0 then [] else BoostOps(f, ns, i - 1) + BandOps(StateAt(f, ns, i - 1), f.bands[i - 1], ns[i - 1])
  }

  predicate AllCan(f: BoostInput, ns: seq<nat>, i: nat)
    requires Proper(f.sp) && i <= |ns| && i <= |f.bands|
  {
    i == 0 || (AllCan(f, ns, i - 1) && CanBoost(StateAt(f, ns, i - 1), f.bands[i - 1], ns[i - 1]))
  }

  /** What all boosts so far promise. */
  function Promised(f: BoostInput, ns: seq<nat>, i: nat): nat
    requires Proper(f.sp) && i <= |ns| && i <= |f.bands|
  {
    if i == 0 then 0 else Promised(f, ns, i - 1) + BoostOf(f.bands[i - 1], ns[i - 1])
  }

  lemma {:induction false} StateIs(f: BoostInput, ns: seq<nat>, i: nat)
    requires Proper(f.sp) && i <= |ns| && i <= |f.bands|
    ensures StateAt(f, ns, i).sp == Run(f.sp, BoostOps(f, ns, i))
    ensures StateAt(f, ns, i).total == f.total - Promised(f, ns, i)
  {
    hide Run, BandOps;
    if i > 0 {
      StateIs(f, ns, i - 1);
      RunConcat(f.sp, BoostOps(f, ns, i - 1), BandOps(StateAt(f, ns, i - 1), f.bands[i - 1], ns[i - 1]));
    } else {
      RunNone(f.sp);
    }
  }

  // ---------------------------------------------------------- the flags' models

  /** How many of the first i bands are boosted. */
  function BoostedBands(ns: seq<nat>, i: nat): nat
    requires i <= |ns|
  {
    if i == 0 then 0 else BoostedBands(ns, i - 1) + if ns[i - 1] > 0 then 1 else 0
  }

  /** The first flag of a band costs six bits, one less for every band boosted before it,
      but never less than two. */
  lemma {:induction false} FirstLogp(f: BoostInput, ns: seq<nat>, i: nat)
    requires Proper(f.sp) && i <= |ns| && i <= |f.bands|
    ensures StateAt(f, ns, i).logp == Max(2, 6 - BoostedBands(ns, i))
  {
    hide Run, BandOps;
    if i > 0 { FirstLogp(f, ns, i - 1); }
  }

  /** The other flags cost one bit each, the zero that ends them too. */
  lemma {:induction false} LaterLogp(s: BoostState, n: nat, k: nat)
    requires ValidState(s) && k < n
    ensures BoostFlags(s, n)[k] == BitOp(true, if k == 0 then s.logp else 1)
    ensures FlagLogp(s, n) == 1
  {
    hide BitOp;
    if k < n - 1 { LaterLogp(s, n - 1, k); }
  }

  // -------------------------------------------------------------- the budget

  lemma FlagNext(s: BoostState, n: nat)
    requires ValidState(s)
    ensures BoostFlags(s, n + 1) == BoostFlags(s, n) + [BitOp(true, FlagLogp(s, n))]
    ensures FlagSpan(s, n + 1) == Step(FlagSpan(s, n), BitOp(true, FlagLogp(s, n)))
  {
    hide Run, Step;
    RunSnoc(s.sp, BoostFlags(s, n), BitOp(true, FlagLogp(s, n)));
  }

  /** A flag costs at most what the code sets aside for it. */
  lemma FlagCost(sp: Span, v: bool, logp: nat)
    requires Proper(sp) && 1 <= logp <= 6
    ensures TellEighths(sp) <= TellEighths(Step(sp, BitOp(v, logp))) <= TellEighths(sp) + 8 * logp
  {
    hide TellEighths, Step;
    StepEighths(sp, BitOp(v, logp), logp);
    StepEighthsMono(sp, BitOp(v, logp));
  }

  /** A band's flags stay within the bits not promised. */
  lemma {:induction false} FlagsWithin(s: BoostState, band: Boosted, n: nat)
    requires ValidState(s) && CanBoost(s, band, n)
    ensures TellEighths(s.sp) <= TellEighths(FlagSpan(s, n)) <= Max(TellEighths(s.sp), s.total)
  {
    hide TellEighths, Run, Step, FlagSpan;
    if n > 0 {
      FlagsWithin(s, band, n - 1);
      assert HasRoom(s, band, n - 1);
      FlagNext(s, n - 1);
      FlagCost(FlagSpan(s, n - 1), true, FlagLogp(s, n - 1));
    } else {
      NoFlags(s);
    }
  }

  lemma NoFlags(s: BoostState)
    requires ValidState(s)
    ensures FlagSpan(s, 0) == s.sp && BoostFlags(s, 0) == []
  {
    RunNone(s.sp);
  }

  lemma BandWithin(s: BoostState, band: Boosted, n: nat)
    requires ValidState(s) && CanBoost(s, band, n)
    ensures TellEighths(FlagSpan(s, n)) <= TellEighths(Run(s.sp, BandOps(s, band, n))) <= Max(TellEighths(s.sp),
                                                                                              s.total)
    ensures HasRoom(s, band, n) ==>
              Run(s.sp, BandOps(s, band, n)) == Step(FlagSpan(s, n), BitOp(false, FlagLogp(s, n)))
  {
    FlagsWithin(s, band, n);
    hide TellEighths, Run, Step;
    if HasRoom(s, band, n) {
      RunSnoc(s.sp, BoostFlags(s, n), BitOp(false, FlagLogp(s, n)));
      FlagCost(FlagSpan(s, n), false, FlagLogp(s, n));
    } else {
      assert BoostFlags(s, n) + [] == BoostFlags(s, n);
    }
  }

  /** All flags together stay within what they started from. */
  lemma {:induction false} BoostsWithin(f: BoostInput, ns: seq<nat>, i: nat)
    requires Proper(f.sp) && i <= |ns| && i <= |f.bands| && AllCan(f, ns, i)
    ensures TellEighths(f.sp) <= TellEighths(StateAt(f, ns, i).sp) <= Max(TellEighths(f.sp), f.total)
  {
    hide TellEighths, Run, BandOps, CanBoost, FlagSpan;
    if i > 0 {
      BoostsWithin(f, ns, i - 1);
      var s := StateAt(f, ns, i - 1);
      StateIs(f, ns, i - 1);
      BandWithin(s, f.bands[i - 1], ns[i - 1]);
      FlagsWithin(s, f.bands[i - 1], ns[i - 1]);
    }
  }

  // ---------------------------------------------------------------- lockstep

  lemma {:induction false} FlagsPrefix(s: BoostState, m: nat, n: nat) returns (more: seq<Op>)
    requires ValidState(s) && m < n
    ensures AllLegal(more) && BoostFlags(s, n) == BoostFlags(s, m) + [BitOp(true, FlagLogp(s, m))] + more
    decreases n
  {
    hide BitOp;
    if m == n - 1 {
      more := [];
    } else {
      var init := FlagsPrefix(s, m, n - 1);
      more := init + [BitOp(true, FlagLogp(s, n - 1))];
    }
  }

  /** A packet that boosts a band more often has a one where the other has its zero. */
  lemma BandLess(buf: seq<byte>, s: BoostState, band: Boosted, m: nat, n: nat)
    requires ValidState(s) && CanBoost(s, band, n) && m < n
    ensures !(Carries(buf, s.sp, BandOps(s, band, m)) && Carries(buf, s.sp, BandOps(s, band, n)))
  {
    assert HasRoom(s, band, m);
    var more := FlagsPrefix(s, m, n);
    hide Carries, Run, ReadsOp, HasRoom, BoostFlags, BitOp;
    if Carries(buf, s.sp, BandOps(s, band, m)) && Carries(buf, s.sp, BandOps(s, band, n)) {
      var init, logp := BoostFlags(s, m), FlagLogp(s, m);
      var rest := more + if HasRoom(s, band, n) then [BitOp(false, FlagLogp(s, n))] else [];
      assert BandOps(s, band, n) == init + [BitOp(true, logp)] + rest;
      CarriesConcat(buf, s.sp, init + [BitOp(true, logp)], rest);
      CarriesSnoc(buf, s.sp, init, BitOp(true, logp));
      CarriesSnoc(buf, s.sp, init, BitOp(false, logp));
      BitOnce(buf, Run(s.sp, init), false, true, logp);
    }
  }

  /** One packet, one number of boosts for every band. */
  lemma {:induction false} BoostsOnce(buf: seq<byte>, f: BoostInput, a: seq<nat>, b: seq<nat>, i: nat)
    requires Proper(f.sp) && i <= |a| && i <= |b| && i <= |f.bands| && AllCan(f, a, i) && AllCan(f, b, i)
    requires Carries(buf, f.sp, BoostOps(f, a, i)) && Carries(buf, f.sp, BoostOps(f, b, i))
    ensures a[..i] == b[..i] && BoostOps(f, a, i) == BoostOps(f, b, i) && StateAt(f, a, i) == StateAt(f, b, i)
  {
    hide Carries, Run, BandOps, CanBoost;
    if i > 0 {
      var s, t := StateAt(f, a, i - 1), StateAt(f, b, i - 1);
      StateIs(f, a, i - 1);
      StateIs(f, b, i - 1);
      CarriesConcat(buf, f.sp, BoostOps(f, a, i - 1), BandOps(s, f.bands[i - 1], a[i - 1]));
      CarriesConcat(buf, f.sp, BoostOps(f, b, i - 1), BandOps(t, f.bands[i - 1], b[i - 1]));
      BoostsOnce(buf, f, a, b, i - 1);
      if a[i - 1] < b[i - 1] { BandLess(buf, s, f.bands[i - 1], a[i - 1], b[i - 1]); }
      if b[i - 1] < a[i - 1] { BandLess(buf, s, f.bands[i - 1], b[i - 1], a[i - 1]); }
      assert a[..i] == a[..i - 1] + [a[i - 1]] && b[..i] == b[..i - 1] + [b[i - 1]];
    }
  }

  // ------------------------------------------------------ a smaller packet

  lemma {:induction false} FlagsSame(s: BoostState, t: BoostState, n: nat)
    requires ValidState(s) && ValidState(t) && t == s.(total := t.total)
    ensures BoostFlags(s, n) == BoostFlags(t, n)
  {
    hide BitOp;
    if n > 0 { FlagsSame(s, t, n - 1); }
  }

  lemma {:induction false} FlagsMono(s: BoostState, band: Boosted, m: nat, n: nat)
    requires ValidState(s) && m <= n
    ensures TellEighths(FlagSpan(s, m)) <= TellEighths(FlagSpan(s, n)) && BoostOf(band, m) <= BoostOf(band, n)
    decreases n
  {
    hide TellEighths, Run, Step, FlagSpan;
    MulMono(m, n, band.quanta);
    if m < n {
      FlagsMono(s, band, m, n - 1);
      FlagNext(s, n - 1);
      FlagCost(FlagSpan(s, n - 1), true, FlagLogp(s, n - 1));
    }
  }

  /** With six bits to spare after a band, its flags do not depend on the budget. */
  lemma BandSame(s: BoostState, t: BoostState, band: Boosted, n: nat)
    requires ValidState(s) && ValidState(t) && t == s.(total := t.total) && CanBoost(s, band, n)
    requires TellEighths(Run(s.sp, BandOps(s, band, n))) + BoostOf(band, n) + 48 < s.total
    requires TellEighths(Run(s.sp, BandOps(s, band, n))) + BoostOf(band, n) + 48 < t.total
    ensures CanBoost(t, band, n) && BandOps(t, band, n) == BandOps(s, band, n)
  {
    BandWithin(s, band, n);
    hide TellEighths, Run, BandOps, BoostFlags;
    forall k: nat | k <= n ensures HasRoom(t, band, k) <==> HasRoom(s, band, k) {
      FlagsMono(s, band, k, n);
      FlagsSame(s, t, k);
    }
    BandOpsSame(s, t, band, n);
  }

  lemma BandOpsSame(s: BoostState, t: BoostState, band: Boosted, n: nat)
    requires ValidState(s) && ValidState(t) && t == s.(total := t.total) && (HasRoom(t, band, n) <==> HasRoom(s, band,
                                                                                                              n))
    ensures BandOps(t, band, n) == BandOps(s, band, n)
  {
    hide HasRoom, BoostFlags, BitOp;
    FlagsSame(s, t, n);
  }

  /** So a packet may be made smaller after the flags, as long as six bits are left
      besides what the boosts promise: the flags are the same. */
  lemma {:induction false} BoostsSame(f: BoostInput, g: BoostInput, ns: seq<nat>, i: nat)
    requires Proper(f.sp) && g == f.(total := g.total) && i <= |ns| && i <= |f.bands| && AllCan(f, ns, i)
    requires TellEighths(StateAt(f, ns, i).sp) + Promised(f, ns, i) + 48 < f.total
    requires TellEighths(StateAt(f, ns, i).sp) + Promised(f, ns, i) + 48 < g.total
    ensures AllCan(g, ns, i) && BoostOps(g, ns, i) == BoostOps(f, ns, i) && Promised(g, ns, i) == Promised(f, ns, i)
    ensures StateAt(g, ns, i) == StateAt(f, ns, i).(total := StateAt(g, ns, i).total)
  {
    hide *;
    if i > 0 {
      var s, t, band, n := StateAt(f, ns, i - 1), StateAt(g, ns, i - 1), f.bands[i - 1], ns[i - 1];
      OneBand(f, ns, i - 1);
      OneBand(g, ns, i - 1);
      StateIs(f, ns, i - 1);
      StateIs(g, ns, i - 1);
      BandWithin(s, band, n);
      FlagsWithin(s, band, n);
      NextBandIs(s, band, n);
      BoostsSame(f, g, ns, i - 1);
      BandSame(s, t, band, n);
      NextBandIs(t, band, n);
    } else {
      NoBand(f, ns);
      NoBand(g, ns);
    }
  }

  lemma OneBand(f: BoostInput, ns: seq<nat>, i: nat)
    requires Proper(f.sp) && i < |ns| && i < |f.bands|
    ensures ValidState(StateAt(f, ns, i)) && StateAt(f, ns, i + 1) == NextBand(StateAt(f, ns, i), f.bands[i], ns[i])
    ensures BoostOps(f, ns, i + 1) == BoostOps(f, ns, i) + BandOps(StateAt(f, ns, i), f.bands[i], ns[i])
    ensures AllCan(f, ns, i + 1) <==> AllCan(f, ns, i) && CanBoost(StateAt(f, ns, i), f.bands[i], ns[i])
    ensures Promised(f, ns, i + 1) == Promised(f, ns, i) + BoostOf(f.bands[i], ns[i])
  {
    hide NextBand, BandOps, CanBoost, BoostOf;
  }

  lemma NoBand(f: BoostInput, ns: seq<nat>)
    requires Proper(f.sp)
    ensures StateAt(f, ns, 0) == BoostState(f.sp, f.total, 6) && BoostOps(f, ns, 0) == [] && AllCan(f, ns, 0)
    ensures Promised(f, ns, 0) == 0
  {
  }

  lemma NextBandIs(s: BoostState, band: Boosted, n: nat)
    requires ValidState(s)
    ensures NextBand(s, band, n).sp == Run(s.sp, BandOps(s, band, n))
    ensures NextBand(s, band, n).total == s.total - BoostOf(band, n)
    ensures NextBand(s, band, n).logp == if n > 0 then Max(2, s.logp - 1) else s.logp
  {
  }

  // ------------------------------------------------------------- both sides

  /** ec_tell_frac, wherever either side is. */
  method TellFracAt(ec: EcCtx, encode: bool, ghost from: Origin, ghost steps: seq<Op>) returns (frac: int)
    requires At(ec, encode, from, steps)
    ensures frac == TellEighths(Run(from.sp, steps))
  {
    TellAt(ec, encode, from, steps);
    RangeBits(Run(from.sp, steps));
    hide Run, At;
    frac := EcTellFrac(ec.nbitsTotal, ec.rng);
  }

  /** How often an encoder boosts: as often as it wants, while there is room. */
  predicate Asked(s: BoostState, band: Boosted, want: int, n: nat)
    requires ValidState(s)
  {
    n <= Max(want, 0) && (n < want ==> !HasRoom(s, band, n))
  }

  /** The flags of one band are coded so far. */
  ghost predicate InBand(ec: EcCtx, encode: bool, from: Origin, steps: seq<Op>, s: BoostState, band: Boosted, n: nat)
    reads ec, ec.buf
  {
    && ValidState(s) && Placed(from, encode) && AllLegal(steps) && s.sp == Run(from.sp, steps) && CanBoost(s, band, n)
    && At(ec, encode, from, steps + BoostFlags(s, n))
  }

  lemma InBandStart(ec: EcCtx, encode: bool, from: Origin, steps: seq<Op>, s: BoostState, band: Boosted)
    requires At(ec, encode, from, steps) && ValidState(s) && s.sp == Run(from.sp, steps)
    ensures InBand(ec, encode, from, steps, s, band, 0)
  {
    NoFlags(s);
    assert steps + [] == steps;
    hide Run, EcCtx.ValidEnc, EcCtx.ValidDec, Carries;
  }

  /** One more flag. */
  method CodeFlag(ec: EcCtx, encode: bool, flag0: bool, logp: nat, ghost from: Origin, ghost steps: seq<Op>,
                  ghost s: BoostState, ghost band: Boosted, ghost n: nat)
    returns (flag: bool, tell: int)
    requires InBand(ec, encode, from, steps, s, band, n) && HasRoom(s, band, n) && logp == FlagLogp(s, n)
    modifies ec, ec.buf
    ensures encode ==> flag == flag0
    ensures flag ==> InBand(ec, encode, from, steps, s, band, n + 1) && tell == TellEighths(FlagSpan(s, n + 1))
    ensures !flag ==> At(ec, encode, from, steps + BandOps(s, band, n))
                      && tell == TellEighths(Run(s.sp, BandOps(s, band, n)))
    ensures ec.storage == old(ec.storage)
  {
    hide Run, At, TellEighths, HasRoom, BoostFlags, BitOp;
    flag := CodeBit(ec, encode, flag0, logp, from, steps + BoostFlags(s, n));
    OpsAssoc(steps, BoostFlags(s, n), [BitOp(flag, logp)]);
    FlagNext(s, n);
    assert BoostFlags(s, n) + [BitOp(flag, logp)] == if flag then BoostFlags(s, n + 1) else BandOps(s, band, n);
    tell := TellFracAt(ec, encode, from, steps + (BoostFlags(s, n) + [BitOp(flag, logp)]));
    RunConcat(from.sp, steps, BoostFlags(s, n) + [BitOp(flag, logp)]);
  }

  /** The flags of one band. */
  method CodeBand(ec: EcCtx, encode: bool, want: int, quanta: nat, cap: int, total0: int, logp: nat, tell0: int,
                  ghost from: Origin, ghost steps: seq<Op>, ghost s: BoostState)
    returns (boost: nat, total: int, tell: int, ghost n: nat)
    requires At(ec, encode, from, steps) && ValidState(s) && quanta > 0
    requires s == BoostState(Run(from.sp, steps), total0, logp) && tell0 == TellEighths(s.sp)
    modifies ec, ec.buf
    ensures var band := Boosted(quanta, cap);
      && CanBoost(s, band, n) && At(ec, encode, from, steps + BandOps(s, band, n))
      && boost == BoostOf(band, n) && total == total0 - boost && tell == TellEighths(Run(s.sp, BandOps(s, band, n)))
      && (encode ==> Asked(s, band, want, n))
    ensures ec.storage == old(ec.storage)
  {
    hide Run, At, TellEighths, BoostFlags, FlagSpan;
    ghost var band := Boosted(quanta, cap);
    boost, total, tell, n := 0, total0, tell0, 0;
    var loopLogp, j := logp, 0;
    NoFlags(s);
    InBandStart(ec, encode, from, steps, s, band);
    while tell + 8 * loopLogp < total && boost < cap
      invariant InBand(ec, encode, from, steps, s, band, n) && ec.storage == old(ec.storage)
      invariant j == n && boost == BoostOf(band, n) && total == total0 - boost && tell == TellEighths(FlagSpan(s, n))
      invariant loopLogp == FlagLogp(s, n) && (encode ==> n <= Max(want, 0))
      decreases cap - boost
    {
      var flag;
      flag, tell := CodeFlag(ec, encode, j < want, loopLogp, from, steps, s, band, n);
      if !flag { return; }
      Distribute(n, quanta);
      boost := boost + quanta;
      total := total - quanta;
      loopLogp := 1;
      j := j + 1;
      n := j;
    }
    assert BoostFlags(s, n) + [] == BoostFlags(s, n);
    assert FlagSpan(s, n) == Run(s.sp, BoostFlags(s, n)) by { FlagSpanIs(s, n); }
  }

  lemma FlagSpanIs(s: BoostState, n: nat)
    requires ValidState(s)
    ensures FlagSpan(s, n) == Run(s.sp, BoostFlags(s, n))
  {
  }

  lemma Distribute(n: nat, q: nat)
    ensures (n + 1) * q == n * q + q
  {
  }

  /** Only the counts so far matter. */
  lemma {:induction false} BoostPrefix(f: BoostInput, v: seq<nat>, w: seq<nat>, i: nat)
    requires Proper(f.sp) && i <= |v| && i <= |w| && i <= |f.bands| && v[..i] == w[..i]
    ensures StateAt(f, v, i) == StateAt(f, w, i) && BoostOps(f, v, i) == BoostOps(f, w, i)
    ensures AllCan(f, v, i) == AllCan(f, w, i) && Promised(f, v, i) == Promised(f, w, i)
  {
    hide NextBand, BandOps, CanBoost, BoostOf;
    if i > 0 {
      assert v[..i][i - 1] == w[..i][i - 1];
      assert v[..i - 1] == v[..i][..i - 1] && w[..i - 1] == w[..i][..i - 1];
      BoostPrefix(f, v, w, i - 1);
    }
  }

  /** The first bands are done: what each shows, and what is left. */
  ghost predicate BandsDone(ec: EcCtx, encode: bool, from: Origin, steps: seq<Op>, f: BoostInput, ns: seq<nat>,
                            total: int, tell: int)
    reads ec, ec.buf
  {
    && Placed(from, encode) && AllLegal(steps) && f.sp == Run(from.sp, steps) && |ns| <= |f.bands|
    && AllCan(f, ns, |ns|) && At(ec, encode, from, steps + BoostOps(f, ns, |ns|))
    && total == StateAt(f, ns, |ns|).total && tell == TellEighths(StateAt(f, ns, |ns|).sp)
  }

  /** offsets[] after the first bands: their boosts, then what was wanted. */
  predicate Boosting(bands: seq<Boosted>, ns: seq<nat>, start: nat, was: seq<int>, now: seq<int>)
    requires |ns| <= |bands| && start + |bands| <= |was|
  {
    && |now| == |was|
    && forall j :: 0 <= j < |was| ==>
         now[j] == if start <= j < start + |ns| then BoostOf(bands[j - start], ns[j - start]) else was[j]
  }

  /** Each band got what an encoder wants. */
  predicate AllAsked(f: BoostInput, ns: seq<nat>, start: nat, was: seq<int>)
    requires Proper(f.sp) && |ns| <= |f.bands| && start + |f.bands| <= |was|
  {
    forall i :: 0 <= i < |ns| ==> Asked(StateAt(f, ns, i), f.bands[i], was[start + i], ns[i])
  }

  /** One band more. */
  lemma BandMore(ec: EcCtx, encode: bool, from: Origin, steps: seq<Op>, f: BoostInput, ns: seq<nat>, n: nat, total: int,
                 tell: int)
    requires Placed(from, encode) && AllLegal(steps) && f.sp == Run(from.sp, steps) && |ns| < |f.bands|
    requires AllCan(f, ns, |ns|) && CanBoost(StateAt(f, ns, |ns|), f.bands[|ns|], n)
    requires var s, band := StateAt(f, ns, |ns|), f.bands[|ns|];
      && At(ec, encode, from, steps + BoostOps(f, ns, |ns|) + BandOps(s, band, n))
      && total == s.total - BoostOf(band, n) && tell == TellEighths(Run(s.sp, BandOps(s, band, n)))
    ensures BandsDone(ec, encode, from, steps, f, ns + [n], total, tell)
  {
    hide *;
    assert (ns + [n])[..|ns|] == ns[..|ns|];
    BoostPrefix(f, ns, ns + [n], |ns|);
    OneBand(f, ns + [n], |ns|);
    NextBandIs(StateAt(f, ns, |ns|), f.bands[|ns|], n);
    OpsAssoc(steps, BoostOps(f, ns, |ns|), BandOps(StateAt(f, ns, |ns|), f.bands[|ns|], n));
    BandsDoneIs(ec, encode, from, steps, f, ns + [n], total, tell);
  }

  lemma BandsDoneIs(ec: EcCtx, encode: bool, from: Origin, steps: seq<Op>, f: BoostInput, ns: seq<nat>,
                    total: int, tell: int)
    requires Placed(from, encode) && AllLegal(steps) && f.sp == Run(from.sp, steps) && |ns| <= |f.bands|
    requires AllCan(f, ns, |ns|) && At(ec, encode, from, steps + BoostOps(f, ns, |ns|))
    requires total == StateAt(f, ns, |ns|).total && tell == TellEighths(StateAt(f, ns, |ns|).sp)
    ensures BandsDone(ec, encode, from, steps, f, ns, total, tell)
  {
    hide At, AllCan, StateAt, Run;
  }

  lemma BandsStart(ec: EcCtx, encode: bool, from: Origin, steps: seq<Op>, f: BoostInput)
    requires At(ec, encode, from, steps) && f.sp == Run(from.sp, steps)
    ensures BandsDone(ec, encode, from, steps, f, [], f.total, TellEighths(f.sp))
  {
    assert steps + [] == steps;
    hide EcCtx.ValidEnc, EcCtx.ValidDec, Carries, Run, TellEighths;
  }

  lemma StateOf(ec: EcCtx, encode: bool, from: Origin, steps: seq<Op>, f: BoostInput, ns: seq<nat>, total: int,
                tell: int)
    requires BandsDone(ec, encode, from, steps, f, ns, total, tell)
    ensures Placed(from, encode) && AllLegal(steps) && Proper(f.sp) && f.sp == Run(from.sp, steps)
    ensures |ns| <= |f.bands| && AllCan(f, ns, |ns|) && At(ec, encode, from, steps + BoostOps(f, ns, |ns|))
    ensures var s := StateAt(f, ns, |ns|);
      && ValidState(s) && s == BoostState(Run(from.sp, steps + BoostOps(f, ns, |ns|)), total, s.logp)
      && tell == TellEighths(s.sp) && total == f.total - Promised(f, ns, |ns|)
  {
    hide At, AllCan, TellEighths, Run;
    StateIs(f, ns, |ns|);
    RunConcat(from.sp, steps, BoostOps(f, ns, |ns|));
  }

  /** The loop over the bands. */
  method CodeBoosts(ec: EcCtx, encode: bool, offsets: array<int>, start: nat, bands: seq<Boosted>, total0: int,
                    ghost from: Origin, ghost steps: seq<Op>, ghost f: BoostInput)
    returns (total: int, tell: int, ghost ns: seq<nat>)
    requires At(ec, encode, from, steps) && f == BoostInput(Run(from.sp, steps), total0, bands)
    requires start + |bands| <= offsets.Length && forall i :: 0 <= i < |bands| ==> bands[i].quanta > 0
    modifies offsets, ec, ec.buf
    ensures |ns| == |bands| && BandsDone(ec, encode, from, steps, f, ns, total, tell)
    ensures Proper(f.sp) && Boosting(bands, ns, start, old(offsets[..]), offsets[..])
    ensures encode ==> AllAsked(f, ns, start, old(offsets[..]))
    ensures ec.storage == old(ec.storage)
  {
    hide *;
    ghost var was := offsets[..];
    BandsStart(ec, encode, from, steps, f);
    StateOf(ec, encode, from, steps, f, [], f.total, TellEighths(f.sp));
    tell := TellFracAt(ec, encode, from, steps);
    total := total0;
    var logp := 6;
    ns := [];
    NoneYet(f, start, was);
    for i := 0 to |bands|
      invariant |ns| == i && BandsDone(ec, encode, from, steps, f, ns, total, tell) && ec.storage == old(ec.storage)
      invariant logp == StateAt(f, ns, i).logp && Boosting(bands, ns, start, was, offsets[..])
      invariant encode ==> AllAsked(f, ns, start, was)
    {
      StateOf(ec, encode, from, steps, f, ns, total, tell);
      WantedYet(bands, ns, start, was, offsets[..]);
      assert offsets[..][start + i] == offsets[start + i];
      ghost var more := steps + BoostOps(f, ns, i);
      var boost;
      ghost var n;
      boost, total, tell, n := CodeBand(ec, encode, offsets[start + i], bands[i].quanta, bands[i].cap, total, logp,
                                        tell,
                                        from, more, StateAt(f, ns, i));
      BandIs(bands[i]);
      BandMore(ec, encode, from, steps, f, ns, n, total, tell);
      MoreShown(bands, ns, n, start, was, offsets[..], boost);
      if encode { MoreAsked(f, ns, n, start, was); }
      MoreLogp(f, ns, n, boost);
      offsets[start + i] := boost;
      if boost > 0 { logp := if logp - 1 > 2 then logp - 1 else 2; }
      ns := ns + [n];
    }
  }

  lemma BandIs(b: Boosted)
    ensures b == Boosted(b.quanta, b.cap)
  {
  }

  lemma NoneYet(f: BoostInput, start: nat, was: seq<int>)
    requires Proper(f.sp) && start + |f.bands| <= |was|
    ensures StateAt(f, [], 0).logp == 6 && Boosting(f.bands, [], start, was, was) && AllAsked(f, [], start, was)
  {
  }

  lemma WantedYet(bands: seq<Boosted>, ns: seq<nat>, start: nat, was: seq<int>, now: seq<int>)
    requires |ns| < |bands| && start + |bands| <= |was| && Boosting(bands, ns, start, was, now)
    ensures |now| == |was| && now[start + |ns|] == was[start + |ns|]
  {
  }

  lemma MoreShown(bands: seq<Boosted>, ns: seq<nat>, n: nat, start: nat, was: seq<int>, now: seq<int>, boost: nat)
    requires |ns| < |bands| && start + |bands| <= |was| && Boosting(bands, ns, start, was, now)
    requires boost == BoostOf(bands[|ns|], n)
    ensures |now| == |was| && Boosting(bands, ns + [n], start, was, now[start + |ns| := boost])
  {
    hide BoostOf;
  }

  lemma MoreAsked(f: BoostInput, ns: seq<nat>, n: nat, start: nat, was: seq<int>)
    requires Proper(f.sp) && |ns| < |f.bands| && start + |f.bands| <= |was| && AllAsked(f, ns, start, was)
    requires Asked(StateAt(f, ns, |ns|), f.bands[|ns|], was[start + |ns|], n)
    ensures AllAsked(f, ns + [n], start, was)
  {
    forall i | 0 <= i <= |ns|
      ensures Asked(StateAt(f, ns + [n], i), f.bands[i], was[start + i], (ns + [n])[i])
    {
      AskedOne(f, ns, n, start, was, i);
    }
    hide Asked, StateAt;
  }

  lemma AskedOne(f: BoostInput, ns: seq<nat>, n: nat, start: nat, was: seq<int>, i: nat)
    requires Proper(f.sp) && |ns| < |f.bands| && start + |f.bands| <= |was| && AllAsked(f, ns, start, was)
    requires Asked(StateAt(f, ns, |ns|), f.bands[|ns|], was[start + |ns|], n) && i <= |ns|
    ensures Asked(StateAt(f, ns + [n], i), f.bands[i], was[start + i], (ns + [n])[i])
  {
    hide *;
    if i < |ns| { AskedAt(f, ns, start, was, i); }
    assert (ns + [n])[..i] == ns[..i];
    BoostPrefix(f, ns, ns + [n], i);
  }

  lemma AskedAt(f: BoostInput, ns: seq<nat>, start: nat, was: seq<int>, i: nat)
    requires Proper(f.sp) && |ns| <= |f.bands| && start + |f.bands| <= |was| && AllAsked(f, ns, start, was) && i < |ns|
    ensures Asked(StateAt(f, ns, i), f.bands[i], was[start + i], ns[i])
  {
    hide Asked, StateAt;
  }

  lemma MoreLogp(f: BoostInput, ns: seq<nat>, n: nat, boost: nat)
    requires Proper(f.sp) && |ns| < |f.bands| && boost == BoostOf(f.bands[|ns|], n) && f.bands[|ns|].quanta > 0
    ensures var s := StateAt(f, ns, |ns|);
      StateAt(f, ns + [n], |ns| + 1).logp == if boost > 0 then (if s.logp - 1 > 2 then s.logp - 1 else 2) else s.logp
  {
    hide StateAt, NextBand;
    assert (ns + [n])[..|ns|] == ns[..|ns|];
    BoostPrefix(f, ns, ns + [n], |ns|);
    OneBand(f, ns + [n], |ns|);
    NextBandIs(StateAt(f, ns, |ns|), f.bands[|ns|], n);
    Positive(n, f.bands[|ns|].quanta);
  }

  lemma Positive(n: nat, q: nat)
    requires q > 0
    ensures n * q > 0 <==> n > 0
  {
    MulMono(1, q, n);
  }
}
