/** One frame through a packet: header, cut to size, bit allocation. */
module FrameCoding {
  import opened Arith
  import opened Interval
  import opened Flush
  import opened EntCode
  import opened Duplex
  import opened Boosts
  import opened FrameHeader
  import Energy
  import EnergyPass
  import EnergyTrial
  import EnergyLockstep
  import Distortion
  import Tf
  import Rate
  import Alloc
  import AllocCost
  import Allocator
  import TellFrac

  /** The header and the allocator's choices. */
  datatype Content = Content(h: Header, ch: Alloc.Choice)

  /** A bit is kept for the anti-collapse flag of a long transient frame. */
  function CollapseBit(su: Setup, bits: int): int {
    if su.transient && su.lm >= 2 && bits >= 8 * (su.lm + 2) then 8 else 0
  }

  /** What the allocator gets of the packet. */
  function AllocTotal(su: Setup, sp: Span): int
    requires Proper(sp)
  {
    var bits := 64 * su.size - TellFrac.TellEighths(sp) - 1;
    bits - CollapseBit(su, bits)
  }

  /** Used, promised to the flag, given to the allocator and one part more are the packet. */
  lemma TotalParts(su: Setup, sp: Span)
    requires Proper(sp)
    ensures var t := AllocTotal(su, sp); var used := TellFrac.TellEighths(sp);
      && 64 * su.size - 9 <= used + t <= 64 * su.size - 1
      && (used + t < 64 * su.size - 1 ==> su.transient && su.lm >= 2 && t >= 8 * (su.lm + 1))
      && (su.transient && su.lm >= 2 && t >= 8 * (su.lm + 2) ==> used + t == 64 * su.size - 9)
  {
    hide TellFrac.TellEighths;
  }

  function OffsetAt(su: Setup, boosts: seq<nat>, j: nat): (o: nat)
    requires ValidSetup(su) && |boosts| == su.end - su.start
  {
    if su.start <= j < su.end then BoostOf(BoostBand(su, j - su.start), boosts[j - su.start]) else 0
  }

  /** offsets[] after the boosts. */
  function Offsets(su: Setup, boosts: seq<nat>): (o: seq<int>)
    requires ValidSetup(su) && |boosts| == su.end - su.start
    ensures |o| == Rate.Bands(su.m) && Rate.Nonnegative(o)
  {
    hide Rate.ValidMode, OffsetAt;
    seq(Rate.Bands(su.m), j requires 0 <= j < Rate.Bands(su.m) => OffsetAt(su, boosts, j))
  }

  function AllocFrame(su: Setup, sp: Span, h: Header): (f: Rate.Request)
    requires ValidSetup(su) && Proper(sp) && Shaped(su, h)
    ensures Rate.ValidRequest(f)
  {
    hide Rate.ValidMode, Rate.Nonnegative, TrimOf, AfterHeader, AllocTotal, Offsets;
    Rate.Request(su.m, su.start, su.end, Offsets(su, h.boosts), su.cap, TrimOf(su, sp, h),
                 AllocTotal(su, AfterHeader(su, sp, h)), su.C, su.lm)
  }

  /** The content can be coded from this span. */
  ghost predicate ValidContent(su: Setup, sp: Span, c: Content)
    requires ValidSetup(su) && Proper(sp)
  {
    && ValidHeader(su, sp, c.h) && Shaped(su, c.h)
    && Alloc.ValidChoice(AllocFrame(su, sp, c.h), c.ch)
  }

  ghost function FrameOps(su: Setup, sp: Span, c: Content): (ops: seq<Op>)
    requires ValidSetup(su) && Proper(sp) && ValidContent(su, sp, c)
    ensures AllLegal(ops)
  {
    hide HeaderOps, Alloc.AllocOps, AllocFrame, AllLegal, Rate.ValidMode, ValidHeader, Shaped;
    LegalJoin(HeaderOps(su, sp, c.h), Alloc.AllocOps(AllocFrame(su, sp, c.h), c.ch));
    HeaderOps(su, sp, c.h) + Alloc.AllocOps(AllocFrame(su, sp, c.h), c.ch)
  }

  lemma FrameSizes(su: Setup)
    requires ValidSetup(su)
    ensures su.start < su.end <= Rate.Bands(su.m) && 1 <= su.C <= 2 && su.lm <= 3
  {
    hide Rate.ValidMode;
  }

  // ---------------------------------------------------------------- lockstep

  /** The frame's own results. */
  ghost predicate SameResults(su: Setup, sp: Span, a: Content, b: Content)
    requires ValidSetup(su) && Proper(sp) && ValidContent(su, sp, a) && ValidContent(su, sp, b)
  {
    && SameHeader(su, sp, a.h, b.h)
    && Alloc.AllocOutcome(AllocFrame(su, sp, a.h), a.ch) == Alloc.AllocOutcome(AllocFrame(su, sp, b.h), b.ch)
  }

  /** One packet, one frame: whatever the encoder coded is what a decoder reads. */
  lemma FrameOnce(buf: seq<byte>, su: Setup, sp: Span, a: Content, b: Content)
    requires ValidSetup(su) && Proper(sp) && ValidContent(su, sp, a) && ValidContent(su, sp, b)
    requires Carries(buf, sp, FrameOps(su, sp, a)) && Carries(buf, sp, FrameOps(su, sp, b))
    ensures SameResults(su, sp, a, b)
  {
    HeaderSpans(su, sp, a.h);
    HeaderSpans(su, sp, b.h);
    hide Carries, HeaderOps, AllocFrame, Alloc.AllocOps, Alloc.AllocOutcome, Alloc.ValidChoice, ValidHeader, SameHeader,
      AfterHeader, Rate.ValidMode, Run, Shaped;
    var f, g := AllocFrame(su, sp, a.h), AllocFrame(su, sp, b.h);
    CarriesConcat(buf, sp, HeaderOps(su, sp, a.h), Alloc.AllocOps(f, a.ch));
    CarriesConcat(buf, sp, HeaderOps(su, sp, b.h), Alloc.AllocOps(g, b.ch));
    HeaderOnce(buf, su, sp, a.h, b.h);
    SameAllocFrame(su, sp, a.h, b.h);
    Alloc.AllocOnce(buf, AfterHeader(su, sp, a.h), f, a.ch, b.ch);
  }

  lemma SameAllocFrame(su: Setup, sp: Span, a: Header, b: Header)
    requires ValidSetup(su) && Proper(sp) && Shaped(su, a) && Shaped(su, b) && SameHeader(su, sp, a, b)
    ensures AllocFrame(su, sp, a) == AllocFrame(su, sp, b) && AfterHeader(su, sp, a) == AfterHeader(su, sp, b)
  {
    hide Rate.ValidMode, AfterEnergy, AfterSpread, AfterHeader, FlagFrame, SpreadOf, TrimOf, Tf.Resolutions, AllocTotal,
      Offsets, Shaped;
  }

  // -------------------------------------------------------------- the budget

  /** From a span within the packet, whatever the frame holds ends within it. */
  lemma FrameWithin(su: Setup, sp: Span, c: Content)
    requires ValidSetup(su) && Proper(sp) && ValidContent(su, sp, c) && Tell(sp) <= 8 * su.size
    ensures Tell(Run(sp, FrameOps(su, sp, c))) <= 8 * su.size
  {
    HeaderSpans(su, sp, c.h);
    hide HeaderOps, AllocFrame, Alloc.AllocOps, Alloc.ValidChoice, ValidHeader, AfterHeader, Rate.ValidMode, Run,
      Shaped,
      TellFrac.TellEighths, Tell;
    var sp1, f := AfterHeader(su, sp, c.h), AllocFrame(su, sp, c.h);
    RunConcat(sp, HeaderOps(su, sp, c.h), Alloc.AllocOps(f, c.ch));
    HeaderWithin(su, sp, c.h);
    AllocCost.WithinTotal(sp1, f, c.ch);
    TotalIs(su, sp, c.h);
    RunNone(sp1);
    TellFrac.TellOfEighths(Run(sp1, Alloc.AllocOps(f, c.ch)));
  }

  lemma TotalIs(su: Setup, sp: Span, h: Header)
    requires ValidSetup(su) && Proper(sp) && Shaped(su, h)
    ensures AllocFrame(su, sp, h).total <= 64 * su.size - TellFrac.TellEighths(AfterHeader(su, sp, h)) - 1
  {
    hide Rate.ValidMode, AfterHeader, TrimOf, Offsets, TellFrac.TellEighths, Shaped;
  }

  // ------------------------------------------------------------- both sides

  /** One side's arrays. */
  datatype Arrays = Arrays(oldEBands: array<int>, tfRes: array<int>, offsets: array<int>, pulses: array<int>,
                           ebits: array<int>, priority: array<bool>)

  predicate Fit(su: Setup, a: Arrays)
    requires ValidSetup(su)
  {
    && su.end <= a.tfRes.Length && a.oldEBands.Length >= su.C * Rate.Bands(su.m)
    && a.offsets.Length == a.pulses.Length == a.ebits.Length == a.priority.Length == Rate.Bands(su.m)
    && a.oldEBands !in {a.tfRes, a.offsets, a.pulses, a.ebits} && a.tfRes !in {a.offsets, a.pulses, a.ebits}
    && a.offsets !in {a.pulses, a.ebits} && a.pulses != a.ebits
  }

  /** What a side learns of the frame, besides its arrays. */
  datatype Decided = Decided(spread: nat, trim: nat, codedBands: nat, intensity: nat, dual: bool, balance: int)

  /** What a side holds after the header ... */
  ghost predicate HeaderShown(su: Setup, sp: Span, h: Header, a: Arrays, spread: nat, trim: nat)
    reads a.tfRes, a.offsets
    requires ValidSetup(su) && Proper(sp) && Shaped(su, h) && Fit(su, a)
  {
    && a.tfRes[su.start..su.end] == Tf.Resolutions(FlagFrame(su, AfterEnergy(su, sp, h)), h.want, h.sel)
    && a.offsets[..] == Offsets(su, h.boosts) && spread == SpreadOf(su, sp, h) && trim == TrimOf(su, sp, h)
  }

  /** ... and after the frame. */
  ghost predicate Results(su: Setup, sp: Span, c: Content, a: Arrays, r: Decided)
    reads a.tfRes, a.offsets, a.pulses, a.ebits, a.priority
    requires ValidSetup(su) && Proper(sp) && ValidContent(su, sp, c) && Fit(su, a)
  {
    var o := Alloc.AllocOutcome(AllocFrame(su, sp, c.h), c.ch);
    && HeaderShown(su, sp, c.h, a, r.spread, r.trim)
    && r.codedBands == o.coded && r.intensity == o.intensity && r.dual == o.dual && r.balance == o.balance
    && |o.splits| == su.end - su.start
    && forall i :: 0 <= i < |o.splits| ==> Allocator.Shown(a.pulses, a.ebits, a.priority, su.start + i, o.splits[i])
  }

  /** The spread decision. */
  method CodeSpread(su: Setup, ec: EcCtx, encode: bool, spread0: nat, ghost from: Origin, ghost steps: seq<Op>)
    returns (spread: nat, ghost coded: nat)
    requires At(ec, encode, from, steps) && ec.storage == su.size && (encode ==> spread0 < 4)
    modifies ec, ec.buf
    ensures coded < 4 && At(ec, encode, from, steps + SpreadPart(su, Run(from.sp, steps), coded))
    ensures spread == if SpreadCoded(su, Run(from.sp, steps)) then coded else SPREAD_NORMAL
    ensures encode ==> coded == spread0
    ensures ec.storage == su.size
  {
    TellAt(ec, encode, from, steps);
    SpreadModel();
    hide Tell, Run, At, IcdfTable, HasWidth, IcdfOp;
    spread, coded := SPREAD_NORMAL, if encode then spread0 else 0;
    if ec.EcTell() + 4 <= 8 * ec.storage {
      spread := CodeIcdf(ec, encode, spread0, SPREAD_ICDF, 5, from, steps);
      coded := spread;
    } else {
      assert steps + [] == steps;
    }
  }

  /** The allocation trim. */
  method CodeTrim(su: Setup, ec: EcCtx, encode: bool, trim0: nat, tell: int, total: int, ghost promised: nat,
                  ghost from: Origin, ghost steps: seq<Op>)
    returns (trim: nat, ghost coded: nat)
    requires At(ec, encode, from, steps) && ec.storage == su.size && (encode ==> trim0 < 11)
    requires tell == TellFrac.TellEighths(Run(from.sp, steps)) && total == 64 * su.size - promised
    modifies ec, ec.buf
    ensures coded < 11 && At(ec, encode, from, steps + TrimPart(su, Run(from.sp, steps), promised, coded))
    ensures trim == if TrimCoded(su, Run(from.sp, steps), promised) then coded else 5
    ensures encode ==> coded == trim0
    ensures ec.storage == su.size
  {
    TrimModel();
    hide TellFrac.TellEighths, Run, At, IcdfTable, HasWidth, IcdfOp;
    trim, coded := 5, if encode then trim0 else 0;
    if tell + 48 <= total {
      trim := CodeIcdf(ec, encode, trim0, TRIM_ICDF, 7, from, steps);
      coded := trim;
    } else {
      assert steps + [] == steps;
    }
  }

  /** What the encoder wants of the header. */
  datatype Wanted = Wanted(sel: bool, spread: nat, trim: nat)

  predicate Usable(w: Wanted) { w.spread < 4 && w.trim < 11 }

  /** Resolution flags, in either direction. */
  method CodeFlags(su: Setup, ec: EcCtx, encode: bool, tfRes: array<int>, tfSelect: bool, ghost from: Origin,
                   ghost steps: seq<Op>, ghost want0: seq<bool>)
    returns (ghost want: seq<bool>, ghost sel: bool)
    requires ValidSetup(su) && At(ec, encode, from, steps) && ec.storage == su.size && su.end <= tfRes.Length
    requires encode ==> |want0| == su.end - su.start && Tf.HoldsFlags(tfRes, su.start, want0)
    modifies tfRes, ec, ec.buf
    ensures |want| == su.end - su.start && At(ec, encode, from, steps + FlagPart(su, Run(from.sp, steps), want, sel))
    ensures tfRes[su.start..su.end] == Tf.Resolutions(FlagFrame(su, Run(from.sp, steps)), want, sel)
    ensures encode ==> want == want0 && sel == tfSelect
    ensures ec.storage == su.size
  {
    FrameSizes(su);
    hide Rate.ValidMode, Run, At, Tf.HoldsFlags, Tf.TfOps, Tf.Resolutions;
    want, sel := want0, tfSelect;
    ghost var f := FlagFrame(su, Run(from.sp, steps));
    if encode {
      Tf.TfEncode(su.start, su.end, su.transient, tfRes, su.lm, tfSelect, ec, want0, from, steps, f);
    } else {
      want, sel := Tf.TfDecode(su.start, su.end, su.transient, tfRes, su.lm, ec, from, steps, f);
    }
  }

  /** The energies of a header. */
  ghost predicate EnergyFits(su: Setup, sp: Span, intra: bool, qs: seq<int>)
    requires ValidSetup(su) && Proper(sp)
  {
    && (Tell(sp) + 3 > 8 * su.size ==> !intra) && |qs| == Energy.Count(su.start, su.C, su.end)
    && Energy.AllFit(EnergyFrame(su, sp, intra), qs, |qs|)
  }

  /** offsets[] before the boosts: nothing outside the coded bands. */
  predicate Blank(su: Setup, offsets: seq<int>) {
    forall j :: 0 <= j < |offsets| && !(su.start <= j < su.end) ==> offsets[j] == 0
  }

  /** The header holds what the encoder wants, as far as the bits go. */
  ghost predicate HeaderAsked(su: Setup, sp: Span, h: Header, w: Wanted, want: seq<bool>, offsets: seq<int>)
    requires ValidSetup(su) && Proper(sp) && Shaped(su, h) && su.end <= |offsets|
  {
    && h.want == want && h.sel == w.sel && h.spread == w.spread && h.trim == w.trim
    && AllAsked(BoostFrame(su, AfterSpread(su, sp, h)), h.boosts, su.start, offsets)
  }

  /** The spans between the parts, by the steps coded so far. */
  lemma SpansOf(su: Setup, sp: Span, h: Header, e: seq<Op>, t: seq<Op>, s: seq<Op>, b: seq<Op>, r: seq<Op>)
    requires ValidSetup(su) && Proper(sp) && Shaped(su, h) && AllLegal(e) && AllLegal(t) && AllLegal(s) && AllLegal(b)
    requires AllLegal(e + t) && AllLegal(e + t + s) && AllLegal(e + t + s + b)
    requires e == EnergyPart(su, sp, h.intra, h.qs) && t == FlagPart(su, Run(sp, e), h.want, h.sel)
    requires s == SpreadPart(su, Run(sp, e + t), h.spread) && b == BoostPart(su, Run(sp, e + t + s), h.boosts)
    requires var p := Promised(BoostFrame(su, Run(sp, e + t + s)), h.boosts, |h.boosts|);
      r == TrimPart(su, Run(sp, e + t + s + b), p, h.trim)
    ensures AfterEnergy(su, sp, h) == Run(sp, e) && AfterFlags(su, sp, h) == Run(sp, e + t)
    ensures AfterSpread(su, sp, h) == Run(sp, e + t + s) && AfterBoosts(su, sp, h) == Run(sp, e + t + s + b)
    ensures BoostTotal(su, sp, h) == Promised(BoostFrame(su, Run(sp, e + t + s)), h.boosts, |h.boosts|)
    ensures HeaderOps(su, sp, h) == e + t + s + b + r
  {
    RunConcat(sp, e, t);
    RunConcat(sp, e + t, s);
    RunConcat(sp, e + t + s, b);
    hide EnergyPart, FlagPart, SpreadPart, BoostPart, TrimPart, Promised, BoostFrame, Run, Rate.ValidMode, AllLegal;
  }

  /** The header is one that can be coded here ... */
  lemma HeaderFits(su: Setup, sp: Span, h: Header)
    requires ValidSetup(su) && Proper(sp) && Shaped(su, h) && EnergyFits(su, sp, h.intra, h.qs)
    requires |h.want| == su.end - su.start && AllCan(BoostFrame(su, AfterSpread(su, sp, h)), h.boosts, |h.boosts|)
    ensures ValidHeader(su, sp, h)
  {
    hide AfterSpread, Tell, AllCan, BoostFrame, Energy.AllFit, EnergyFrame, Rate.ValidMode;
  }

  /** ... and shows in the arrays. */
  lemma HeaderDone(su: Setup, sp: Span, h: Header, a: Arrays, was: seq<int>, spread: nat, trim: nat)
    requires ValidSetup(su) && Proper(sp) && Shaped(su, h) && Fit(su, a)
    requires |was| == Rate.Bands(su.m) && Blank(su, was)
    requires Boosting(BoostBands(su), h.boosts, su.start, was, a.offsets[..])
    requires a.tfRes[su.start..su.end] == Tf.Resolutions(FlagFrame(su, AfterEnergy(su, sp, h)), h.want, h.sel)
    requires spread == if SpreadCoded(su, AfterFlags(su, sp, h)) then h.spread else SPREAD_NORMAL
    requires trim == if TrimCoded(su, AfterBoosts(su, sp, h), BoostTotal(su, sp, h)) then h.trim else 5
    ensures HeaderShown(su, sp, h, a, spread, trim)
  {
    hide AfterEnergy, AfterFlags, AfterBoosts, BoostTotal, Tf.Resolutions, FlagFrame, SpreadCoded, TrimCoded,
      ValidSetup,
      Offsets, Fit, Boosting, BoostBands, Blank;
    OffsetsShown(su, h.boosts, was, a.offsets[..]);
  }

  lemma OffsetsShown(su: Setup, boosts: seq<nat>, was: seq<int>, now: seq<int>)
    requires ValidSetup(su) && |boosts| == su.end - su.start && |was| == Rate.Bands(su.m) && Blank(su, was)
    requires Boosting(BoostBands(su), boosts, su.start, was, now)
    ensures now == Offsets(su, boosts)
  {
    hide Rate.ValidMode, BoostBand, BoostOf;
  }

  lemma FitFacts(su: Setup, a: Arrays)
    requires ValidSetup(su) && Fit(su, a)
    ensures su.start < su.end <= a.tfRes.Length && su.end <= a.offsets.Length == Rate.Bands(su.m)
    ensures a.tfRes != a.offsets && a.tfRes[..] == a.tfRes[..] && |a.offsets[..]| == a.offsets.Length
  {
    FrameSizes(su);
  }

  lemma PlacedIs(from: Origin, encode: bool)
    requires Placed(from, encode)
    ensures Proper(from.sp) && Proper(START)
  {
  }

  lemma WantedFacts(w: Wanted)
    requires Usable(w)
    ensures w.spread < 4 && w.trim < 11
  {
  }

  lemma FrameIs(su: Setup, sp: Span)
    requires ValidSetup(su)
    ensures BoostFrame(su, sp) == BoostInput(sp, 64 * su.size, BoostBands(su)) && BoostFrame(su, sp).sp == sp
  {
    hide ValidSetup;
  }

  lemma PartIs(su: Setup, sp: Span, boosts: seq<nat>)
    requires ValidSetup(su) && Proper(sp) && |boosts| == su.end - su.start
    ensures BoostPart(su, sp, boosts) == BoostOps(BoostFrame(su, sp), boosts, |boosts|)
  {
    hide ValidSetup, BoostOps;
  }

  lemma ShapedOf(su: Setup, h: Header)
    requires ValidSetup(su) && h.spread < 4 && |h.boosts| == su.end - su.start && h.trim < 11
    ensures Shaped(su, h)
  {
  }

  lemma AskedIs(su: Setup, sp: Span, h: Header, w: Wanted, want: seq<bool>, offsets: seq<int>, f: BoostInput)
    requires ValidSetup(su) && Proper(sp) && Shaped(su, h) && su.end <= |offsets|
    requires f == BoostFrame(su, AfterSpread(su, sp, h)) && AllAsked(f, h.boosts, su.start, offsets)
    requires h.want == want && h.sel == w.sel && h.spread == w.spread && h.trim == w.trim
    ensures HeaderAsked(su, sp, h, w, want, offsets)
  {
    hide AllAsked, BoostFrame, AfterSpread, Rate.ValidMode;
  }

  /** From the energies to the trim, in either direction. */
  method CodeSide(su: Setup, ec: EcCtx, encode: bool, a: Arrays, w: Wanted, ghost from: Origin, ghost want0: seq<bool>,
                  ghost intra: bool, ghost qs: seq<int>)
    returns (spread: nat, trim: nat, promised: int, ghost h: Header)
    requires ValidSetup(su) && Fit(su, a) && Placed(from, encode) && EnergyFits(su, from.sp, intra, qs)
    requires At(ec, encode, from, EnergyPart(su, from.sp, intra, qs)) && ec.storage == su.size
    requires Blank(su, a.offsets[..])
    requires encode ==> |want0| == su.end - su.start && Tf.HoldsFlags(a.tfRes, su.start, want0) && Usable(w)
    modifies a.tfRes, a.offsets, ec, ec.buf
    ensures Shaped(su, h) && h.intra == intra && h.qs == qs && ValidHeader(su, from.sp, h)
    ensures At(ec, encode, from, HeaderOps(su, from.sp, h)) && HeaderShown(su, from.sp, h, a, spread, trim)
    ensures promised == BoostTotal(su, from.sp, h)
    ensures encode ==> HeaderAsked(su, from.sp, h, w, want0, old(a.offsets[..]))
    ensures ec.storage == su.size
  {
    hide *;
    FitFacts(su, a);
    if encode { WantedFacts(w); }
    PlacedIs(from, encode);
    ghost var sp, was := from.sp, a.offsets[..];
    ghost var e := EnergyPart(su, sp, intra, qs);
    ghost var want, sel := CodeFlags(su, ec, encode, a.tfRes, w.sel, from, e, want0);
    ghost var t := FlagPart(su, Run(sp, e), want, sel);
    LegalJoin(e, t);
    ghost var coded, r0, boosts;
    spread, coded := CodeSpread(su, ec, encode, w.spread, from, e + t);
    ghost var s := SpreadPart(su, Run(sp, e + t), coded);
    LegalJoin(e + t, s);
    ghost var f := BoostFrame(su, Run(sp, e + t + s));
    FrameIs(su, Run(sp, e + t + s));
    var total, tell;
    total, tell, boosts := CodeBoosts(ec, encode, a.offsets, su.start, BoostBands(su), 64 * ec.storage, from, e + t + s,
                                      f);
    StateOf(ec, encode, from, e + t + s, f, boosts, total, tell);
    promised := 64 * ec.storage - total;
    ghost var b := BoostPart(su, Run(sp, e + t + s), boosts);
    PartIs(su, Run(sp, e + t + s), boosts);
    LegalJoin(e + t + s, b);
    trim, r0 := CodeTrim(su, ec, encode, w.trim, tell, total, promised, from, e + t + s + b);
    h := Header(intra, qs, want, sel, coded, boosts, r0);
    ShapedOf(su, h);
    SpansOf(su, sp, h, e, t, s, b, TrimPart(su, Run(sp, e + t + s + b), promised, r0));
    HeaderFits(su, sp, h);
    HeaderDone(su, sp, h, a, was, spread, trim);
    if encode { AskedIs(su, sp, h, w, want0, was, f); }
  }

  /** The bit allocation, in either direction. */
  method CodeAllocation(su: Setup, ec: EcCtx, encode: bool, a: Arrays, spread: nat, trim: nat, intensity0: nat,
                        dual0: bool, prev: int, signalBandwidth: int, ghost from: Origin, ghost h: Header)
    returns (r: Decided, ghost c: Content)
    requires ValidSetup(su) && Fit(su, a) && Placed(from, encode) && ec.storage == su.size && Shaped(su, h)
    requires ValidHeader(su, from.sp, h) && At(ec, encode, from, HeaderOps(su, from.sp, h))
    requires HeaderShown(su, from.sp, h, a, spread, trim) && (encode ==> su.start <= intensity0)
    modifies a.pulses, a.ebits, a.priority, ec, ec.buf
    ensures c.h == h && ValidContent(su, from.sp, c) && At(ec, encode, from, FrameOps(su, from.sp, c))
    ensures Results(su, from.sp, c, a, r)
    ensures ec.storage == su.size
  {
    hide *;
    PlacedIs(from, encode);
    AllocSizes(su, a);
    HeaderSpans(su, from.sp, h);
    var frac := TellFracAt(ec, encode, from, HeaderOps(su, from.sp, h));
    var bits := 64 * ec.storage - frac - 1;
    bits := bits - CollapseBit(su, bits);
    RequestIs(su, from.sp, h, a, spread, trim, bits);
    var codedBands, intensity, dual, balance;
    ghost var ch;
    codedBands, intensity, dual, balance, ch := Allocator.ComputeAllocation(
      Rate.Request(su.m, su.start, su.end, a.offsets[..], su.cap, trim, bits, su.C, su.lm),
      intensity0, dual0, a.pulses, a.ebits, a.priority, ec, encode, prev, signalBandwidth, from,
      HeaderOps(su, from.sp, h));
    r := Decided(spread, trim, codedBands, intensity, dual, balance);
    c := Content(h, ch);
    FrameDone(su, from.sp, c, a, r);
  }

  lemma AllocSizes(su: Setup, a: Arrays)
    requires ValidSetup(su) && Fit(su, a)
    ensures a.pulses.Length == a.ebits.Length == a.priority.Length == Rate.Bands(su.m) && a.pulses != a.ebits
    ensures a.tfRes != a.pulses && a.tfRes != a.ebits && a.offsets != a.pulses && a.offsets != a.ebits
  {
    hide ValidSetup;
  }

  /** The request the code makes is the frame's. */
  lemma RequestIs(su: Setup, sp: Span, h: Header, a: Arrays, spread: nat, trim: nat, bits: int)
    requires ValidSetup(su) && Proper(sp) && Shaped(su, h) && Fit(su, a) && HeaderShown(su, sp, h, a, spread, trim)
    requires var x := 64 * su.size - TellFrac.TellEighths(AfterHeader(su, sp, h)) - 1; bits == x - CollapseBit(su, x)
    ensures Rate.Request(su.m, su.start, su.end, a.offsets[..], su.cap, trim, bits, su.C, su.lm)
            == AllocFrame(su, sp, h)
    ensures Rate.ValidRequest(AllocFrame(su, sp, h)) && AllocFrame(su, sp, h).start == su.start
    ensures AllocFrame(su, sp, h).m == su.m && AllocFrame(su, sp, h).end == su.end
  {
    hide ValidSetup, Shaped, Fit, Offsets, TrimOf, SpreadOf, AfterHeader, CollapseBit, TellFrac.TellEighths,
      Tf.Resolutions, FlagFrame, AfterEnergy, Rate.ValidRequest;
  }

  lemma FrameDone(su: Setup, sp: Span, c: Content, a: Arrays, r: Decided)
    requires ValidSetup(su) && Proper(sp) && Shaped(su, c.h) && Fit(su, a) && ValidHeader(su, sp, c.h)
    requires HeaderShown(su, sp, c.h, a, r.spread, r.trim) && Rate.ValidRequest(AllocFrame(su, sp, c.h))
    requires Alloc.ValidChoice(AllocFrame(su, sp, c.h), c.ch)
    requires var o := Alloc.AllocOutcome(AllocFrame(su, sp, c.h), c.ch);
      && r.codedBands == o.coded && r.intensity == o.intensity && r.dual == o.dual && r.balance == o.balance
      && |o.splits| == su.end - su.start
      && forall i :: 0 <= i < |o.splits| ==>
           Allocator.Shown(a.pulses, a.ebits, a.priority, su.start + i, o.splits[i])
    ensures ValidContent(su, sp, c) && Results(su, sp, c, a, r)
    ensures FrameOps(su, sp, c) == HeaderOps(su, sp, c.h) + Alloc.AllocOps(AllocFrame(su, sp, c.h), c.ch)
  {
    hide ValidSetup, Shaped, Fit, HeaderShown, ValidHeader, AllocFrame, Alloc.ValidChoice, Alloc.AllocOutcome,
      Allocator.Shown, HeaderOps, Alloc.AllocOps, AllLegal;
  }

  // ------------------------------------------------------- the encoder's side

  /** What steers the encoder's coarse energy. */
  datatype Steering = Steering(effEnd: nat, nbAvailableBytes: nat, forceIntra: bool, delayedIntra: int, twoPass: bool,
                               lossRate: nat, lfe: bool)

  ghost function EnergySetting(su: Setup, from: Origin, x: seq<int>, was: seq<int>,
                               w: Steering): (st: EnergyTrial.Setting)
    requires ValidSetup(su) && Placed(from, true) && |x| == |was| >= su.C * Rate.Bands(su.m)
    ensures EnergyTrial.ValidSetting(st)
  {
    FrameSizes(su);
    hide ValidSetup, Placed, EnergyTrial.MaxDecay;
    EnergyTrial.Setting(from, Rate.Bands(su.m), su.start, su.end, su.C, su.lm, 8 * su.size, x, was,
                        EnergyTrial.MaxDecay(su.end - su.start, w.nbAvailableBytes, w.lfe), w.lfe)
  }

  /** Whether the energies are coded intra. */
  ghost predicate IntraChosen(st: EnergyTrial.Setting, w: Steering, intra: bool)
    requires EnergyTrial.ValidSetting(st)
  {
    var asks := EnergyTrial.AsksIntra(st.end - st.start, st.C, w.nbAvailableBytes, w.forceIntra, w.delayedIntra,
                                      w.twoPass);
    var better := st.budget >= 0
      && EnergyTrial.IntraBetter(st, Distortion.Bias(st.budget, w.delayedIntra, w.lossRate, st.C));
    intra <==> (Tell(st.from.sp) + 3 <= st.budget && (asks || (w.twoPass && better)))
  }

  /** The pass is the one the encoder ran; these are its values and energies, and what it
      remembers of them. */
  ghost predicate EnergyCoded(su: Setup, from: Origin, x: seq<int>, was: seq<int>, w: Steering,
                              intra: bool, qs: seq<int>, now: seq<int>, delayed: int)
    requires ValidSetup(su) && Placed(from, true) && |x| == |was| >= su.C * Rate.Bands(su.m)
    requires su.start <= w.effEnd <= Rate.Bands(su.m)
  {
    var st := EnergySetting(su, from, x, was, w);
    var p := EnergyTrial.PassInput(st, intra);
    && IntraChosen(st, w, intra) && qs == EnergyPass.Coded(p, EnergyPass.Total(p)).qs && now == EnergyPass.Energies(p)
    && delayed == Distortion.Delayed(w.delayedIntra, su.lm, intra,
                                     Distortion.Loss(x, was, su.start, w.effEnd, Rate.Bands(su.m), su.C))
  }

  /** The pass works on the frame's own setting. */
  lemma PassIs(su: Setup, from: Origin, x: seq<int>, was: seq<int>, w: Steering, intra: bool)
    requires ValidSetup(su) && Placed(from, true) && |x| == |was| >= su.C * Rate.Bands(su.m)
    ensures var p := EnergyTrial.PassInput(EnergySetting(su, from, x, was, w), intra);
      && EnergyPass.ValidInput(p) && p.f == EnergyFrame(su, from.sp, intra) && p.nb == Rate.Bands(su.m) && p.was == was
      && EnergyPass.Total(p) == Energy.Count(su.start, su.C, su.end)
  {
    FrameSizes(su);
    hide ValidSetup, Placed, Run, Energy.IntraOps, EnergyTrial.MaxDecay;
  }

  lemma EnergyDone(su: Setup, enc: EcCtx, from: Origin, x: seq<int>, was: seq<int>, w: Steering, intra: bool,
                   now: seq<int>, error: seq<int>, delayed: int) returns (qs: seq<int>)
    requires ValidSetup(su) && Placed(from, true) && |x| == |was| >= su.C * Rate.Bands(su.m) && enc.ValidEnc()
    requires su.start <= w.effEnd <= Rate.Bands(su.m)
    requires var st := EnergySetting(su, from, x, was, w);
      EnergyTrial.TrialOutcome(st, intra, enc.ops, now, error) && IntraChosen(st, w, intra)
    requires delayed == Distortion.Delayed(w.delayedIntra, su.lm, intra,
                                           Distortion.Loss(x, was, su.start, w.effEnd, Rate.Bands(su.m), su.C))
    ensures EnergyFits(su, from.sp, intra, qs) && At(enc, true, from, EnergyPart(su, from.sp, intra, qs))
    ensures EnergyCoded(su, from, x, was, w, intra, qs, now, delayed)
  {
    PassIs(su, from, x, was, w, intra);
    var st := EnergySetting(su, from, x, was, w);
    var p := EnergyTrial.PassInput(st, intra);
    hide Run, Tell, ValidSetup, Energy.IntraOps, Energy.EnergyOps, EcCtx.ValidEnc, EnergyTrial.IntraBetter,
      EnergyTrial.AsksIntra, EnergyPass.Coded, EnergyPass.Total, EnergyPass.Energies, EnergyPass.Errors, Energy.AllFit,
      Distortion.Delayed, Distortion.Loss, EnergyFrame;
    qs := EnergyPass.Coded(p, EnergyPass.Total(p)).qs;
    EnergyPass.CodedFits(p, |qs|);
  }

  /** The coarse energies of the frame. */
  method EncodeEnergy(su: Setup, enc: EcCtx, eBands: array<int>, oldEBands: array<int>, error: array<int>, w: Steering,
                      ghost from: Origin) returns (delayed: int, ghost intra: bool, ghost qs: seq<int>)
    requires ValidSetup(su) && Placed(from, true) && At(enc, true, from, []) && enc.storage == su.size
    requires eBands.Length == oldEBands.Length == error.Length >= su.C * Rate.Bands(su.m)
    requires oldEBands != error && oldEBands != eBands && error != eBands && su.start <= w.effEnd <= Rate.Bands(su.m)
    modifies oldEBands, error, enc, enc.buf
    ensures enc.storage == su.size && EnergyFits(su, from.sp, intra, qs)
    ensures At(enc, true, from, EnergyPart(su, from.sp, intra, qs))
    ensures EnergyCoded(su, from, eBands[..], old(oldEBands[..]), w, intra, qs, oldEBands[..], delayed)
  {
    hide *;
    FrameSizes(su);
    ghost var x, was := eBands[..], oldEBands[..];
    ghost var st := EnergySetting(su, from, x, was, w);
    SettingIs(su, from, x, was, w, enc);
    var i;
    i, delayed := EnergyTrial.QuantCoarseEnergy(st, Rate.Bands(su.m), su.start, su.end, w.effEnd, eBands, oldEBands,
                                                8 * enc.storage, error, enc, su.C, su.lm, w.nbAvailableBytes,
                                                w.forceIntra, w.delayedIntra, w.twoPass, w.lossRate, w.lfe);
    intra := i;
    ChosenIs(st, w, intra);
    qs := EnergyDone(su, enc, from, x, was, w, intra, oldEBands[..], error[..], delayed);
  }

  lemma SettingIs(su: Setup, from: Origin, x: seq<int>, was: seq<int>, w: Steering, enc: EcCtx)
    requires ValidSetup(su) && At(enc, true, from, []) && Placed(from, true) && |x| == |was| >= su.C * Rate.Bands(su.m)
    ensures var st := EnergySetting(su, from, x, was, w);
      && su.start <= su.end && enc.ValidEnc() && from.ops == enc.ops && st.from == from
      && st == EnergyTrial.Setting(from, Rate.Bands(su.m), su.start, su.end, su.C, su.lm, 8 * su.size, x, was,
                                   EnergyTrial.MaxDecay(su.end - su.start, w.nbAvailableBytes, w.lfe), w.lfe)
  {
    FrameSizes(su);
    assert from.ops + [] == from.ops;
    hide ValidSetup, Placed, EcCtx.ValidEnc, EnergyTrial.MaxDecay;
  }

  lemma ChosenIs(st: EnergyTrial.Setting, w: Steering, intra: bool)
    requires EnergyTrial.ValidSetting(st) && st.C > 0 && st.start <= st.end && st.budget >= 0
    requires intra <==> (Tell(st.from.sp) + 3 <= st.budget
                         && (EnergyTrial.AsksIntra(st.end - st.start, st.C, w.nbAvailableBytes, w.forceIntra,
                                                   w.delayedIntra, w.twoPass)
                             || (w.twoPass && EnergyTrial.IntraBetter(
                                   st, Distortion.Bias(st.budget, w.delayedIntra, w.lossRate, st.C)))))
    ensures IntraChosen(st, w, intra)
  {
    hide Tell, EnergyTrial.AsksIntra, EnergyTrial.IntraBetter, Distortion.Bias, EnergyTrial.ValidSetting;
  }

  /** Where the encoder is after the header. */
  lemma HeaderWhere(su: Setup, enc: EcCtx, from: Origin, h: Header)
    requires ValidSetup(su) && Shaped(su, h) && Placed(from, true) && At(enc, true, from, HeaderOps(su, from.sp, h))
    ensures enc.ValidEnc() && AllLegal(enc.ops) && enc.Where() == AfterHeader(su, from.sp, h)
  {
    HeaderSpans(su, from.sp, h);
    hide ValidSetup, Shaped, HeaderOps, AfterHeader, Run, EcCtx.ValidEnc;
    enc.EncState();
    RunConcat(START, from.ops, HeaderOps(su, from.sp, h));
  }

  /** The packet can be cut to any size the encoder allows itself. */
  lemma CutFits(su: Setup, enc: EcCtx, from: Origin, h: Header, size: nat)
    requires ValidSetup(su) && Shaped(su, h) && Placed(from, true) && At(enc, true, from, HeaderOps(su, from.sp, h))
    requires enc.storage == su.size && size <= su.size && (size < su.size ==> MinAllowed(su, from.sp, h) <= size)
    ensures enc.ValidEnc() && enc.offs + enc.endOffs <= size <= enc.storage
  {
    hide *;
    HeaderWhere(su, enc, from, h);
    enc.BytesBehind();
    PlacedIs(from, true);
    if size < su.size {
      AllowedSpares(su, from.sp, h, size);
      SparesEnd(su, from.sp, h, size);
      SpentTell(AfterHeader(su, from.sp, h));
    }
  }

  lemma SparesEnd(su: Setup, sp: Span, h: Header, size: nat)
    requires ValidSetup(su) && Proper(sp) && Shaped(su, h) && Spares(su, sp, h, size)
    ensures Tell(AfterHeader(su, sp, h)) <= 8 * size
  {
    hide ValidSetup, Shaped, AfterHeader, BoostTotal, Tell, TellFrac.TellEighths;
    TellFrac.TellOfEighths(AfterHeader(su, sp, h));
  }

  /** The same header, if the packet is cut at all. */
  lemma CutSame(su: Setup, tu: Setup, sp: Span, h: Header, a: Arrays, spread: nat, trim: nat)
    requires ValidSetup(su) && tu == su.(size := tu.size) && Proper(sp) && ValidHeader(su, sp, h) && Shaped(su, h)
    requires tu.size <= su.size && (tu.size < su.size ==> MinAllowed(su, sp, h) <= tu.size)
    requires Fit(su, a) && HeaderShown(su, sp, h, a, spread, trim)
    ensures ValidSetup(tu) && ValidHeader(tu, sp, h) && Shaped(tu, h) && HeaderOps(tu, sp, h) == HeaderOps(su, sp, h)
    ensures Fit(tu, a) && HeaderShown(tu, sp, h, a, spread, trim)
  {
    hide *;
    if tu.size < su.size {
      HeaderSame(su, tu, sp, h);
      ShapedSame(su, tu, h);
      ArraysFit(su, tu, a);
      ShownSame(su, tu, sp, h, a, spread, trim);
    } else {
      assert tu == su;
    }
  }

  lemma ShownSame(su: Setup, tu: Setup, sp: Span, h: Header, a: Arrays, spread: nat, trim: nat)
    requires ValidSetup(su) && ValidSetup(tu) && tu == su.(size := tu.size) && Proper(sp)
    requires Shaped(su, h) && Shaped(tu, h) && Fit(su, a) && Fit(tu, a) && HeaderShown(su, sp, h, a, spread, trim)
    requires SpreadOf(tu, sp, h) == SpreadOf(su, sp, h) && TrimOf(tu, sp, h) == TrimOf(su, sp, h)
    requires AfterEnergy(tu, sp, h) == AfterEnergy(su, sp, h)
    requires var sp1 := AfterEnergy(su, sp, h);
      Tf.Resolutions(FlagFrame(tu, sp1), h.want, h.sel) == Tf.Resolutions(FlagFrame(su, sp1), h.want, h.sel)
    ensures HeaderShown(tu, sp, h, a, spread, trim)
  {
    OffsetsSame(su, tu, h.boosts);
    hide ValidSetup, Fit, Shaped, SpreadOf, TrimOf, AfterEnergy, FlagFrame, Tf.Resolutions, Offsets;
  }

  lemma ArraysFit(su: Setup, tu: Setup, a: Arrays)
    requires ValidSetup(su) && ValidSetup(tu) && tu == su.(size := tu.size) && Fit(su, a)
    ensures Fit(tu, a)
  {
    hide ValidSetup;
  }

  lemma OffsetsSame(su: Setup, tu: Setup, boosts: seq<nat>)
    requires ValidSetup(su) && ValidSetup(tu) && tu == su.(size := tu.size) && |boosts| == su.end - su.start
    ensures Offsets(tu, boosts) == Offsets(su, boosts)
  {
    hide Rate.ValidMode;
    assert forall j: nat :: j < Rate.Bands(su.m) ==> OffsetAt(tu, boosts, j) == OffsetAt(su, boosts, j);
    hide OffsetAt;
  }

  /** With a variable rate the packet is cut to what the frame needs, but not below what
      the header and its promises take. */
  method CutPacket(su: Setup, enc: EcCtx, a: Arrays, vbr: bool, target: nat, promised: int, spread: nat, trim: nat,
                   ghost from: Origin, ghost h: Header) returns (size: nat)
    requires ValidSetup(su) && Shaped(su, h) && Placed(from, true) && At(enc, true, from, HeaderOps(su, from.sp, h))
    requires enc.storage == su.size && promised == BoostTotal(su, from.sp, h) && ValidHeader(su, from.sp, h)
    requires Fit(su, a) && HeaderShown(su, from.sp, h, a, spread, trim)
    requires enc.buf.Length >= su.size
    modifies enc, enc.buf
    ensures size == if vbr then Min(su.size, Max(MinAllowed(su, from.sp, h), target)) else su.size
    ensures enc.storage == size <= su.size
    ensures var tu := su.(size := size);
      && ValidSetup(tu) && Shaped(tu, h) && ValidHeader(tu, from.sp, h) && Fit(tu, a)
      && At(enc, true, from, HeaderOps(tu, from.sp, h)) && HeaderShown(tu, from.sp, h, a, spread, trim)
  {
    hide *;
    PlacedIs(from, true);
    HeaderSpans(su, from.sp, h);
    var tell := TellFracAt(enc, true, from, HeaderOps(su, from.sp, h));
    var minAllowed := (tell + promised + 63) / 64 + 2;
    AllowedIs(su, from.sp, h, minAllowed);
    size := su.size;
    if vbr {
      MinMax(su.size, minAllowed, target);
      size := Min(su.size, Max(minAllowed, target));
      CutFits(su, enc, from, h, size);
      AtOps(enc, from, HeaderOps(su, from.sp, h));
      enc.Shrink(size);
      AtHere(enc, from, HeaderOps(su, from.sp, h));
    }
    CutSame(su, su.(size := size), from.sp, h, a, spread, trim);
  }

  lemma AtOps(enc: EcCtx, from: Origin, steps: seq<Op>)
    requires At(enc, true, from, steps)
    ensures enc.ops == from.ops + steps && AllLegal(steps) && Placed(from, true)
  {
    hide EcCtx.ValidEnc;
  }

  lemma AtHere(enc: EcCtx, from: Origin, steps: seq<Op>)
    requires enc.ValidEnc() && enc.ops == from.ops + steps && AllLegal(steps) && Placed(from, true)
    ensures At(enc, true, from, steps)
  {
    hide EcCtx.ValidEnc;
  }

  lemma AllowedIs(su: Setup, sp: Span, h: Header, least: int)
    requires ValidSetup(su) && Proper(sp) && Shaped(su, h)
    requires least == (TellFrac.TellEighths(AfterHeader(su, sp, h)) + BoostTotal(su, sp, h) + 63) / 64 + 2
    ensures least == MinAllowed(su, sp, h)
  {
    hide ValidSetup, Shaped, AfterHeader, BoostTotal, TellFrac.TellEighths;
  }

  lemma MinMax(size: nat, least: int, target: nat)
    ensures 0 <= Min(size, Max(least, target)) <= size
    ensures Min(size, Max(least, target)) < size ==> least <= Min(size, Max(least, target))
  {
  }

  /** What an encoder brings to a frame besides its coder and arrays. */
  datatype Plan = Plan(steering: Steering, wanted: Wanted, vbr: bool, target: nat, intensity: nat, dual: bool,
                       prev: int,
                       signalBandwidth: int)

  predicate ValidPlan(su: Setup, w: Plan) {
    && Usable(w.wanted) && su.start <= w.intensity && su.start <= w.steering.effEnd <= Rate.Bands(su.m)
  }

  /** Its arrays are apart from the energies it codes. */
  predicate Apart(eBands: array<int>, error: array<int>, a: Arrays) {
    && a.oldEBands != error && a.oldEBands != eBands && error != eBands
    && a.tfRes !in {eBands, error} && a.offsets !in {eBands, error} && a.pulses != a.oldEBands && a.ebits != a.oldEBands
  }

  /** How much of the packet is kept. */
  ghost predicate CutTo(su: Setup, sp: Span, h: Header, w: Plan, size: nat)
    requires ValidSetup(su) && Proper(sp) && Shaped(su, h)
  {
    size == if w.vbr then Min(su.size, Max(MinAllowed(su, sp, h), w.target)) else su.size
  }

  /** The encoder's side of the frame. */
  method EncodeFrame(su: Setup, enc: EcCtx, eBands: array<int>, error: array<int>, a: Arrays, w: Plan,
                     ghost from: Origin, ghost want: seq<bool>)
    returns (size: nat, delayed: int, r: Decided, ghost c: Content)
    requires ValidSetup(su) && Fit(su, a) && ValidPlan(su, w) && Placed(from, true) && At(enc, true, from, [])
    requires enc.storage == su.size <= enc.buf.Length && Apart(eBands, error, a) && Blank(su, a.offsets[..])
    requires |want| == su.end - su.start && Tf.HoldsFlags(a.tfRes, su.start, want)
    requires eBands.Length == a.oldEBands.Length == error.Length
    modifies a.oldEBands, error, a.tfRes, a.offsets, a.pulses, a.ebits, a.priority, enc, enc.buf
    ensures enc.storage == size <= su.size && Shaped(su, c.h) && ValidHeader(su, from.sp, c.h)
    ensures CutTo(su, from.sp, c.h, w, size)
    ensures var tu := su.(size := size);
      && ValidSetup(tu) && Fit(tu, a) && ValidContent(tu, from.sp, c) && At(enc, true, from, FrameOps(tu, from.sp, c))
      && Results(tu, from.sp, c, a, r)
    ensures EnergyCoded(su, from, old(eBands[..]), old(a.oldEBands[..]), w.steering, c.h.intra, c.h.qs,
                        a.oldEBands[..], delayed)
    ensures HeaderAsked(su, from.sp, c.h, w.wanted, want, old(a.offsets[..]))
  {
    hide *;
    PlanFacts(su, w, eBands, error, a);
    PlacedIs(from, true);
    FitFacts(su, a);
    ghost var intra, qs, h;
    ghost var offsets := a.offsets[..];
    delayed, intra, qs := EncodeEnergy(su, enc, eBands, a.oldEBands, error, w.steering, from);
    ghost var levels := a.oldEBands[..];
    assert a.offsets[..] == offsets;
    var spread, trim, promised;
    spread, trim, promised, h := CodeSide(su, enc, true, a, w.wanted, from, want, intra, qs);
    size := CutPacket(su, enc, a, w.vbr, w.target, promised, spread, trim, from, h);
    var tu := su.(size := size);
    CutIs(su, from.sp, h, w, size);
    r, c := CodeAllocation(tu, enc, true, a, spread, trim, w.intensity, w.dual, w.prev, w.signalBandwidth, from, h);
    assert a.oldEBands[..] == levels;
  }

  lemma PlanFacts(su: Setup, w: Plan, eBands: array<int>, error: array<int>, a: Arrays)
    requires ValidSetup(su) && Fit(su, a) && ValidPlan(su, w) && Apart(eBands, error, a)
    ensures Usable(w.wanted) && su.start <= w.intensity && su.start <= w.steering.effEnd <= Rate.Bands(su.m)
    ensures a.oldEBands != error && a.oldEBands != eBands && error != eBands
    ensures a.tfRes != eBands && a.tfRes != error && a.offsets != eBands && a.offsets != error
    ensures a.oldEBands != a.tfRes && a.oldEBands != a.offsets && a.oldEBands != a.pulses && a.oldEBands != a.ebits
    ensures a.oldEBands.Length >= su.C * Rate.Bands(su.m)
  {
    hide ValidSetup, Usable;
  }

  lemma CutIs(su: Setup, sp: Span, h: Header, w: Plan, size: nat)
    requires ValidSetup(su) && Proper(sp) && Shaped(su, h)
    requires size == if w.vbr then Min(su.size, Max(MinAllowed(su, sp, h), w.target)) else su.size
    ensures CutTo(su, sp, h, w, size)
  {
  }

  /** The decoder's side. */
  method DecodeFrame(su: Setup, dec: EcCtx, a: Arrays, ghost from: Origin) returns (r: Decided, ghost c: Content)
    requires ValidSetup(su) && Fit(su, a) && Placed(from, false) && At(dec, false, from, []) && dec.storage == su.size
    requires Blank(su, a.offsets[..])
    modifies a.oldEBands, a.tfRes, a.offsets, a.pulses, a.ebits, a.priority, dec, dec.buf
    ensures ValidContent(su, from.sp, c) && At(dec, false, from, FrameOps(su, from.sp, c)) && dec.storage == su.size
    ensures Results(su, from.sp, c, a, r)
    ensures EnergyRead(su, from.sp, c, old(a.oldEBands[..]), a.oldEBands[..])
  {
    hide *;
    PlacedIs(from, false);
    FitFacts(su, a);
    EnergyArray(su, a);
    ghost var was, offsets := a.oldEBands[..], a.offsets[..];
    var intra := Energy.CodeIntra(dec, false, false, 8 * dec.storage, from, []);
    IntraRead(su, dec, from, intra);
    ghost var qs := Energy.UnquantCoarseEnergy(Rate.Bands(su.m), su.start, su.end, a.oldEBands, intra, dec, su.C, su.lm,
                                               from, Energy.IntraOps(from.sp, 8 * su.size, intra));
    ghost var levels := a.oldEBands[..];
    EnergyHere(su, dec, from, intra, qs, was, levels);
    assert a.offsets[..] == offsets;
    var spread, trim, promised;
    ghost var h;
    spread, trim, promised, h := CodeSide(su, dec, false, a, Wanted(false, 0, 0), from, [], intra, qs);
    r, c := CodeAllocation(su, dec, false, a, spread, trim, su.start, false, 0, 0, from, h);
    assert a.oldEBands[..] == levels;
    EnergyKept(su, from.sp, c, was, levels, intra, qs);
  }

  /** The energies are those of the values read, from the old ones on. */
  ghost predicate EnergyRead(su: Setup, sp: Span, c: Content, was: seq<int>, now: seq<int>)
    requires ValidSetup(su) && Proper(sp)
  {
    var f := EnergyFrame(su, sp, c.h.intra);
    && Energy.Inside(f, Rate.Bands(su.m), |c.h.qs|, |was|)
    && now == Energy.Filled(f, Rate.Bands(su.m), c.h.qs, |c.h.qs|, was, true)
  }

  lemma EnergyArray(su: Setup, a: Arrays)
    requires ValidSetup(su) && Fit(su, a)
    ensures a.oldEBands.Length >= su.C * Rate.Bands(su.m) && 1 <= su.C <= 2 && su.lm <= 3
    ensures a.oldEBands != a.tfRes && a.oldEBands != a.offsets && a.oldEBands != a.pulses && a.oldEBands != a.ebits
  {
    hide Rate.ValidMode;
  }

  lemma IntraRead(su: Setup, dec: EcCtx, from: Origin, intra: bool)
    requires Placed(from, false) && Proper(from.sp)
    requires At(dec, false, from, [] + Energy.IntraOps(Run(from.sp, []), 8 * su.size, intra))
    ensures Run(from.sp, []) == from.sp && At(dec, false, from, Energy.IntraOps(from.sp, 8 * su.size, intra))
  {
    RunNone(from.sp);
    hide Energy.IntraOps, At, Run;
    assert [] + Energy.IntraOps(from.sp, 8 * su.size, intra) == Energy.IntraOps(from.sp, 8 * su.size, intra);
  }

  lemma EnergyHere(su: Setup, dec: EcCtx, from: Origin, intra: bool, qs: seq<int>, was: seq<int>, now: seq<int>)
    requires ValidSetup(su) && Proper(from.sp) && (Tell(from.sp) + 3 > 8 * su.size ==> !intra)
    requires |qs| == Energy.Count(su.start, su.C, su.end)
    requires Energy.Reached(dec, false, from, Energy.IntraOps(from.sp, 8 * su.size, intra),
                            Energy.Frame(Run(from.sp, Energy.IntraOps(from.sp, 8 * su.size, intra)), 8 * su.size,
                                         su.start, su.C, su.lm, intra), qs)
    ensures EnergyFits(su, from.sp, intra, qs) && At(dec, false, from, EnergyPart(su, from.sp, intra, qs))
    ensures Energy.ValidFrame(Energy.Frame(Run(from.sp, Energy.IntraOps(from.sp, 8 * su.size, intra)), 8 * su.size,
                                           su.start, su.C, su.lm, intra))
  {
    hide Tell, Run, Rate.ValidMode, Energy.IntraOps, Energy.EnergyOps, Energy.AllFit, At;
  }

  lemma EnergyKept(su: Setup, sp: Span, c: Content, was: seq<int>, now: seq<int>, intra: bool, qs: seq<int>)
    requires ValidSetup(su) && Proper(sp) && c.h.intra == intra && c.h.qs == qs
    requires var f := Energy.Frame(Run(sp, Energy.IntraOps(sp, 8 * su.size, intra)), 8 * su.size, su.start, su.C, su.lm,
                                   intra);
      && Energy.ValidFrame(f) && Energy.Inside(f, Rate.Bands(su.m), |qs|, |was|)
      && now == Energy.Filled(f, Rate.Bands(su.m), qs, |qs|, was, true)
    ensures EnergyRead(su, sp, c, was, now)
  {
    hide Run, Energy.IntraOps, Energy.Filled, Energy.Inside, ValidSetup;
  }

  // ------------------------------------------------------------ a whole packet

  /** The start of a packet. */
  const BEGIN := Origin([], [], START)

  lemma BeginHere(enc: EcCtx)
    requires enc.ValidEnc() && enc.ops == []
    ensures Placed(BEGIN, true) && At(enc, true, BEGIN, []) && BEGIN.sp == START && Proper(START)
  {
    assert BEGIN.ops + [] == enc.ops;
    StartProper();
    RunNone(START);
    hide EcCtx.ValidEnc, Run;
  }

  lemma StartTell()
    ensures Proper(START) && Tell(START) == 1
  {
    StartProper();
    Pow2Values();
    ILogUnique(TOP, 32);
  }

  /** A frame that fits its packet is finished without an error. */
  lemma FrameFits(tu: Setup, enc: EcCtx, c: Content)
    requires ValidSetup(tu) && Proper(START) && ValidContent(tu, START, c) && tu.size > 0
    requires At(enc, true, BEGIN, FrameOps(tu, START, c)) && enc.storage == tu.size
    ensures enc.ValidEnc() && enc.ops == FrameOps(tu, START, c) && Fits(enc.Where(), enc.storage)
  {
    hide ValidSetup, ValidContent, FrameOps, Tell, Run, EcCtx.ValidEnc, Fits;
    StartTell();
    FrameWithin(tu, START, c);
    assert BEGIN.ops + FrameOps(tu, START, c) == FrameOps(tu, START, c);
    TellFits(enc.Where(), enc.storage);
  }

  /** An encoder that fills a packet with the frame alone never fails. */
  method WriteFrame(su: Setup, b: array<byte>, eBands: array<int>, error: array<int>, a: Arrays, w: Plan,
                    ghost want: seq<bool>)
    returns (err: int, size: nat, delayed: int, r: Decided, ghost c: Content)
    requires ValidSetup(su) && Fit(su, a) && ValidPlan(su, w) && 0 < su.size <= b.Length
    requires Apart(eBands, error, a) && Blank(su, a.offsets[..]) && eBands.Length == a.oldEBands.Length == error.Length
    requires |want| == su.end - su.start && Tf.HoldsFlags(a.tfRes, su.start, want)
    modifies a.oldEBands, error, a.tfRes, a.offsets, a.pulses, a.ebits, a.priority, b
    ensures err == 0 && size <= su.size && Placed(BEGIN, true) && Proper(START)
    ensures Shaped(su, c.h) && ValidHeader(su, START, c.h) && CutTo(su, START, c.h, w, size)
    ensures var tu := su.(size := size);
      && ValidSetup(tu) && Fit(tu, a) && ValidContent(tu, START, c) && Results(tu, START, c, a, r)
      && Carries(b[..size], START, FrameOps(tu, START, c))
    ensures EnergyCoded(su, BEGIN, old(eBands[..]), old(a.oldEBands[..]), w.steering, c.h.intra, c.h.qs,
                        a.oldEBands[..], delayed)
    ensures HeaderAsked(su, START, c.h, w.wanted, want, old(a.offsets[..]))
  {
    hide *;
    var enc := new EcCtx.EncInit(b, su.size);
    BeginHere(enc);
    size, delayed, r, c := EncodeFrame(su, enc, eBands, error, a, w, BEGIN, want);
    ghost var tu := su.(size := size);
    CutPositive(su, c.h, w, size);
    FrameFits(tu, enc, c);
    enc.Done();
    err := enc.error;
  }

  lemma CutPositive(su: Setup, h: Header, w: Plan, size: nat)
    requires ValidSetup(su) && Proper(START) && Shaped(su, h) && CutTo(su, START, h, w, size) && su.size > 0
    ensures size > 0
  {
    hide ValidSetup, Shaped, AfterHeader, BoostTotal, TellFrac.TellEighths, Run;
    TellAtLeast(AfterHeader(su, START, h));
  }

  lemma TellAtLeast(sp: Span)
    requires Proper(sp)
    ensures TellFrac.TellEighths(sp) > 0
  {
    TellFrac.TellOfEighths(sp);
    RangeBits(sp);
  }

  /** A decoder that starts where the packet does. */
  method ReadFrame(su: Setup, b: array<byte>, a: Arrays, ghost data: seq<byte>) returns (r: Decided, ghost c: Content)
    requires ValidSetup(su) && Fit(su, a) && su.size <= b.Length && data == b[..su.size] && Blank(su, a.offsets[..])
    modifies a.oldEBands, a.tfRes, a.offsets, a.pulses, a.ebits, a.priority, b
    ensures Proper(START) && ValidContent(su, START, c) && Carries(data, START, FrameOps(su, START, c))
    ensures Results(su, START, c, a, r) && EnergyRead(su, START, c, old(a.oldEBands[..]), a.oldEBands[..])
  {
    hide *;
    StartProper();
    var dec := new EcCtx.DecInit(b, su.size);
    ghost var from := ThereNow(dec);
    r, c := DecodeFrame(su, dec, a, from);
    ThereRead(dec, from, FrameOps(su, START, c));
  }

  ghost method ThereNow(dec: EcCtx) returns (from: Origin)
    requires dec.ValidDec() && dec.pos == START
    ensures Placed(from, false) && At(dec, false, from, []) && from.sp == START && from.data == dec.data
  {
    from := Here(dec, false);
  }

  lemma ThereRead(dec: EcCtx, from: Origin, steps: seq<Op>)
    requires At(dec, false, from, steps)
    ensures Proper(from.sp) && AllLegal(steps) && Carries(from.data, from.sp, steps)
  {
    hide EcCtx.ValidDec;
  }

  /** Arrays that show the same header and allocation. */
  ghost predicate Agree(su: Setup, a: Arrays, b: Arrays)
    reads a.tfRes, a.offsets, a.pulses, a.ebits, a.priority, b.tfRes, b.offsets, b.pulses, b.ebits, b.priority
    requires ValidSetup(su) && Fit(su, a) && Fit(su, b)
  {
    && a.tfRes[su.start..su.end] == b.tfRes[su.start..su.end] && a.offsets[..] == b.offsets[..]
    && forall j :: su.start <= j < su.end && j < Rate.Bands(su.m) ==>
         a.pulses[j] == b.pulses[j] && a.ebits[j] == b.ebits[j] && a.priority[j] == b.priority[j]
  }

  lemma ResultsAgree(su: Setup, sp: Span, c: Content, d: Content, a: Arrays, b: Arrays, ra: Decided, rb: Decided)
    requires ValidSetup(su) && Proper(sp) && ValidContent(su, sp, c) && ValidContent(su, sp, d) && Fit(su, a)
    requires Fit(su, b) && SameResults(su, sp, c, d)
    requires Results(su, sp, c, a, ra) && Results(su, sp, d, b, rb)
    ensures Agree(su, a, b) && ra == rb
  {
    hide ValidSetup, Alloc.AllocOutcome, Alloc.ValidChoice, Tf.Resolutions, AfterEnergy, AfterSpread, AfterHeader,
      AllocFrame, ValidHeader, SpreadOf, TrimOf, Offsets, FlagFrame, Shaped;
    var o := Alloc.AllocOutcome(AllocFrame(su, sp, c.h), c.ch);
    forall j | su.start <= j < su.end && j < Rate.Bands(su.m)
      ensures a.pulses[j] == b.pulses[j] && a.ebits[j] == b.ebits[j] && a.priority[j] == b.priority[j]
    {
      assert Allocator.Shown(a.pulses, a.ebits, a.priority, su.start + (j - su.start), o.splits[j - su.start]);
      assert Allocator.Shown(b.pulses, b.ebits, b.priority, su.start + (j - su.start), o.splits[j - su.start]);
    }
  }

  /** Where no value is lost, equal energies are exactly bounded ones. */
  ghost predicate EnergiesAgree(p: EnergyPass.Input, enc: seq<int>, dec: seq<int>)
    requires EnergyPass.ValidInput(p)
  {
    !EnergyPass.Loses(p, 0) && !EnergyPass.Loses(p, 1) ==> (enc == dec <==> EnergyLockstep.Bounded(p))
  }

  /** The encoder's pass in the packet as it was before the cut. */
  lemma PassCarried(data: seq<byte>, su: Setup, tu: Setup, w: Plan, c: Content, size: nat)
    requires ValidSetup(su) && tu == su.(size := size) && ValidSetup(tu) && Proper(START) && size <= su.size
    requires Shaped(su, c.h) && ValidHeader(su, START, c.h) && CutTo(su, START, c.h, w, size)
    requires ValidContent(tu, START, c) && Carries(data, START, FrameOps(tu, START, c))
    ensures var f := EnergyFrame(su, START, c.h.intra);
      && Carries(data, f.sp, Energy.EnergyOps(f, c.h.qs, |c.h.qs|)) && Energy.AllFit(f, c.h.qs, |c.h.qs|)
      && EnergyFrame(tu, START, c.h.intra) == f.(budget := 8 * size)
  {
    hide *;
    CutAllowed(su, START, c.h, w, size);
    FrameHead(data, tu, START, c);
    if size < su.size {
      HeaderSame(su, tu, START, c.h);
      AllowedSpares(su, START, c.h, size);
      AllowedSpares(su, START, c.h, su.size);
      SparesTells(su, START, c.h, size);
      SparesTells(su, START, c.h, su.size);
      EnergyPartSame(su, tu, START, c.h);
    } else {
      assert tu == su;
      BudgetIs(su, START, c.h.intra);
    }
    PartsCarried(data, su, START, c.h);
    EnergyHead(data, su, START, c.h);
    EnergySplit(data, su, START, c.h);
  }

  lemma BudgetIs(su: Setup, sp: Span, intra: bool)
    requires ValidSetup(su) && Proper(sp)
    ensures EnergyFrame(su, sp, intra) == EnergyFrame(su, sp, intra).(budget := 8 * su.size)
  {
    hide ValidSetup, Run, Energy.IntraOps;
  }

  lemma CutAllowed(su: Setup, sp: Span, h: Header, w: Plan, size: nat)
    requires ValidSetup(su) && Proper(sp) && Shaped(su, h) && CutTo(su, sp, h, w, size)
    ensures size < su.size ==> MinAllowed(su, sp, h) <= size
  {
    hide ValidSetup, Shaped, MinAllowed;
  }

  /** A packet that carries the frame carries its header. */
  lemma FrameHead(data: seq<byte>, su: Setup, sp: Span, c: Content)
    requires ValidSetup(su) && Proper(sp) && ValidContent(su, sp, c) && Carries(data, sp, FrameOps(su, sp, c))
    ensures Shaped(su, c.h) && ValidHeader(su, sp, c.h) && Carries(data, sp, HeaderOps(su, sp, c.h))
  {
    hide ValidSetup, ValidHeader, Shaped, HeaderOps, AllocFrame, Alloc.AllocOps, Alloc.ValidChoice, Carries, Run;
    CarriesConcat(data, sp, HeaderOps(su, sp, c.h), Alloc.AllocOps(AllocFrame(su, sp, c.h), c.ch));
  }

  lemma EnergyHead(data: seq<byte>, su: Setup, sp: Span, h: Header)
    requires ValidSetup(su) && Proper(sp) && Shaped(su, h) && CarriesParts(data, su, sp, h) && ValidHeader(su, sp, h)
    ensures Carries(data, sp, EnergyPart(su, sp, h.intra, h.qs))
    ensures Energy.AllFit(EnergyFrame(su, sp, h.intra), h.qs, |h.qs|)
  {
    hide ValidSetup, EnergyPart, FlagPart, SpreadPart, BoostPart, TrimPart, AfterEnergy, AfterFlags, AfterSpread,
      AfterBoosts, BoostTotal, Carries, Tell, AllCan, BoostFrame, EnergyFrame, Energy.AllFit;
  }

  /** The energies both sides end with. */
  lemma EnergyBoth(data: seq<byte>, su: Setup, w: Plan, c: Content, size: nat, x: seq<int>, was: seq<int>,
                   enc: seq<int>, dec: seq<int>, delayed: int)
    requires ValidSetup(su) && ValidSetup(su.(size := size)) && Placed(BEGIN, true) && Proper(START)
    requires BEGIN.sp == START
    requires |x| == |was| >= su.C * Rate.Bands(su.m) && su.start <= w.steering.effEnd <= Rate.Bands(su.m)
    requires EnergyCoded(su, BEGIN, x, was, w.steering, c.h.intra, c.h.qs, enc, delayed)
    requires var f := EnergyFrame(su, START, c.h.intra);
      && Carries(data, f.sp, Energy.EnergyOps(f, c.h.qs, |c.h.qs|)) && Energy.AllFit(f, c.h.qs, |c.h.qs|)
      && EnergyFrame(su.(size := size), START, c.h.intra) == f.(budget := 8 * size)
    requires EnergyRead(su.(size := size), START, c, was, dec)
    ensures EnergiesAgree(EnergyTrial.PassInput(EnergySetting(su, BEGIN, x, was, w.steering), c.h.intra), enc, dec)
  {
    PassIs(su, BEGIN, x, was, w.steering, c.h.intra);
    var p := EnergyTrial.PassInput(EnergySetting(su, BEGIN, x, was, w.steering), c.h.intra);
    var f, n := EnergyFrame(su, START, c.h.intra), |c.h.qs|;
    hide Run, Tell, Carries, ValidSetup, Placed, EnergySetting, EnergyTrial.PassInput, Energy.Filled, Energy.Inside,
      Energy.EnergyOps, Energy.AllFit, EnergyPass.Coded, EnergyPass.Energies, EnergyPass.Total, EnergyPass.Loses,
      EnergyLockstep.Bounded, EnergyPass.ValidInput, EnergyFrame, IntraChosen, Distortion.Delayed, Distortion.Loss,
      Energy.ValidFrame;
    EnergyLockstep.Lockstep(data, p, c.h.qs);
    Energy.FilledBudget(f, f.(budget := 8 * size), Rate.Bands(su.m), c.h.qs, n, was, true);
  }

  /** A frame through a packet.  The encoder never fails; the decoder, which only knows the
      cut packet, ends with the encoder's flags, boosts, spread, trim and allocation; and
      if both began with the same energies and the encoder lost no value, they end with the
      same ones exactly when the encoder's stay within the decoder's bound. */
  method RoundTrip(su: Setup, e: Arrays, d: Arrays, eBands: array<int>, error: array<int>, w: Plan,
                   ghost want: seq<bool>)
    returns (err: int, size: nat, delayed: int, re: Decided, rd: Decided, ghost c: Content, ghost p: EnergyPass.Input)
    requires ValidSetup(su) && Fit(su, e) && Fit(su, d) && ValidPlan(su, w) && su.size > 0
    requires Apart(eBands, error, e) && Blank(su, e.offsets[..]) && Blank(su, d.offsets[..])
    requires |want| == su.end - su.start && Tf.HoldsFlags(e.tfRes, su.start, want)
    requires eBands.Length == e.oldEBands.Length == error.Length
    requires {d.oldEBands, d.tfRes, d.offsets, d.pulses, d.ebits} !!
             {e.oldEBands, e.tfRes, e.offsets, e.pulses, e.ebits, eBands, error}
    requires d.priority != e.priority
    modifies e.oldEBands, error, e.tfRes, e.offsets, e.pulses, e.ebits, e.priority
    modifies d.oldEBands, d.tfRes, d.offsets, d.pulses, d.ebits, d.priority
    ensures err == 0 && rd == re && Agree(su, e, d)
    ensures Placed(BEGIN, true) && Proper(START) && Shaped(su, c.h) && CutTo(su, START, c.h, w, size)
    ensures HeaderAsked(su, START, c.h, w.wanted, want, old(e.offsets[..]))
    ensures EnergyCoded(su, BEGIN, old(eBands[..]), old(e.oldEBands[..]), w.steering, c.h.intra, c.h.qs,
                        e.oldEBands[..], delayed)
    ensures p == EnergyTrial.PassInput(EnergySetting(su, BEGIN, old(eBands[..]), old(e.oldEBands[..]), w.steering),
                                       c.h.intra)
    ensures old(e.oldEBands[..]) == old(d.oldEBands[..]) ==> EnergiesAgree(p, e.oldEBands[..], d.oldEBands[..])
  {
    hide *;
    ghost var x, was, there, blank := eBands[..], e.oldEBands[..], d.oldEBands[..], d.offsets[..];
    EnergyArray(su, e);
    PlanFacts(su, w, eBands, error, e);
    var b := new byte[su.size];
    err, size, delayed, re, c := WriteFrame(su, b, eBands, error, e, w, want);
    var tu := su.(size := size);
    p := EnergyTrial.PassInput(EnergySetting(su, BEGIN, x, was, w.steering), c.h.intra);
    ghost var data, levels := b[..size], e.oldEBands[..];
    assert d.oldEBands[..] == there && d.offsets[..] == blank;
    FitSame(su, tu, d, blank);
    ghost var r;
    rd, r := ReadFrame(tu, b, d, data);
    assert e.oldEBands[..] == levels;
    FrameOnce(data, tu, START, c, r);
    ResultsAgree(tu, START, c, r, e, d, re, rd);
    AgreeSame(su, tu, e, d);
    if was == there {
      PassCarried(data, su, tu, w, c, size);
      ReadSame(tu, START, c, r, there, d.oldEBands[..]);
      BeginIs();
      EnergyBoth(data, su, w, c, size, x, was, levels, d.oldEBands[..], delayed);
    }
  }

  lemma BeginIs()
    ensures BEGIN.sp == START
  {
  }

  lemma FitSame(su: Setup, tu: Setup, a: Arrays, offsets: seq<int>)
    requires ValidSetup(su) && ValidSetup(tu) && tu == su.(size := tu.size) && Fit(su, a) && Blank(su, offsets)
    ensures Fit(tu, a) && Blank(tu, offsets)
  {
    hide ValidSetup;
  }

  lemma AgreeSame(su: Setup, tu: Setup, a: Arrays, b: Arrays)
    requires ValidSetup(su) && ValidSetup(tu) && tu == su.(size := tu.size) && Fit(su, a) && Fit(su, b)
    requires Fit(tu, a) && Fit(tu, b) && Agree(tu, a, b)
    ensures Agree(su, a, b)
  {
    hide ValidSetup, Fit;
  }

  lemma ReadSame(su: Setup, sp: Span, c: Content, d: Content, was: seq<int>, now: seq<int>)
    requires ValidSetup(su) && Proper(sp) && ValidContent(su, sp, c) && ValidContent(su, sp, d)
    requires SameResults(su, sp, c, d) && EnergyRead(su, sp, d, was, now)
    ensures EnergyRead(su, sp, c, was, now)
  {
    hide ValidSetup, ValidContent, EnergyFrame, Energy.Filled, Energy.Inside, Alloc.AllocOutcome, Tf.Resolutions;
  }
}
