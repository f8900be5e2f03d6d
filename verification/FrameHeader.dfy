/** What stands in a frame before the bit allocation: energies, resolution flags, spread,
    boosts and trim, each as far as the bits go. */
module FrameHeader {
  import opened Arith
  import opened Interval
  import opened EntCode
  import opened Duplex
  import opened TellFrac
  import opened Boosts
  import Energy
  import Tf
  import Rate

  const SPREAD_ICDF: seq<nat> := [25, 23, 2, 0]
  const TRIM_ICDF: seq<nat> := [126, 124, 119, 109, 87, 41, 19, 9, 4, 2, 0]
  const SPREAD_NORMAL: nat := 2

  /** What both sides know before the frame. */
  datatype Setup = Setup(m: Rate.Mode, start: nat, end: nat, C: nat, lm: nat, transient: bool, cap: seq<int>, size: nat)

  /** What only the encoder knows, or a decoder finds in the packet. */
  datatype Header = Header(intra: bool, qs: seq<int>, want: seq<bool>, sel: bool, spread: nat, boosts: seq<nat>,
                           trim: nat)

  predicate ValidSetup(su: Setup) {
    && su.lm <= 3 && Rate.ValidMode(su.m) && su.start < su.end <= Rate.Bands(su.m) && su.end - su.start <= 23
    && 1 <= su.C <= 2 && |su.cap| == Rate.Bands(su.m) && Rate.Nonnegative(su.cap)
  }

  // ------------------------------------------------------------ the five parts

  function EnergyFrame(su: Setup, sp: Span, intra: bool): (f: Energy.Frame)
    requires ValidSetup(su) && Proper(sp)
    ensures Energy.ValidFrame(f)
  {
    hide Rate.ValidMode, Energy.IntraOps, Run;
    Energy.Frame(Run(sp, Energy.IntraOps(sp, 8 * su.size, intra)), 8 * su.size, su.start, su.C, su.lm, intra)
  }

  function EnergyPart(su: Setup, sp: Span, intra: bool, qs: seq<int>): (ops: seq<Op>)
    requires ValidSetup(su) && Proper(sp)
    ensures AllLegal(ops)
  {
    hide EnergyFrame, Energy.IntraOps, Energy.EnergyOps;
    Energy.IntraOps(sp, 8 * su.size, intra) + Energy.EnergyOps(EnergyFrame(su, sp, intra), qs, |qs|)
  }

  function AfterEnergy(su: Setup, sp: Span, h: Header): (r: Span)
    requires ValidSetup(su) && Proper(sp)
    ensures Proper(r)
  {
    Run(sp, EnergyPart(su, sp, h.intra, h.qs))
  }

  function FlagFrame(su: Setup, sp: Span): (f: Tf.FlagSetting)
    requires ValidSetup(su) && Proper(sp)
    ensures Tf.ValidFlagSetting(f)
  {
    hide Rate.ValidMode;
    Tf.FlagSetting(sp, 8 * su.size, su.transient, su.lm)
  }

  function FlagPart(su: Setup, sp: Span, want: seq<bool>, sel: bool): (ops: seq<Op>)
    requires ValidSetup(su) && Proper(sp)
    ensures AllLegal(ops)
  {
    hide FlagFrame, Tf.TfOps;
    Tf.TfOps(FlagFrame(su, sp), want, sel)
  }

  function AfterFlags(su: Setup, sp: Span, h: Header): (r: Span)
    requires ValidSetup(su) && Proper(sp)
    ensures Proper(r)
  {
    Run(AfterEnergy(su, sp, h), FlagPart(su, AfterEnergy(su, sp, h), h.want, h.sel))
  }

  lemma SpreadModel()
    ensures IcdfTable(SPREAD_ICDF, 5) && forall s :: 0 <= s < 4 ==> HasWidth(SPREAD_ICDF, s, 5)
    ensures forall s: nat :: HasWidth(SPREAD_ICDF, s, 5) ==> s < 4
    ensures Pow2(5) == 32
  {
  }

  predicate SpreadCoded(su: Setup, sp: Span) { Tell(sp) + 4 <= 8 * su.size }

  function SpreadPart(su: Setup, sp: Span, spread: nat): (ops: seq<Op>)
    requires spread < 4
    ensures AllLegal(ops)
  {
    SpreadModel();
    hide IcdfTable, HasWidth;
    if SpreadCoded(su, sp) then [IcdfOp(spread, SPREAD_ICDF, 5)] else []
  }

  /** The spread both sides go on with. */
  function SpreadOf(su: Setup, sp: Span, h: Header): nat
    requires ValidSetup(su) && Proper(sp)
  {
    if SpreadCoded(su, AfterFlags(su, sp, h)) then h.spread else SPREAD_NORMAL
  }

  function AfterSpread(su: Setup, sp: Span, h: Header): (r: Span)
    requires ValidSetup(su) && Proper(sp) && h.spread < 4
    ensures Proper(r)
  {
    Run(AfterFlags(su, sp, h), SpreadPart(su, AfterFlags(su, sp, h), h.spread))
  }

  /** One boost: six bits, but no more than one a sample and no less than an eighth. */
  function Quanta(width: nat): (q: nat)
    ensures width <= q <= 8 * width && (width > 0 ==> q > 0)
    ensures 6 <= width <= 48 ==> q == 48
    ensures (q > 48 ==> q == width) && (q < 48 ==> q == 8 * width)
  {
    Min(8 * width, Max(48, width))
  }

  /** Samples in a band, over all channels. */
  function BandWidth(su: Setup, j: nat): (w: nat)
    requires ValidSetup(su) && j < Rate.Bands(su.m)
    ensures w > 0
  {
    MulMono(1, Pow2(su.lm), su.C * (su.m.eBands[j + 1] - su.m.eBands[j]));
    MulMono(1, su.C, su.m.eBands[j + 1] - su.m.eBands[j]);
    su.C * (su.m.eBands[j + 1] - su.m.eBands[j]) * Pow2(su.lm)
  }

  function BoostBand(su: Setup, i: nat): (b: Boosted)
    requires ValidSetup(su) && i < su.end - su.start
    ensures b.quanta > 0
  {
    Boosted(Quanta(BandWidth(su, su.start + i)), su.cap[su.start + i])
  }

  function BoostBands(su: Setup): (bands: seq<Boosted>)
    requires ValidSetup(su)
    ensures |bands| == su.end - su.start && forall i :: 0 <= i < |bands| ==> bands[i].quanta > 0
  {
    hide Rate.ValidMode, BoostBand;
    seq(su.end - su.start, i requires 0 <= i < su.end - su.start => BoostBand(su, i))
  }

  function BoostFrame(su: Setup, sp: Span): (f: BoostInput)
    requires ValidSetup(su)
  {
    BoostInput(sp, 64 * su.size, BoostBands(su))
  }

  function BoostPart(su: Setup, sp: Span, boosts: seq<nat>): (ops: seq<Op>)
    requires ValidSetup(su) && Proper(sp) && |boosts| == su.end - su.start
    ensures AllLegal(ops)
  {
    hide BoostBands, BoostOps;
    BoostOps(BoostFrame(su, sp), boosts, |boosts|)
  }

  function AfterBoosts(su: Setup, sp: Span, h: Header): (s: Span)
    requires ValidSetup(su) && Proper(sp) && h.spread < 4 && |h.boosts| == su.end - su.start
    ensures Proper(s)
  {
    Run(AfterSpread(su, sp, h), BoostPart(su, AfterSpread(su, sp, h), h.boosts))
  }

  /** Eighth-bits promised to boosted bands. */
  function BoostTotal(su: Setup, sp: Span, h: Header): nat
    requires ValidSetup(su) && Proper(sp) && h.spread < 4 && |h.boosts| == su.end - su.start
  {
    hide BoostBands, Promised;
    Promised(BoostFrame(su, AfterSpread(su, sp, h)), h.boosts, |h.boosts|)
  }

  lemma TrimModel()
    ensures IcdfTable(TRIM_ICDF, 7) && forall s :: 0 <= s < 11 ==> HasWidth(TRIM_ICDF, s, 7)
    ensures forall s: nat :: HasWidth(TRIM_ICDF, s, 7) ==> s < 11
    ensures Pow2(7) == 128
  {
  }

  predicate TrimCoded(su: Setup, sp: Span, promised: nat)
    requires Proper(sp)
  {
    TellEighths(sp) + 48 <= 64 * su.size - promised
  }

  function TrimPart(su: Setup, sp: Span, promised: nat, trim: nat): (ops: seq<Op>)
    requires trim < 11 && Proper(sp)
    ensures AllLegal(ops)
  {
    TrimModel();
    hide IcdfTable, HasWidth, TellEighths;
    if TrimCoded(su, sp, promised) then [IcdfOp(trim, TRIM_ICDF, 7)] else []
  }

  predicate Shaped(su: Setup, h: Header)
    requires ValidSetup(su)
  {
    h.spread < 4 && |h.boosts| == su.end - su.start && h.trim < 11
  }

  /** The trim both sides go on with. */
  function TrimOf(su: Setup, sp: Span, h: Header): nat
    requires ValidSetup(su) && Proper(sp) && Shaped(su, h)
  {
    if TrimCoded(su, AfterBoosts(su, sp, h), BoostTotal(su, sp, h)) then h.trim else 5
  }

  function AfterHeader(su: Setup, sp: Span, h: Header): (r: Span)
    requires ValidSetup(su) && Proper(sp) && Shaped(su, h)
    ensures Proper(r)
  {
    Run(AfterBoosts(su, sp, h), TrimPart(su, AfterBoosts(su, sp, h), BoostTotal(su, sp, h), h.trim))
  }

  /** Everything can be coded where it stands. */
  ghost predicate ValidHeader(su: Setup, sp: Span, h: Header)
    requires ValidSetup(su) && Proper(sp)
  {
    && (Tell(sp) + 3 > 8 * su.size ==> !h.intra)
    && |h.qs| == Energy.Count(su.start, su.C, su.end) && |h.want| == su.end - su.start && Shaped(su, h)
    && Energy.AllFit(EnergyFrame(su, sp, h.intra), h.qs, |h.qs|)
    && AllCan(BoostFrame(su, AfterSpread(su, sp, h)), h.boosts, |h.boosts|)
  }

  function HeaderOps(su: Setup, sp: Span, h: Header): (ops: seq<Op>)
    requires ValidSetup(su) && Proper(sp) && Shaped(su, h)
    ensures AllLegal(ops)
  {
    hide *;
    var e, t := EnergyPart(su, sp, h.intra, h.qs), FlagPart(su, AfterEnergy(su, sp, h), h.want, h.sel);
    ShapedIs(su, h);
    var s, b := SpreadPart(su, AfterFlags(su, sp, h), h.spread), BoostPart(su, AfterSpread(su, sp, h), h.boosts);
    var r := TrimPart(su, AfterBoosts(su, sp, h), BoostTotal(su, sp, h), h.trim);
    LegalJoin(e, t);
    LegalJoin(e + t, s);
    LegalJoin(e + t + s, b);
    LegalJoin(e + t + s + b, r);
    e + t + s + b + r
  }

  lemma ShapedIs(su: Setup, h: Header)
    requires ValidSetup(su) && Shaped(su, h)
    ensures h.spread < 4 && |h.boosts| == su.end - su.start && h.trim < 11
  {
  }

  /** The parts stand one after the other. */
  lemma HeaderSpans(su: Setup, sp: Span, h: Header)
    requires ValidSetup(su) && Proper(sp) && Shaped(su, h)
    ensures Run(sp, HeaderOps(su, sp, h)) == AfterHeader(su, sp, h)
  {
    hide EnergyPart, FlagPart, SpreadPart, BoostPart, TrimPart, BoostTotal, Rate.ValidMode, Run;
    var e, t := EnergyPart(su, sp, h.intra, h.qs), FlagPart(su, AfterEnergy(su, sp, h), h.want, h.sel);
    var s, b := SpreadPart(su, AfterFlags(su, sp, h), h.spread), BoostPart(su, AfterSpread(su, sp, h), h.boosts);
    RunConcat(sp, e, t);
    RunConcat(sp, e + t, s);
    RunConcat(sp, e + t + s, b);
    RunConcat(sp, e + t + s + b, TrimPart(su, AfterBoosts(su, sp, h), BoostTotal(su, sp, h), h.trim));
  }

  // ---------------------------------------------------------------- lockstep

  ghost predicate CarriesParts(buf: seq<byte>, su: Setup, sp: Span, h: Header)
    requires ValidSetup(su) && Proper(sp) && Shaped(su, h)
  {
    && Carries(buf, sp, EnergyPart(su, sp, h.intra, h.qs))
    && Carries(buf, AfterEnergy(su, sp, h), FlagPart(su, AfterEnergy(su, sp, h), h.want, h.sel))
    && Carries(buf, AfterFlags(su, sp, h), SpreadPart(su, AfterFlags(su, sp, h), h.spread))
    && Carries(buf, AfterSpread(su, sp, h), BoostPart(su, AfterSpread(su, sp, h), h.boosts))
    && Carries(buf, AfterBoosts(su, sp, h), TrimPart(su, AfterBoosts(su, sp, h), BoostTotal(su, sp, h), h.trim))
  }

  lemma PartsCarried(buf: seq<byte>, su: Setup, sp: Span, h: Header)
    requires ValidSetup(su) && Proper(sp) && Shaped(su, h) && Carries(buf, sp, HeaderOps(su, sp, h))
    ensures CarriesParts(buf, su, sp, h)
  {
    hide EnergyPart, FlagPart, SpreadPart, BoostPart, TrimPart, BoostTotal, Rate.ValidMode, Run, Carries;
    var e, t := EnergyPart(su, sp, h.intra, h.qs), FlagPart(su, AfterEnergy(su, sp, h), h.want, h.sel);
    var s, b := SpreadPart(su, AfterFlags(su, sp, h), h.spread), BoostPart(su, AfterSpread(su, sp, h), h.boosts);
    var r := TrimPart(su, AfterBoosts(su, sp, h), BoostTotal(su, sp, h), h.trim);
    RunConcat(sp, e, t);
    RunConcat(sp, e + t, s);
    RunConcat(sp, e + t + s, b);
    CarriesConcat(buf, sp, e + t + s + b, r);
    CarriesConcat(buf, sp, e + t + s, b);
    CarriesConcat(buf, sp, e + t, s);
    CarriesConcat(buf, sp, e, t);
  }

  lemma IntraOnce(buf: seq<byte>, su: Setup, sp: Span, a: Header, b: Header)
    requires ValidSetup(su) && Proper(sp) && ValidHeader(su, sp, a) && ValidHeader(su, sp, b)
    requires Carries(buf, sp, Energy.IntraOps(sp, 8 * su.size, a.intra))
    requires Carries(buf, sp, Energy.IntraOps(sp, 8 * su.size, b.intra))
    ensures a.intra == b.intra
  {
    hide Run, Tell, Carries, ReadsOp, AfterSpread, EnergyFrame, BoostFrame, AllCan, Energy.AllFit, ValidSetup;
    if Tell(sp) + 3 <= 8 * su.size {
      CarriesOne(buf, sp, BitOp(a.intra, 3));
      CarriesOne(buf, sp, BitOp(b.intra, 3));
      BitOnce(buf, sp, a.intra, b.intra, 3);
    }
  }

  lemma EnergySplit(buf: seq<byte>, su: Setup, sp: Span, h: Header)
    requires ValidSetup(su) && Proper(sp) && Carries(buf, sp, EnergyPart(su, sp, h.intra, h.qs))
    ensures Carries(buf, sp, Energy.IntraOps(sp, 8 * su.size, h.intra))
    ensures var f := EnergyFrame(su, sp, h.intra); Carries(buf, f.sp, Energy.EnergyOps(f, h.qs, |h.qs|))
  {
    hide Run, Carries, Energy.IntraOps, Energy.EnergyOps, Rate.ValidMode;
    CarriesConcat(buf, sp, Energy.IntraOps(sp, 8 * su.size, h.intra),
                  Energy.EnergyOps(EnergyFrame(su, sp, h.intra), h.qs, |h.qs|));
  }

  /** One packet, one set of energies. */
  lemma EnergyPartOnce(buf: seq<byte>, su: Setup, sp: Span, a: Header, b: Header)
    requires ValidSetup(su) && Proper(sp) && ValidHeader(su, sp, a) && ValidHeader(su, sp, b)
    requires Carries(buf, sp, EnergyPart(su, sp, a.intra, a.qs)) && Carries(buf, sp, EnergyPart(su, sp, b.intra, b.qs))
    ensures a.intra == b.intra && a.qs == b.qs && EnergyPart(su, sp, a.intra, a.qs) == EnergyPart(su, sp, b.intra, b.qs)
  {
    hide Run, Carries, Energy.IntraOps, Energy.EnergyOps, Energy.AllFit, EnergyFrame, AllCan, AfterSpread, BoostFrame,
      Rate.ValidMode;
    EnergySplit(buf, su, sp, a);
    EnergySplit(buf, su, sp, b);
    IntraOnce(buf, su, sp, a, b);
    Energy.EnergyOnce(buf, EnergyFrame(su, sp, a.intra), a.qs, b.qs, |a.qs|);
    assert a.qs[..|a.qs|] == a.qs && b.qs[..|a.qs|] == b.qs;
  }

  lemma SpreadOnce(buf: seq<byte>, su: Setup, sp: Span, a: Header, b: Header)
    requires Proper(sp) && a.spread < 4 && b.spread < 4
    requires Carries(buf, sp, SpreadPart(su, sp, a.spread)) && Carries(buf, sp, SpreadPart(su, sp, b.spread))
    ensures SpreadPart(su, sp, a.spread) == SpreadPart(su, sp,
                                                       b.spread) && (SpreadCoded(su, sp) ==> a.spread == b.spread)
  {
    SpreadModel();
    hide Carries, ReadsOp, IcdfTable, HasWidth, Tell;
    if SpreadCoded(su, sp) {
      CarriesOne(buf, sp, IcdfOp(a.spread, SPREAD_ICDF, 5));
      CarriesOne(buf, sp, IcdfOp(b.spread, SPREAD_ICDF, 5));
      IcdfOnce(buf, sp, a.spread, b.spread, SPREAD_ICDF, 5);
    }
  }

  lemma BoostPartOnce(buf: seq<byte>, su: Setup, sp: Span, a: Header, b: Header)
    requires ValidSetup(su) && Proper(sp) && |a.boosts| == |b.boosts| == su.end - su.start
    requires AllCan(BoostFrame(su, sp), a.boosts, |a.boosts|) && AllCan(BoostFrame(su, sp), b.boosts, |b.boosts|)
    requires Carries(buf, sp, BoostPart(su, sp, a.boosts)) && Carries(buf, sp, BoostPart(su, sp, b.boosts))
    ensures a.boosts == b.boosts
  {
    hide Carries, AllCan, BoostOps, StateAt, BoostBands, Rate.ValidMode;
    BoostsOnce(buf, BoostFrame(su, sp), a.boosts, b.boosts, |a.boosts|);
    assert a.boosts[..|a.boosts|] == a.boosts && b.boosts[..|a.boosts|] == b.boosts;
  }

  lemma TrimOnce(buf: seq<byte>, su: Setup, sp: Span, promised: nat, a: Header, b: Header)
    requires Proper(sp) && a.trim < 11 && b.trim < 11
    requires Carries(buf, sp, TrimPart(su, sp, promised, a.trim))
    requires Carries(buf, sp, TrimPart(su, sp, promised, b.trim))
    ensures TrimPart(su, sp, promised, a.trim) == TrimPart(su, sp, promised, b.trim)
    ensures TrimCoded(su, sp, promised) ==> a.trim == b.trim
  {
    TrimModel();
    hide Carries, ReadsOp, IcdfTable, HasWidth, TellEighths;
    if TrimCoded(su, sp, promised) {
      CarriesOne(buf, sp, IcdfOp(a.trim, TRIM_ICDF, 7));
      CarriesOne(buf, sp, IcdfOp(b.trim, TRIM_ICDF, 7));
      IcdfOnce(buf, sp, a.trim, b.trim, TRIM_ICDF, 7);
    }
  }

  /** What both sides make of a header. */
  ghost predicate SameHeader(su: Setup, sp: Span, a: Header, b: Header)
    requires ValidSetup(su) && Proper(sp) && Shaped(su, a) && Shaped(su, b)
  {
    && a.intra == b.intra && a.qs == b.qs && a.boosts == b.boosts
    && AfterEnergy(su, sp, a) == AfterEnergy(su, sp, b) && AfterSpread(su, sp, a) == AfterSpread(su, sp, b)
    && AfterHeader(su, sp, a) == AfterHeader(su, sp, b)
    && Tf.Resolutions(FlagFrame(su, AfterEnergy(su, sp, a)), a.want, a.sel)
       == Tf.Resolutions(FlagFrame(su, AfterEnergy(su, sp, b)), b.want, b.sel)
    && SpreadOf(su, sp, a) == SpreadOf(su, sp, b) && TrimOf(su, sp, a) == TrimOf(su, sp, b)
  }

  /** One packet, one header: whatever the encoder coded is what a decoder reads. */
  lemma HeaderOnce(buf: seq<byte>, su: Setup, sp: Span, a: Header, b: Header)
    requires ValidSetup(su) && Proper(sp) && ValidHeader(su, sp, a) && ValidHeader(su, sp, b)
    requires Carries(buf, sp, HeaderOps(su, sp, a)) && Carries(buf, sp, HeaderOps(su, sp, b))
    ensures SameHeader(su, sp, a, b) && HeaderOps(su, sp, a) == HeaderOps(su, sp, b)
  {
    hide *;
    ValidShaped(su, sp, a);
    ValidShaped(su, sp, b);
    PartsCarried(buf, su, sp, a);
    PartsCarried(buf, su, sp, b);
    SameEnergies(buf, su, sp, a, b);
    SameBoosts(buf, su, sp, a, b);
    SameTrim(buf, su, sp, a, b);
    SameOps(su, sp, a, b);
  }

  lemma ValidShaped(su: Setup, sp: Span, h: Header)
    requires ValidSetup(su) && Proper(sp) && ValidHeader(su, sp, h)
    ensures Shaped(su, h)
  {
    hide Rate.ValidMode, Tell, Energy.AllFit, AllCan, EnergyFrame, BoostFrame, AfterSpread;
  }

  /** The first three parts agree. */
  lemma SameEnergies(buf: seq<byte>, su: Setup, sp: Span, a: Header, b: Header)
    requires ValidSetup(su) && Proper(sp) && ValidHeader(su, sp, a) && ValidHeader(su, sp, b)
    requires CarriesParts(buf, su, sp, a) && CarriesParts(buf, su, sp, b)
    ensures a.intra == b.intra && a.qs == b.qs && EnergyPart(su, sp, a.intra, a.qs) == EnergyPart(su, sp, b.intra, b.qs)
    ensures AfterEnergy(su, sp, a) == AfterEnergy(su, sp, b)
    ensures var f := FlagFrame(su, AfterEnergy(su, sp, a));
      Tf.Resolutions(f, a.want, a.sel) == Tf.Resolutions(f, b.want, b.sel)
    ensures var sp1 := AfterEnergy(su, sp, a); FlagPart(su, sp1, a.want, a.sel) == FlagPart(su, sp1, b.want, b.sel)
    ensures AfterFlags(su, sp, a) == AfterFlags(su, sp, b)
    ensures var sp2 := AfterFlags(su, sp, a); SpreadPart(su, sp2, a.spread) == SpreadPart(su, sp2, b.spread)
    ensures SpreadOf(su, sp, a) == SpreadOf(su, sp, b) && AfterSpread(su, sp, a) == AfterSpread(su, sp, b)
  {
    hide EnergyPart, SpreadPart, BoostPart, TrimPart, Carries, Run, AllCan, Energy.AllFit, EnergyFrame, BoostFrame,
      Rate.ValidMode, SpreadCoded, Promised, Tf.Resolutions, Tf.TfOps;
    EnergyPartOnce(buf, su, sp, a, b);
    Tf.TfOnce(buf, FlagFrame(su, AfterEnergy(su, sp, a)), a.want, a.sel, b.want, b.sel);
    SpreadOnce(buf, su, AfterFlags(su, sp, a), a, b);
  }

  /** Then the boosts ... */
  lemma SameBoosts(buf: seq<byte>, su: Setup, sp: Span, a: Header, b: Header)
    requires ValidSetup(su) && Proper(sp) && ValidHeader(su, sp, a) && ValidHeader(su, sp, b)
    requires CarriesParts(buf, su, sp, a) && CarriesParts(buf, su, sp, b)
    requires AfterSpread(su, sp, a) == AfterSpread(su, sp, b)
    ensures a.boosts == b.boosts && AfterBoosts(su, sp, a) == AfterBoosts(su, sp, b)
    ensures BoostPart(su, AfterSpread(su, sp, a), a.boosts) == BoostPart(su, AfterSpread(su, sp, b), b.boosts)
    ensures BoostTotal(su, sp, a) == BoostTotal(su, sp, b)
  {
    hide EnergyPart, FlagPart, SpreadPart, BoostPart, TrimPart, Carries, Run, AllCan, Energy.AllFit, EnergyFrame,
      BoostFrame, Rate.ValidMode, Promised, AfterSpread;
    BoostPartOnce(buf, su, AfterSpread(su, sp, a), a, b);
    SamePart(su, AfterSpread(su, sp, a), a, b);
  }

  /** ... and the trim. */
  lemma SameTrim(buf: seq<byte>, su: Setup, sp: Span, a: Header, b: Header)
    requires ValidSetup(su) && Proper(sp) && ValidHeader(su, sp, a) && ValidHeader(su, sp, b)
    requires CarriesParts(buf, su, sp, a) && CarriesParts(buf, su, sp, b)
    requires AfterBoosts(su, sp, a) == AfterBoosts(su, sp, b) && BoostTotal(su, sp, a) == BoostTotal(su, sp, b)
    ensures TrimOf(su, sp, a) == TrimOf(su, sp, b) && AfterHeader(su, sp, a) == AfterHeader(su, sp, b)
    ensures TrimPart(su, AfterBoosts(su, sp, a), BoostTotal(su, sp, a), a.trim)
            == TrimPart(su, AfterBoosts(su, sp, b), BoostTotal(su, sp, b), b.trim)
  {
    hide EnergyPart, FlagPart, SpreadPart, BoostPart, TrimPart, Carries, Run, AllCan, Energy.AllFit, EnergyFrame,
      BoostFrame, Rate.ValidMode, TrimCoded, AfterSpread, AfterBoosts, BoostTotal;
    TrimOnce(buf, su, AfterBoosts(su, sp, a), BoostTotal(su, sp, a), a, b);
  }

  lemma SameOps(su: Setup, sp: Span, a: Header, b: Header)
    requires ValidSetup(su) && Proper(sp) && Shaped(su, a) && Shaped(su, b)
    requires a.intra == b.intra && a.qs == b.qs && a.boosts == b.boosts
    requires EnergyPart(su, sp, a.intra, a.qs) == EnergyPart(su, sp, b.intra, b.qs)
    requires AfterEnergy(su, sp, a) == AfterEnergy(su, sp, b)
    requires var f := FlagFrame(su, AfterEnergy(su, sp, a));
      Tf.Resolutions(f, a.want, a.sel) == Tf.Resolutions(f, b.want, b.sel)
    requires var sp1 := AfterEnergy(su, sp, a); FlagPart(su, sp1, a.want, a.sel) == FlagPart(su, sp1, b.want, b.sel)
    requires AfterFlags(su, sp, a) == AfterFlags(su, sp, b)
    requires var sp2 := AfterFlags(su, sp, a); SpreadPart(su, sp2, a.spread) == SpreadPart(su, sp2, b.spread)
    requires SpreadOf(su, sp, a) == SpreadOf(su, sp, b) && AfterSpread(su, sp, a) == AfterSpread(su, sp, b)
    requires BoostPart(su, AfterSpread(su, sp, a), a.boosts) == BoostPart(su, AfterSpread(su, sp, b), b.boosts)
    requires TrimOf(su, sp, a) == TrimOf(su, sp, b) && AfterHeader(su, sp, a) == AfterHeader(su, sp, b)
    requires TrimPart(su, AfterBoosts(su, sp, a), BoostTotal(su, sp, a), a.trim)
             == TrimPart(su, AfterBoosts(su, sp, b), BoostTotal(su, sp, b), b.trim)
    ensures SameHeader(su, sp, a, b) && HeaderOps(su, sp, a) == HeaderOps(su, sp, b)
  {
    hide EnergyPart, FlagPart, SpreadPart, BoostPart, TrimPart, AfterEnergy, AfterFlags, AfterSpread, AfterBoosts,
      AfterHeader, BoostTotal, SpreadOf, TrimOf, FlagFrame, Tf.Resolutions, ValidSetup, AllLegal;
  }

  lemma SamePart(su: Setup, sp: Span, a: Header, b: Header)
    requires ValidSetup(su) && Proper(sp) && |a.boosts| == su.end - su.start && a.boosts == b.boosts
    ensures BoostPart(su, sp, a.boosts) == BoostPart(su, sp, b.boosts)
  {
    hide BoostOps, BoostBands, Rate.ValidMode;
  }

  // -------------------------------------------------------------- the budget

  lemma IntraWithin(su: Setup, sp: Span, intra: bool)
    requires Proper(sp) && Tell(sp) <= 8 * su.size
    ensures Tell(Run(sp, Energy.IntraOps(sp, 8 * su.size, intra))) <= 8 * su.size
  {
    hide Tell, Run;
    RunNone(sp);
    if Tell(sp) + 3 <= 8 * su.size {
      RunSnoc(sp, [], BitOp(intra, 3));
      assert [] + [BitOp(intra, 3)] == [BitOp(intra, 3)];
      EightParts();
      StepTell(sp, BitOp(intra, 3), 3);
    }
  }

  lemma EightParts()
    ensures Pow2(3) == 8
  {
  }

  lemma EnergyWithin(su: Setup, sp: Span, h: Header)
    requires ValidSetup(su) && Proper(sp) && ValidHeader(su, sp, h) && Tell(sp) <= 8 * su.size
    ensures Tell(AfterEnergy(su, sp, h)) <= 8 * su.size
  {
    IntraWithin(su, sp, h.intra);
    hide Tell, Run, Energy.IntraOps, Energy.EnergyOps, Energy.AllFit, AllCan, BoostFrame, AfterSpread, Rate.ValidMode;
    var f := EnergyFrame(su, sp, h.intra);
    RunConcat(sp, Energy.IntraOps(sp, 8 * su.size, h.intra), Energy.EnergyOps(f, h.qs, |h.qs|));
    Energy.WithinBudget(f, h.qs, |h.qs|);
  }

  lemma SpreadWithin(su: Setup, sp: Span, h: Header)
    requires Proper(sp) && h.spread < 4 && Tell(sp) <= 8 * su.size
    ensures TellEighths(Run(sp, SpreadPart(su, sp, h.spread))) <= 64 * su.size
  {
    SpreadModel();
    SpreadWide(h.spread);
    hide Tell, Run, TellEighths, IcdfTable, HasWidth, IcdfOp;
    TellOfEighths(sp);
    RunNone(sp);
    if SpreadCoded(su, sp) {
      var op := IcdfOp(h.spread, SPREAD_ICDF, 5);
      RunSnoc(sp, [], op);
      assert [] + [op] == [op];
      StepEighthsWide(sp, op, 5);
    }
  }

  lemma SpreadWide(s: nat)
    requires s < 4
    ensures IcdfTable(SPREAD_ICDF, 5) && HasWidth(SPREAD_ICDF, s, 5) && Pow2(5) == 32
    ensures var op := IcdfOp(s, SPREAD_ICDF, 5); op.fh - op.fl >= 2
  {
  }

  lemma TrimWide(s: nat)
    requires s < 11
    ensures IcdfTable(TRIM_ICDF, 7) && HasWidth(TRIM_ICDF, s, 7) && Pow2(7) == 128
    ensures var op := IcdfOp(s, TRIM_ICDF, 7); op.fh - op.fl >= 2
  {
  }

  lemma TrimWithin(su: Setup, sp: Span, promised: nat, h: Header)
    requires Proper(sp) && h.trim < 11
    ensures TellEighths(sp) <= TellEighths(Run(sp, TrimPart(su, sp, promised, h.trim))) <= Max(TellEighths(sp),
                                                                                               64 * su.size)
  {
    TrimModel();
    TrimWide(h.trim);
    hide Run, TellEighths, IcdfTable, HasWidth, IcdfOp;
    RunNone(sp);
    if TrimCoded(su, sp, promised) {
      var op := IcdfOp(h.trim, TRIM_ICDF, 7);
      RunSnoc(sp, [], op);
      assert [] + [op] == [op];
      StepEighthsWide(sp, op, 7);
      StepEighthsMono(sp, op);
    }
  }

  lemma BoostWithin(su: Setup, sp: Span, h: Header)
    requires ValidSetup(su) && Proper(sp) && |h.boosts| == su.end - su.start
    requires AllCan(BoostFrame(su, sp), h.boosts, |h.boosts|)
    ensures TellEighths(Run(sp, BoostPart(su, sp, h.boosts))) <= Max(TellEighths(sp), 64 * su.size)
  {
    hide TellEighths, Run, AllCan, BoostOps, StateAt, BoostBands, Rate.ValidMode;
    StateIs(BoostFrame(su, sp), h.boosts, |h.boosts|);
    BoostsWithin(BoostFrame(su, sp), h.boosts, |h.boosts|);
  }

  /** From a span within the packet, whatever the header holds ends within it. */
  lemma HeaderWithin(su: Setup, sp: Span, h: Header)
    requires ValidSetup(su) && Proper(sp) && ValidHeader(su, sp, h) && Tell(sp) <= 8 * su.size
    ensures TellEighths(AfterHeader(su, sp, h)) <= 64 * su.size
  {
    hide Tell, Run, TellEighths, EnergyPart, SpreadPart, BoostPart, TrimPart, AllCan, Energy.AllFit, EnergyFrame,
      BoostFrame, Rate.ValidMode, Tf.TfOps, Promised;
    EnergyWithin(su, sp, h);
    var sp1 := AfterEnergy(su, sp, h);
    Tf.FlagsWithinBudget(FlagFrame(su, sp1), h.want, h.sel);
    SpreadWithin(su, AfterFlags(su, sp, h), h);
    BoostWithin(su, AfterSpread(su, sp, h), h);
    TrimWithin(su, AfterBoosts(su, sp, h), BoostTotal(su, sp, h), h);
  }

  // ------------------------------------------------------ a smaller packet

  /** How few bytes the packet may be cut to after the header: what is used and promised,
      and two more. */
  function MinAllowed(su: Setup, sp: Span, h: Header): int
    requires ValidSetup(su) && Proper(sp) && Shaped(su, h)
  {
    (TellEighths(AfterHeader(su, sp, h)) + BoostTotal(su, sp, h) + 63) / 64 + 2
  }

  /** That is the least number of bytes that holds all of it, and two. */
  lemma MinAllowedIs(su: Setup, sp: Span, h: Header)
    requires ValidSetup(su) && Proper(sp) && Shaped(su, h)
    ensures var used := TellEighths(AfterHeader(su, sp, h)) + BoostTotal(su, sp, h);
      64 * (MinAllowed(su, sp, h) - 3) < used <= 64 * (MinAllowed(su, sp, h) - 2)
  {
    hide TellEighths, AfterHeader, BoostTotal, Shaped, ValidSetup;
  }

  lemma IntraSame(sp: Span, intra: bool, a: int, b: int)
    requires Proper(sp) && Tell(Run(sp, Energy.IntraOps(sp, a, intra))) + 3 <= a
    requires Tell(Run(sp, Energy.IntraOps(sp, a, intra))) + 3 <= b
    ensures Energy.IntraOps(sp, b, intra) == Energy.IntraOps(sp, a, intra) && Tell(sp) + 3 <= a && Tell(sp) + 3 <= b
  {
    RunTellMono(sp, Energy.IntraOps(sp, a, intra));
    hide Tell, Run;
  }

  lemma EnergyPartSame(su: Setup, tu: Setup, sp: Span, h: Header)
    requires ValidSetup(su) && tu == su.(size := tu.size) && Proper(sp) && ValidHeader(su, sp, h)
    requires Tell(AfterEnergy(su, sp, h)) + 15 <= 8 * su.size && Tell(AfterEnergy(su, sp, h)) + 15 <= 8 * tu.size
    ensures ValidSetup(tu) && EnergyPart(tu, sp, h.intra, h.qs) == EnergyPart(su, sp, h.intra, h.qs)
    ensures Tell(sp) + 3 <= 8 * tu.size && Energy.AllFit(EnergyFrame(tu, sp, h.intra), h.qs, |h.qs|)
    ensures EnergyFrame(tu, sp, h.intra) == EnergyFrame(su, sp, h.intra).(budget := 8 * tu.size)
  {
    hide Tell, Run, Energy.IntraOps, Energy.EnergyOps, Energy.AllFit, AllCan, BoostFrame, AfterSpread, Rate.ValidMode;
    var f, i := EnergyFrame(su, sp, h.intra), Energy.IntraOps(sp, 8 * su.size, h.intra);
    RunConcat(sp, i, Energy.EnergyOps(f, h.qs, |h.qs|));
    RunTellMono(f.sp, Energy.EnergyOps(f, h.qs, |h.qs|));
    IntraSame(sp, h.intra, 8 * su.size, 8 * tu.size);
    Energy.AmpleSame(f, EnergyFrame(tu, sp, h.intra), h.qs, |h.qs|);
  }

  lemma FlagPartSame(su: Setup, tu: Setup, sp: Span, h: Header)
    requires ValidSetup(su) && tu == su.(size := tu.size) && Proper(sp)
    requires Tell(Run(sp, FlagPart(su, sp, h.want, h.sel))) + 7 <= 8 * su.size
    requires Tell(Run(sp, FlagPart(su, sp, h.want, h.sel))) + 7 <= 8 * tu.size
    ensures ValidSetup(tu) && FlagPart(tu, sp, h.want, h.sel) == FlagPart(su, sp, h.want, h.sel)
    ensures Tf.Resolutions(FlagFrame(tu, sp), h.want, h.sel) == Tf.Resolutions(FlagFrame(su, sp), h.want, h.sel)
  {
    hide Tell, Run, Tf.TfOps, Tf.Resolutions, Rate.ValidMode;
    Tf.AmpleSame(FlagFrame(su, sp), FlagFrame(tu, sp), h.want, h.sel);
  }

  lemma BoostPartSame(su: Setup, tu: Setup, sp: Span, h: Header)
    requires ValidSetup(su) && tu == su.(size := tu.size) && Proper(sp) && |h.boosts| == su.end - su.start
    requires AllCan(BoostFrame(su, sp), h.boosts, |h.boosts|)
    requires var p := Promised(BoostFrame(su, sp), h.boosts, |h.boosts|);
      && TellEighths(Run(sp, BoostPart(su, sp, h.boosts))) + p + 48 < 64 * su.size
      && TellEighths(Run(sp, BoostPart(su, sp, h.boosts))) + p + 48 < 64 * tu.size
    ensures ValidSetup(tu) && BoostPart(tu, sp, h.boosts) == BoostPart(su, sp, h.boosts)
    ensures AllCan(BoostFrame(tu, sp), h.boosts, |h.boosts|)
    ensures Promised(BoostFrame(tu, sp), h.boosts, |h.boosts|) == Promised(BoostFrame(su, sp), h.boosts, |h.boosts|)
  {
    hide Run, TellEighths, AllCan, BoostOps, StateAt, Promised, Rate.ValidMode, BoostBand;
    SameBands(su, tu);
    StateIs(BoostFrame(su, sp), h.boosts, |h.boosts|);
    BoostsSame(BoostFrame(su, sp), BoostFrame(tu, sp), h.boosts, |h.boosts|);
  }

  lemma SameBands(su: Setup, tu: Setup)
    requires ValidSetup(su) && tu == su.(size := tu.size)
    ensures ValidSetup(tu) && BoostBands(tu) == BoostBands(su)
  {
    hide Rate.ValidMode;
    assert forall i :: 0 <= i < su.end - su.start ==> BoostBand(tu, i) == BoostBand(su, i);
    hide BoostBand;
  }

  /** The bit count only grows from part to part. */
  lemma SpanOrder(su: Setup, sp: Span, h: Header)
    requires ValidSetup(su) && Proper(sp) && Shaped(su, h)
    ensures TellEighths(AfterEnergy(su, sp, h)) <= TellEighths(AfterFlags(su, sp, h))
            <= TellEighths(AfterSpread(su, sp, h)) <= TellEighths(AfterBoosts(su, sp, h))
            <= TellEighths(AfterHeader(su, sp, h))
  {
    hide TellEighths, Run, EnergyPart, FlagPart, SpreadPart, BoostPart, TrimPart, BoostTotal, Rate.ValidMode;
    RunEighthsMono(AfterEnergy(su, sp, h), FlagPart(su, AfterEnergy(su, sp, h), h.want, h.sel));
    RunEighthsMono(AfterFlags(su, sp, h), SpreadPart(su, AfterFlags(su, sp, h), h.spread));
    RunEighthsMono(AfterSpread(su, sp, h), BoostPart(su, AfterSpread(su, sp, h), h.boosts));
    RunEighthsMono(AfterBoosts(su, sp, h), TrimPart(su, AfterBoosts(su, sp, h), BoostTotal(su, sp, h), h.trim));
  }

  /** The header fits a packet of this size with sixteen bits to spare. */
  predicate Spares(su: Setup, sp: Span, h: Header, size: nat)
    requires ValidSetup(su) && Proper(sp) && Shaped(su, h)
  {
    TellEighths(AfterHeader(su, sp, h)) + BoostTotal(su, sp, h) + 128 <= 64 * size
  }

  /** As whole bits, at every point of it. */
  lemma SparesTells(su: Setup, sp: Span, h: Header, size: nat)
    requires ValidSetup(su) && Proper(sp) && Shaped(su, h) && Spares(su, sp, h, size)
    ensures Tell(AfterEnergy(su, sp, h)) + 15 <= 8 * size && Tell(AfterFlags(su, sp, h)) + 15 <= 8 * size
    ensures TellEighths(AfterBoosts(su, sp, h)) + BoostTotal(su, sp, h) + 48 < 64 * size
  {
    hide TellEighths, Tell, AfterEnergy, AfterFlags, AfterSpread, AfterBoosts, AfterHeader, BoostTotal, Shaped,
      ValidSetup;
    SpanOrder(su, sp, h);
    TellOfEighths(AfterEnergy(su, sp, h));
    TellOfEighths(AfterFlags(su, sp, h));
  }

  /** The first three parts in the smaller packet. */
  lemma EarlySame(su: Setup, tu: Setup, sp: Span, h: Header)
    requires ValidSetup(su) && tu == su.(size := tu.size) && Proper(sp) && ValidHeader(su, sp, h)
    requires Spares(su, sp, h, su.size) && Spares(su, sp, h, tu.size)
    ensures ValidSetup(tu) && EnergyPart(tu, sp, h.intra, h.qs) == EnergyPart(su, sp, h.intra, h.qs)
    ensures Tell(sp) + 3 <= 8 * tu.size && Energy.AllFit(EnergyFrame(tu, sp, h.intra), h.qs, |h.qs|)
    ensures AfterEnergy(tu, sp, h) == AfterEnergy(su, sp, h)
    ensures var sp1 := AfterEnergy(su, sp, h);
      && FlagPart(tu, sp1, h.want, h.sel) == FlagPart(su, sp1, h.want, h.sel)
      && Tf.Resolutions(FlagFrame(tu, sp1), h.want, h.sel) == Tf.Resolutions(FlagFrame(su, sp1), h.want, h.sel)
    ensures AfterFlags(tu, sp, h) == AfterFlags(su, sp, h)
    ensures SpreadPart(tu, AfterFlags(su, sp, h), h.spread) == SpreadPart(su, AfterFlags(su, sp, h), h.spread)
    ensures SpreadOf(tu, sp, h) == SpreadOf(su, sp, h) && AfterSpread(tu, sp, h) == AfterSpread(su, sp, h)
  {
    hide Tell, TellEighths, Run, Energy.AllFit, AllCan, EnergyFrame, EnergyPart, FlagPart, BoostFrame, FlagFrame,
      Tf.Resolutions, Rate.ValidMode, Spares, IcdfOp, IcdfTable, HasWidth;
    SparesTells(su, sp, h, su.size);
    SparesTells(su, sp, h, tu.size);
    EnergyPartSame(su, tu, sp, h);
    FlagPartSame(su, tu, AfterEnergy(su, sp, h), h);
  }

  /** ... the boosts ... */
  lemma LateSame(su: Setup, tu: Setup, sp: Span, h: Header)
    requires ValidSetup(su) && ValidSetup(tu) && tu == su.(size := tu.size) && Proper(sp) && ValidHeader(su, sp, h)
    requires Spares(su, sp, h, su.size) && Spares(su, sp, h, tu.size)
    requires AfterSpread(tu, sp, h) == AfterSpread(su, sp, h)
    ensures BoostPart(tu, AfterSpread(tu, sp, h), h.boosts) == BoostPart(su, AfterSpread(su, sp, h), h.boosts)
    ensures AllCan(BoostFrame(tu, AfterSpread(tu, sp, h)), h.boosts, |h.boosts|)
    ensures BoostTotal(tu, sp, h) == BoostTotal(su, sp, h) && AfterBoosts(tu, sp, h) == AfterBoosts(su, sp, h)
  {
    hide Tell, TellEighths, Run, Energy.AllFit, AllCan, EnergyFrame, BoostPart, BoostFrame, Promised,
      Rate.ValidMode, Spares, AfterSpread;
    SparesTells(su, sp, h, su.size);
    SparesTells(su, sp, h, tu.size);
    BoostPartSame(su, tu, AfterSpread(su, sp, h), h);
  }

  /** ... and the trim. */
  lemma TrimSame(su: Setup, tu: Setup, sp: Span, h: Header)
    requires ValidSetup(su) && ValidSetup(tu) && tu == su.(size := tu.size)
    requires Proper(sp) && Shaped(su, h) && Shaped(tu, h)
    requires Spares(su, sp, h, su.size) && Spares(su, sp, h, tu.size)
    requires BoostTotal(tu, sp, h) == BoostTotal(su, sp, h) && AfterBoosts(tu, sp, h) == AfterBoosts(su, sp, h)
    ensures TrimPart(tu, AfterBoosts(tu, sp, h), BoostTotal(tu, sp, h), h.trim)
            == TrimPart(su, AfterBoosts(su, sp, h), BoostTotal(su, sp, h), h.trim)
    ensures TrimOf(tu, sp, h) == TrimOf(su, sp, h) && AfterHeader(tu, sp, h) == AfterHeader(su, sp, h)
  {
    hide Tell, TellEighths, Run, BoostTotal, AfterBoosts, Rate.ValidMode, Spares, IcdfOp, IcdfTable, HasWidth;
    SparesTells(su, sp, h, su.size);
    SparesTells(su, sp, h, tu.size);
  }

  /** A packet may be cut after its header, down to the least size that the encoder allows
      itself: what the header means, and every bit of it, stays the same. */
  lemma HeaderSame(su: Setup, tu: Setup, sp: Span, h: Header)
    requires ValidSetup(su) && tu == su.(size := tu.size) && Proper(sp) && ValidHeader(su, sp, h)
    requires MinAllowed(su, sp, h) <= tu.size <= su.size
    ensures ValidSetup(tu) && ValidHeader(tu, sp, h) && HeaderOps(tu, sp, h) == HeaderOps(su, sp, h)
    ensures AfterHeader(tu, sp, h) == AfterHeader(su, sp, h) && SpreadOf(tu, sp, h) == SpreadOf(su, sp, h)
    ensures TrimOf(tu, sp, h) == TrimOf(su, sp, h) && AfterEnergy(tu, sp, h) == AfterEnergy(su, sp, h)
    ensures var sp1 := AfterEnergy(su, sp, h);
      Tf.Resolutions(FlagFrame(tu, sp1), h.want, h.sel) == Tf.Resolutions(FlagFrame(su, sp1), h.want, h.sel)
  {
    hide *;
    ValidShaped(su, sp, h);
    AllowedSpares(su, sp, h, tu.size);
    AllowedSpares(su, sp, h, su.size);
    EarlySame(su, tu, sp, h);
    LateSame(su, tu, sp, h);
    ShapedSame(su, tu, h);
    TrimSame(su, tu, sp, h);
    JoinedSame(su, tu, sp, h);
  }

  lemma ShapedSame(su: Setup, tu: Setup, h: Header)
    requires ValidSetup(su) && ValidSetup(tu) && tu == su.(size := tu.size) && Shaped(su, h)
    ensures Shaped(tu, h)
  {
    hide ValidSetup;
  }

  lemma AllowedSpares(su: Setup, sp: Span, h: Header, size: nat)
    requires ValidSetup(su) && Proper(sp) && Shaped(su, h) && MinAllowed(su, sp, h) <= size
    ensures Spares(su, sp, h, size)
  {
    hide TellEighths, AfterHeader, BoostTotal, Shaped, ValidSetup;
  }

  lemma JoinedSame(su: Setup, tu: Setup, sp: Span, h: Header)
    requires ValidSetup(su) && ValidSetup(tu) && tu == su.(size := tu.size) && Proper(sp) && ValidHeader(su, sp, h)
    requires Shaped(su, h) && Tell(sp) + 3 <= 8 * tu.size
    requires EnergyPart(tu, sp, h.intra, h.qs) == EnergyPart(su, sp, h.intra, h.qs)
    requires AfterEnergy(tu, sp, h) == AfterEnergy(su, sp, h)
    requires Energy.AllFit(EnergyFrame(tu, sp, h.intra), h.qs, |h.qs|)
    requires FlagPart(tu, AfterEnergy(su, sp, h), h.want, h.sel) == FlagPart(su, AfterEnergy(su, sp, h), h.want, h.sel)
    requires AfterFlags(tu, sp, h) == AfterFlags(su, sp, h)
    requires SpreadPart(tu, AfterFlags(su, sp, h), h.spread) == SpreadPart(su, AfterFlags(su, sp, h), h.spread)
    requires AfterSpread(tu, sp, h) == AfterSpread(su, sp, h)
    requires BoostPart(tu, AfterSpread(tu, sp, h), h.boosts) == BoostPart(su, AfterSpread(su, sp, h), h.boosts)
    requires AllCan(BoostFrame(tu, AfterSpread(tu, sp, h)), h.boosts, |h.boosts|)
    requires TrimPart(tu, AfterBoosts(tu, sp, h), BoostTotal(tu, sp, h), h.trim)
             == TrimPart(su, AfterBoosts(su, sp, h), BoostTotal(su, sp, h), h.trim)
    ensures ValidHeader(tu, sp, h) && HeaderOps(tu, sp, h) == HeaderOps(su, sp, h)
  {
    hide Tell, EnergyPart, FlagPart, SpreadPart, BoostPart, TrimPart, AfterEnergy, AfterFlags, AfterSpread, AfterBoosts,
      BoostTotal, EnergyFrame, BoostFrame, AllCan, Energy.AllFit, AllLegal, Rate.ValidMode;
  }
}
