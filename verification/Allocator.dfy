/** clt_compute_allocation and interp_bits2pulses, in place over arrays, for an
    encoder or a decoder. */
module Allocator {
  import opened Arith
  import opened Interval
  import opened EntCode
  import opened Duplex
  import opened Rate
  import opened Alloc

  // -------------------------------------------------------- the first search

  /** The two tables the searches use. */
  ghost predicate Tables(f: Request, thresh: array<int>, trim: array<int>)
    reads thresh, trim
    requires ValidRequest(f)
  {
    && thresh.Length == trim.Length == Bands(f.m)
    && forall j :: f.start <= j < f.end ==> thresh[j] == Thresh(f, j) && trim[j] == TrimOffset(f, j)
  }

  method SetTables(f: Request) returns (thresh: array<int>, trim: array<int>)
    requires ValidRequest(f)
    ensures Tables(f, thresh, trim) && fresh(thresh) && fresh(trim) && thresh != trim
  {
    hide ValidMode, Thresh, TrimOffset, Size;
    thresh, trim := new int[Bands(f.m)], new int[Bands(f.m)];
    for j := f.start to f.end
      invariant forall i :: f.start <= i < j ==> thresh[i] == Thresh(f, i) && trim[i] == TrimOffset(f, i)
    {
      thresh[j] := Max(8 * f.C, 3 * Size(f, j) * 8 / 16);
      trim[j] := f.C * Width(f, j, j + 1) * (f.trim - 5 - f.LM) * (f.end - j - 1) * Pow2(f.LM + 3) / 64;
      ThreshIs(f, j);
      if Size(f, j) == 1 { trim[j] := trim[j] - 8 * f.C; }
    }
  }

  lemma ThreshIs(f: Request, j: nat)
    requires ValidRequest(f) && j < Bands(f.m)
    ensures Thresh(f, j) == Max(8 * f.C, 3 * Size(f, j) * 8 / 16)
    ensures TrimOffset(f, j) ==
      f.C * Width(f, j, j + 1) * (f.trim - 5 - f.LM) * (f.end - j - 1) * Pow2(f.LM + 3) / 64
      - if Size(f, j) == 1 then 8 * f.C else 0
  {
    hide ValidMode, Size;
  }

  /** What one band is charged, in the code's own branches. */
  lemma ChargeStep(f: Request, t: seq<int>, j: nat, done: bool)
    requires ValidRequest(f) && Targets(f, t) && j < f.end && done == ReachesThresh(f, t, j + 1)
    ensures ReachesThresh(f, t, j) == (t[j] >= Thresh(f, j) || done)
    ensures Charges(f, t, j) == Charges(f, t, j + 1) +
      if t[j] >= Thresh(f, j) || done then Min(t[j], f.cap[j]) else if t[j] >= 8 * f.C then 8 * f.C else 0
    ensures Grant(f, t, j) == Min(if t[j] < Thresh(f, j) && !done then (if t[j] >= 8 * f.C then 8 * f.C else 0)
                                  else t[j], f.cap[j])
  {
    hide ValidMode, Thresh;
  }

  lemma CurveAt(f: Request, v: nat, j: nat)
    requires ValidRequest(f) && j < Bands(f.m) && v < |f.m.allocVectors|
    ensures CurveTargets(f, v)[j] == Curve(f, v, j) + f.offsets[j]
    ensures Curve(f, v, j) == (
      var b := f.C * Size(f, j) * f.m.allocVectors[v][j] / 4;
      if b > 0 then Max(0, b + TrimOffset(f, j)) else b)
  {
    hide Size, TrimOffset;
  }

  /** psum of the first search. */
  method CurveCharge(f: Request, mid: nat, thresh: array<int>, trim: array<int>) returns (psum: int)
    requires ValidRequest(f) && mid < |f.m.allocVectors| && Tables(f, thresh, trim)
    ensures psum == Charges(f, CurveTargets(f, mid), f.start)
  {
    hide Thresh, TrimOffset, Size, Charges, ReachesThresh, Curve, CurveTargets, Increasing;
    ghost var t := CurveTargets(f, mid);
    Beyond(f, t);
    psum := 0;
    var done := false;
    var j := f.end;
    while j > f.start
      invariant f.start <= j <= f.end
      invariant done == ReachesThresh(f, t, j) && psum == Charges(f, t, j)
    {
      j := j - 1;
      CurveAt(f, mid, j);
      ChargeStep(f, t, j, done);
      var bitsj := f.C * Size(f, j) * f.m.allocVectors[mid][j] / 4;
      if bitsj > 0 { bitsj := Max(0, bitsj + trim[j]); }
      bitsj := bitsj + f.offsets[j];
      if bitsj >= thresh[j] || done {
        done := true;
        psum := psum + Min(bitsj, f.cap[j]);
      } else if bitsj >= 8 * f.C {
        psum := psum + 8 * f.C;
      }
    }
  }

  lemma Beyond(f: Request, t: seq<int>)
    requires ValidRequest(f) && Targets(f, t)
    ensures !ReachesThresh(f, t, f.end) && Charges(f, t, f.end) == 0
  {
  }

  method SearchCurves(f: Request, total: int, thresh: array<int>, trim: array<int>) returns (lo: int)
    requires ValidRequest(f) && Tables(f, thresh, trim)
    ensures 1 <= lo <= |f.m.allocVectors|
    ensures lo == CurveSearch(f, total, 1, |f.m.allocVectors| - 1)
  {
    hide Charges, CurveTargets, Tables, Increasing;
    lo := 1;
    var hi := |f.m.allocVectors| - 1;
    while lo <= hi
      invariant 1 <= lo <= hi + 1 <= |f.m.allocVectors|
      invariant CurveSearch(f, total, lo, hi) == CurveSearch(f, total, 1, |f.m.allocVectors| - 1)
      decreases hi + 1 - lo
    {
      var mid := (lo + hi) / 2;
      var psum := CurveCharge(f, mid, thresh, trim);
      if psum > total { hi := mid - 1; } else { lo := mid + 1; }
    }
  }

  ghost predicate Mixes(f: Request, v: nat, bits1: array<int>, bits2: array<int>)
    reads bits1, bits2
    requires ValidRequest(f) && v < |f.m.allocVectors|
  {
    && bits1.Length == bits2.Length == Bands(f.m)
    && forall j :: f.start <= j < f.end ==> bits1[j] == Lower(f, v, j) && bits2[j] == Raise(f, v, j)
  }

  lemma LowerRaise(f: Request, lo: nat, j: nat)
    requires ValidRequest(f) && j < Bands(f.m) && lo < |f.m.allocVectors|
    ensures Lower(f, lo, j) == Curve(f, lo, j) + if lo > 0 then f.offsets[j] else 0
    ensures Raise(f, lo, j) == (
      var b := if lo + 1 >= |f.m.allocVectors| then f.cap[j] else f.C * Size(f, j) * f.m.allocVectors[lo + 1][j] / 4;
      Max(0, (if b > 0 then Max(0, b + TrimOffset(f, j)) else b) + f.offsets[j] - Lower(f, lo, j)))
  {
    hide Size, TrimOffset;
  }

  /** bits1 and bits2 of one band. */
  method MixBand(f: Request, lo: nat, j: nat, trim: int) returns (bits1j: int, bits2j: int)
    requires ValidRequest(f) && lo < |f.m.allocVectors| && j < Bands(f.m) && trim == TrimOffset(f, j)
    ensures bits1j == Lower(f, lo, j) && bits2j == Raise(f, lo, j)
  {
    hide TrimOffset, Size, Curve, Raise, Lower, Increasing;
    CurveAt(f, lo, j);
    LowerRaise(f, lo, j);
    var hi := lo + 1;
    bits1j := f.C * Size(f, j) * f.m.allocVectors[lo][j] / 4;
    bits2j := if hi >= |f.m.allocVectors| then f.cap[j] else f.C * Size(f, j) * f.m.allocVectors[hi][j] / 4;
    if bits1j > 0 { bits1j := Max(0, bits1j + trim); }
    if bits2j > 0 { bits2j := Max(0, bits2j + trim); }
    if lo > 0 { bits1j := bits1j + f.offsets[j]; }
    bits2j := bits2j + f.offsets[j];
    bits2j := Max(0, bits2j - bits1j);
  }

  /** bits1 and bits2 for the interpolation, and the last boosted band. */
  method SetMixes(f: Request, lo: nat, trim: array<int>, ghost thresh: array<int>)
    returns (bits1: array<int>, bits2: array<int>, skipStart: nat)
    requires ValidRequest(f) && lo < |f.m.allocVectors| && Tables(f, thresh, trim)
    ensures fresh(bits1) && fresh(bits2) && bits1 != bits2 && Mixes(f, lo, bits1, bits2)
    ensures skipStart == SkipBound(f)
  {
    hide Thresh, TrimOffset, Size, Curve, Raise, Lower, Increasing, SkipStart;
    bits1, bits2 := new int[Bands(f.m)], new int[Bands(f.m)];
    skipStart := f.start;
    StartAt(f, f.start);
    for j := f.start to f.end
      invariant Tables(f, thresh, trim)
      invariant forall i :: f.start <= i < j ==> bits1[i] == Lower(f, lo, i) && bits2[i] == Raise(f, lo, i)
      invariant skipStart == SkipStart(f, j)
    {
      StartAt(f, j + 1);
      var bits1j, bits2j := MixBand(f, lo, j, trim[j]);
      if f.offsets[j] > 0 { skipStart := j; }
      bits1[j] := bits1j;
      bits2[j] := bits2j;
    }
  }

  lemma StartAt(f: Request, j: nat)
    requires ValidRequest(f) && f.start <= j <= f.end
    ensures SkipStart(f, j) ==
              if j == f.start then f.start else if f.offsets[j - 1] > 0 then j - 1 else SkipStart(f, j - 1)
  {
  }

  // ------------------------------------------------------- the second search

  lemma MixAt(f: Request, v: nat, mid: nat, j: nat)
    requires ValidRequest(f) && j < Bands(f.m) && v < |f.m.allocVectors|
    ensures Between(f, v, mid)[j] == Lower(f, v, j) + mid * Raise(f, v, j) / 64
  {
    hide Lower, Raise;
  }

  /** psum of the second search. */
  method MixCharge(f: Request, v: nat, mid: nat, bits1: array<int>, bits2: array<int>, thresh: array<int>,
                   ghost trim: array<int>)
    returns (psum: int)
    requires ValidRequest(f) && v < |f.m.allocVectors| && Mixes(f, v, bits1, bits2) && Tables(f, thresh, trim)
    ensures psum == Charges(f, Between(f, v, mid), f.start)
  {
    hide Thresh, TrimOffset, Size, Charges, ReachesThresh, Lower, Raise, Between, Increasing;
    ghost var t := Between(f, v, mid);
    Beyond(f, t);
    psum := 0;
    var done := false;
    var j := f.end;
    while j > f.start
      invariant f.start <= j <= f.end
      invariant done == ReachesThresh(f, t, j) && psum == Charges(f, t, j)
    {
      j := j - 1;
      MixAt(f, v, mid, j);
      ChargeStep(f, t, j, done);
      var tmp := bits1[j] + mid * bits2[j] / 64;
      if tmp >= thresh[j] || done {
        done := true;
        psum := psum + Min(tmp, f.cap[j]);
      } else if tmp >= 8 * f.C {
        psum := psum + 8 * f.C;
      }
    }
  }

  method SearchMixes(f: Request, v: nat, total: int, bits1: array<int>, bits2: array<int>, thresh: array<int>,
                     ghost trim: array<int>)
    returns (lo: nat)
    requires ValidRequest(f) && v < |f.m.allocVectors| && Mixes(f, v, bits1, bits2) && Tables(f, thresh, trim)
    ensures lo == MixSearch(f, total, v, 0, 64, 6)
  {
    hide Charges, Between, Tables, Mixes, ValidMode;
    lo := 0;
    var hi: nat := 64;
    for i := 0 to 6
      invariant MixSearch(f, total, v, lo, hi, 6 - i) == MixSearch(f, total, v, 0, 64, 6)
    {
      var mid := (lo + hi) / 2;
      var psum := MixCharge(f, v, mid, bits1, bits2, thresh, trim);
      if psum > total { hi := mid; } else { lo := mid; }
    }
  }

  /** The starting bits of every band. */
  method SetBits(f: Request, v: nat, lo: nat, bits1: array<int>, bits2: array<int>, thresh: array<int>,
                 ghost trim: array<int>, bits: array<int>) returns (psum: int)
    requires ValidRequest(f) && v == CurveIndex(f) && lo == Mix(f) && Mixes(f, v, bits1, bits2)
    requires Tables(f, thresh, trim)
    requires bits.Length == Bands(f.m) && bits != bits1 && bits != bits2 && bits != thresh && bits != trim
    modifies bits
    ensures forall j :: f.start <= j < f.end ==> bits[j] == FirstBits(f)[j]
    ensures psum == Sum(FirstBits(f), f.start, f.end)
  {
    hide *;
    ghost var b := FirstBits(f);
    FirstIs(f);
    SumEmpty(b, f.end, f.end);
    psum := 0;
    var done := false;
    var j := f.end;
    while j > f.start
      invariant f.start <= j <= f.end
      invariant Mixes(f, v, bits1, bits2) && Tables(f, thresh, trim)
      invariant done == ReachesThresh(f, FinalTargets(f), j) && psum == Sum(b, j, f.end)
      invariant forall i :: j <= i < f.end ==> bits[i] == b[i]
    {
      j := j - 1;
      SumHead(b, j, f.end);
      var tmp;
      tmp, done := GrantBits(f, v, lo, bits1, bits2, thresh, trim, j, done);
      bits[j] := tmp;
      psum := psum + tmp;
    }
  }

  lemma FirstIs(f: Request)
    requires ValidRequest(f)
    ensures f.start <= f.end <= Bands(f.m) == |FirstBits(f)| && Targets(f, FinalTargets(f))
    ensures !ReachesThresh(f, FinalTargets(f), f.end)
    ensures forall j :: f.start <= j < f.end ==> FirstBits(f)[j] == Grant(f, FinalTargets(f), j)
  {
    Beyond(f, FinalTargets(f));
    hide ValidMode, FinalTargets, Grant, ReachesThresh;
  }

  /** One band's bits, and whether a band this high or higher reached its threshold. */
  method GrantBits(f: Request, v: nat, lo: nat, bits1: array<int>, bits2: array<int>, thresh: array<int>,
                   ghost trim: array<int>, j: nat, done0: bool) returns (tmp: int, done: bool)
    requires ValidRequest(f) && v == CurveIndex(f) && lo == Mix(f) && Mixes(f, v, bits1, bits2)
    requires Tables(f, thresh, trim)
    requires f.start <= j < f.end && done0 == ReachesThresh(f, FinalTargets(f), j + 1)
    ensures tmp == Grant(f, FinalTargets(f), j) && done == ReachesThresh(f, FinalTargets(f), j)
  {
    hide Thresh, TrimOffset, Charges, ReachesThresh, Lower, Raise, Between, CurveIndex, Mix, Grant, FinalTargets;
    ghost var t := FinalTargets(f);
    SettledIs(f);
    MixAt(f, v, lo, j);
    ChargeStep(f, t, j, done0);
    done := done0;
    tmp := bits1[j] + lo * bits2[j] / 64;
    if tmp < thresh[j] && !done {
      if tmp >= 8 * f.C { tmp := 8 * f.C; } else { tmp := 0; }
    } else {
      done := true;
    }
    tmp := Min(tmp, f.cap[j]);
  }

  lemma SettledIs(f: Request)
    requires ValidRequest(f)
    ensures FinalTargets(f) == Between(f, CurveIndex(f), Mix(f))
  {
  }

  lemma SumEmpty(s: seq<int>, a: nat, b: nat)
    requires b <= |s| && b <= a
    ensures Sum(s, a, b) == 0
  {
  }

  lemma SumHead(s: seq<int>, a: nat, b: nat)
    requires a < b <= |s|
    ensures Sum(s, a, b) == s[a] + Sum(s, a + 1, b)
  {
    SumSplit(s, a, a + 1, b);
  }

  // ------------------------------------------------------------- the skipping

  ghost predicate Holds(f: Request, bits: array<int>, b: seq<int>)
    reads bits
    requires ValidRequest(f)
  {
    bits.Length == |b| == Bands(f.m) && forall j :: f.start <= j < f.end ==> bits[j] == b[j]
  }

  /** BandBits as the code computes it. */
  method OfferedBits(f: Request, codedBands: nat, psum: int, bits: array<int>, ghost k: Skip) returns (bandBits: int)
    requires ValidRequest(f) && SkipInv(f, k) && k.coded == codedBands && k.psum == psum && Holds(f, bits, k.bits)
    ensures bandBits == BandBits(f, k)
  {
    hide Budget, Sum, ForIntensity, Increasing, Floor;
    var j := codedBands - 1;
    var left := Budget(f) - psum;
    var percoeff := left / Width(f, f.start, codedBands);
    Remainder(left, Width(f, f.start, codedBands));
    left := left - Width(f, f.start, codedBands) * percoeff;
    var rem := Max(left - Width(f, f.start, j), 0);
    var bandWidth := Width(f, j, codedBands);
    bandBits := bits[j] + percoeff * bandWidth + rem;
  }

  lemma Remainder(left: nat, w: nat)
    requires w > 0
    ensures left - w * (left / w) == left % w
  {
  }

  /** The skip decision an encoder takes: hysteresis, but never too deep. */
  predicate KeepBand(f: Request, codedBands: nat, bandBits: int, prev: int, signalBandwidth: int)
    requires ValidRequest(f) && f.start < codedBands <= f.end
  {
    var j := codedBands - 1;
    var depth := if codedBands > 17 then (if j < prev then 7 else 9) else 0;
    codedBands <= f.start + 2 ||
    (bandBits > depth * Width(f, j, codedBands) * Pow2(f.LM) * 8 / 16 && j <= signalBandwidth)
  }

  /** Where an encoder stops: from the top, at the first band that has a flag and that it
      keeps. */
  function EncoderStop(f: Request, prev: int, signalBandwidth: int, c: nat): (stop: nat)
    requires ValidRequest(f) && SkipBound(f) < c <= f.end
    ensures SkipBound(f) < stop <= c && CanStop(f, stop)
  {
    hide ValidMode, Flagged, KeepBand, BandBits, SkipInv, SkipBound;
    var k := SkipState(f, c);
    if c == SkipBound(f) + 1 then c
    else if Flagged(f, k) && KeepBand(f, c, BandBits(f, k), prev, signalBandwidth) then c
    else EncoderStop(f, prev, signalBandwidth, c - 1)
  }

  /** The band has a flag and is kept. */
  predicate Halts(f: Request, prev: int, signalBandwidth: int, c: nat)
    requires ValidRequest(f) && SkipBound(f) < c <= f.end
  {
    Flagged(f, SkipState(f, c)) && KeepBand(f, c, BandBits(f, SkipState(f, c)), prev, signalBandwidth)
  }

  /** An encoder stops at the highest band that has a flag and is kept, or where nothing below
      may be skipped. */
  lemma {:induction false} StopFirst(f: Request, prev: int, signalBandwidth: int, c: nat, d: nat)
    requires ValidRequest(f) && SkipBound(f) < c <= f.end
    ensures var stop := EncoderStop(f, prev, signalBandwidth, c);
      && (stop < d <= c ==> !Halts(f, prev, signalBandwidth, d))
      && (stop > SkipBound(f) + 1 ==> Halts(f, prev, signalBandwidth, stop))
    decreases c
  {
    hide ValidRequest, Flagged, KeepBand, BandBits, SkipInv, SkipBound, SkipState, EncoderStop;
    StopIs(f, prev, signalBandwidth, c);
    if c > SkipBound(f) + 1 && !Halts(f, prev, signalBandwidth, c) {
      StopFirst(f, prev, signalBandwidth, c - 1, d);
    }
  }

  /** The hysteresis: of the higher bands one that was coded before is kept from 7/16 bit a
      coefficient on, a new one from 9/16; a lower one from any bits on. */
  lemma Hysteresis(f: Request, c: nat, bandBits: int, prev: int, signalBandwidth: int)
    requires ValidRequest(f) && f.start + 2 < c <= f.end
    ensures KeepBand(f, c, bandBits, prev, signalBandwidth) <==>
            && c - 1 <= signalBandwidth
            && 2 * bandBits > (if c <= 17 then 0 else if c <= prev then 7 else 9) * Size(f, c - 1)
  {
    var depth := if c <= 17 then 0 else if c <= prev then 7 else 9;
    KeepIs(f, c, bandBits, prev, signalBandwidth, depth);
    SizeIs(f, c - 1);
    hide *;
    DepthRate(depth, Width(f, c - 1, c), Pow2(f.LM), bandBits);
  }

  lemma KeepIs(f: Request, c: nat, bandBits: int, prev: int, signalBandwidth: int, depth: nat)
    requires ValidRequest(f) && f.start + 2 < c <= f.end
    requires depth == if c <= 17 then 0 else if c <= prev then 7 else 9
    ensures KeepBand(f, c, bandBits, prev, signalBandwidth) <==>
            bandBits > depth * Width(f, c - 1, c) * Pow2(f.LM) * 8 / 16 && c - 1 <= signalBandwidth
  {
    hide ValidMode, Width, Pow2;
  }

  lemma SizeIs(f: Request, j: nat)
    requires ValidRequest(f) && j < Bands(f.m)
    ensures Size(f, j) == Width(f, j, j + 1) * Pow2(f.LM)
  {
    hide ValidRequest, Width, Pow2;
  }

  lemma DepthRate(d: int, w: int, p: int, b: int)
    ensures b > d * w * p * 8 / 16 <==> 2 * b > d * (w * p)
  {
    assert d * w * p == d * (w * p);
    HalfOf(b, d * (w * p));
  }

  /** More bits, or having been coded before, only help to be kept. */
  lemma HysteresisMono(f: Request, c: nat, b: int, more: int, prev: int, was: int, signalBandwidth: int)
    requires ValidRequest(f) && f.start < c <= f.end && b <= more && prev <= was
    requires KeepBand(f, c, b, prev, signalBandwidth)
    ensures KeepBand(f, c, more, was, signalBandwidth)
  {
    if c > f.start + 2 {
      Hysteresis(f, c, b, prev, signalBandwidth);
      Hysteresis(f, c, more, was, signalBandwidth);
      hide Size, KeepBand, ValidRequest;
    }
  }

  lemma HalfOf(b: int, x: int)
    ensures b > x * 8 / 16 <==> 2 * b > x
  {
  }

  lemma StopIs(f: Request, prev: int, signalBandwidth: int, c: nat)
    requires ValidRequest(f) && SkipBound(f) < c <= f.end
    ensures var k, stop := SkipState(f, c), EncoderStop(f, prev, signalBandwidth, c);
      && (c == SkipBound(f) + 1 ==> stop == c)
      && (Flagged(f, k) && KeepBand(f, c, BandBits(f, k), prev, signalBandwidth) ==> stop == c)
      && (c != SkipBound(f) + 1 && !(Flagged(f, k) && KeepBand(f, c, BandBits(f, k), prev, signalBandwidth)) ==>
            stop == EncoderStop(f, prev, signalBandwidth, c - 1))
  {
    hide ValidMode, Flagged, KeepBand, BandBits, SkipInv, SkipBound, SkipState;
  }

  /** The band is given up: its bits return to the pool. */
  method GiveUp(f: Request, psum0: int, rsv0: int, bandBits: int, j: nat, bits: array<int>, ghost k: Skip)
    returns (psum: int, rsv: int)
    requires ValidRequest(f) && SkipInv(f, k) && k.coded == j + 1 && Holds(f, bits, k.bits) && j < f.end && f.start < j
    requires var cost := if Flagged(f, k) then 8 else 0;
      psum0 == k.psum + cost && bandBits == BandBits(f, k) - cost && rsv0 == k.rsv
    modifies bits
    ensures var r := Skipped(f, k); psum == r.psum && rsv == r.rsv && Holds(f, bits, r.bits)
  {
    hide Budget, Sum, ForIntensity, Increasing, Flagged, BandBits, Log2Frac;
    psum := psum0 - (bits[j] + rsv0);
    rsv := rsv0;
    if rsv > 0 { rsv := Log2Frac(j - f.start); }
    psum := psum + rsv;
    if bandBits >= 8 * f.C {
      psum := psum + 8 * f.C;
      bits[j] := 8 * f.C;
    } else {
      bits[j] := 0;
    }
  }

  /** The loop that decides which bands to skip, from the top. */
  method SkipBands(f: Request, psum0: int, skipStart: nat, bits: array<int>, ec: EcCtx, encode: bool, prev: int,
                   signalBandwidth: int, ghost from: Origin, ghost steps: seq<Op>)
    returns (codedBands: nat, psum: int, total: int, rsv: int)
    requires ValidRequest(f) && skipStart == SkipBound(f) && At(ec, encode, from, steps)
    requires Holds(f, bits, FirstBits(f)) && psum0 == Sum(FirstBits(f), f.start, f.end)
    modifies bits, ec, ec.buf
    ensures CanStop(f, codedBands) && Holds(f, bits, SkipState(f, codedBands).bits)
    ensures psum == SkipState(f, codedBands).psum && rsv == SkipState(f, codedBands).rsv
    ensures total == Budget(f) + if codedBands == SkipBound(f) + 1 then ForSkip(f) else 0
    ensures At(ec, encode, from, steps + SkipFlags(f, codedBands))
    ensures encode ==> codedBands == EncoderStop(f, prev, signalBandwidth, f.end)
    ensures ec.storage == old(ec.storage)
  {
    hide EncoderStop, ValidMode, SkipBound, FirstBits, At, SkipInv, Skipped, Budget, ForSkip, ForIntensity, Sum,
      BandBits,
      KeepBand,
      Thresh, Holds;
    codedBands, psum, total, rsv := f.end, psum0, Budget(f), ForIntensity(f);
    assert steps + [] == steps;
    while true
      invariant SkipBound(f) < codedBands <= f.end
      invariant Holds(f, bits, SkipState(f, codedBands).bits)
      invariant psum == SkipState(f, codedBands).psum && rsv == SkipState(f, codedBands).rsv && total == Budget(f)
      invariant At(ec, encode, from, steps + ZeroFlags(f, codedBands))
      invariant EncoderStop(f, prev, signalBandwidth, codedBands) == EncoderStop(f, prev, signalBandwidth, f.end)
                || !encode
      invariant ec.storage == old(ec.storage)
      decreases codedBands
    {
      ghost var k := SkipState(f, codedBands);
      ghost var zeros := ZeroFlags(f, codedBands);
      StopIs(f, prev, signalBandwidth, codedBands);
      var j := codedBands - 1;
      if j <= skipStart {
        total := total + ForSkip(f);
        assert zeros + [] == zeros;
        break;
      }
      var bandBits := OfferedBits(f, codedBands, psum, bits, k);
      if bandBits >= Max(Thresh(f, j), 8 * f.C + 8) {
        assert Flagged(f, k);
        var keep := encode && KeepBand(f, codedBands, bandBits, prev, signalBandwidth);
        keep := CodeBit(ec, encode, keep, 1, from, steps + zeros);
        OpsAssoc(steps, zeros, [BitOp(keep, 1)]);
        if keep { break; }
        psum := psum + 8;
        bandBits := bandBits - 8;
      }
      psum, rsv := GiveUp(f, psum, rsv, bandBits, j, bits, k);
      assert ZeroFlags(f, j) == zeros + if Flagged(f, k) then [BitOp(false, 1)] else [];
      codedBands := j;
      assert zeros + [] == zeros;
    }
  }

  // ------------------------------------------------- the stereo parameters

  /** Intensity and dual stereo, coded or read if bits are held for them. */
  method CodeStereo(f: Request, codedBands: nat, total0: int, rsv: int, ec: EcCtx, encode: bool, intensity0: nat,
                    dual0: bool, ghost from: Origin, ghost steps: seq<Op>)
    returns (intensity: nat, dual: bool, total: int, ghost ch: Choice)
    requires ValidRequest(f) && CanStop(f, codedBands) && rsv == SkipState(f, codedBands).rsv
    requires At(ec, encode, from, steps) && (encode ==> f.start <= intensity0)
    modifies ec, ec.buf
    ensures ValidChoice(f, ch) && ch.coded == codedBands
    ensures intensity == Intensity(f, ch) && dual == Dual(f, ch)
    ensures total == total0 + ForDual(f) - HeldDual(f, ch)
    ensures At(ec, encode, from, steps + IntensityOps(f, ch) + DualOps(f, ch))
    ensures encode ==> intensity == if HeldIntensity(f, ch) > 0 then Min(intensity0, codedBands) else 0
    ensures encode && HeldDual(f, ch) > 0 ==> dual == dual0
    ensures ec.storage == old(ec.storage)
  {
    hide ValidMode, SkipBound, At, SkipInv, SkipState, ForDual, UintOps, Flagged;
    assert f.start < codedBands <= f.end;
    if rsv > 0 {
      var i := if encode then Min(intensity0, codedBands) else f.start;
      var r := CodeUint(ec, encode, i - f.start, codedBands + 1 - f.start, from, steps);
      intensity := f.start + r;
      ch := Choice(codedBands, intensity, false);
      assert IntensityOps(f, ch) == UintOps(r, codedBands + 1 - f.start);
    } else {
      intensity := 0;
      ch := Choice(codedBands, f.start, false);
      assert steps + IntensityOps(f, ch) == steps;
    }
    assert intensity == Intensity(f, ch);
    ghost var steps1 := steps + IntensityOps(f, ch);
    var dualRsv := ForDual(f);
    total := total0;
    if intensity <= f.start {
      total := total + dualRsv;
      dualRsv := 0;
    }
    assert dualRsv == HeldDual(f, ch);
    if dualRsv > 0 {
      dual := CodeBit(ec, encode, dual0, 1, from, steps1);
    } else {
      dual := false;
      assert steps1 + [] == steps1;
    }
    ch := ch.(dual := dual);
    assert IntensityOps(f, ch) == IntensityOps(f, ch.(dual := false)) && Intensity(f, ch) == intensity;
  }

  // ------------------------------------------------------------ sharing out

  lemma LeftIs(f: Request, ch: Choice, total: int)
    requires ValidRequest(f) && ValidChoice(f, ch)
    requires total == Budget(f) + (if ch.coded == SkipBound(f) + 1 then ForSkip(f) else 0) + ForDual(f) - HeldDual(f,
                                                                                                                   ch)
    ensures total - SkipState(f, ch.coded).psum == Left(f, ch)
  {
    hide ValidRequest, ValidChoice, HeldDual, SkipState, Budget, ForSkip, ForDual;
  }

  lemma SharedIs(f: Request, ch: Choice, j: nat)
    requires ValidRequest(f) && ValidChoice(f, ch) && f.start <= j < f.end
    ensures |SharedBits(f, ch)| == |SkipState(f, ch.coded).bits| == Bands(f.m)
    ensures SharedBits(f, ch)[j] ==
      SkipState(f, ch.coded).bits[j] + if j < ch.coded then Share(f, ch.coded, Left(f, ch), j) else 0
  {
    hide ValidMode, SkipState, Share, Left, ValidChoice;
  }

  lemma ShareIs(f: Request, coded: nat, left: nat, j: nat)
    requires ValidRequest(f) && f.start <= j < coded <= f.end
    ensures var w := Width(f, f.start, coded);
      && Share(f, coded, left, j) ==
         left / w * Width(f, j, j + 1) + Min(Max(left % w - Width(f, f.start, j), 0), Width(f, j, j + 1))
      && Width(f, f.start, j + 1) == Width(f, f.start, j) + Width(f, j, j + 1)
  {
  }

  /** First the even share of every coefficient. */
  method ShareEvenly(f: Request, percoeff: nat, bits: array<int>, codedBands: nat, ghost b: seq<int>)
    requires ValidRequest(f) && f.start <= codedBands <= f.end && Holds(f, bits, b)
    modifies bits
    ensures forall i :: f.start <= i < codedBands ==> bits[i] == b[i] + percoeff * Width(f, i, i + 1)
    ensures forall i :: codedBands <= i < f.end ==> bits[i] == b[i]
  {
    hide Increasing;
    for j := f.start to codedBands
      invariant forall i :: f.start <= i < j ==> bits[i] == b[i] + percoeff * Width(f, i, i + 1)
      invariant forall i :: j <= i < f.end ==> bits[i] == b[i]
    {
      bits[j] := bits[j] + percoeff * Width(f, j, j + 1);
    }
  }

  /** The bits left are shared out over the coded bands. */
  method ShareOut(f: Request, left0: nat, bits: array<int>, ghost ch: Choice, codedBands: nat)
    requires ValidRequest(f) && ValidChoice(f, ch) && codedBands == ch.coded && left0 == Left(f, ch)
    requires Holds(f, bits, SkipState(f, ch.coded).bits)
    modifies bits
    ensures Holds(f, bits, SharedBits(f, ch))
  {
    hide ValidMode, SkipState, SkipInv, Left, Share, ValidChoice, SharedBits;
    ChoiceRange(f, ch);
    ghost var b := SkipState(f, ch.coded).bits;
    var w := Width(f, f.start, codedBands);
    var left: int := left0;
    var percoeff := left / w;
    Remainder(left, w);
    left := left - w * percoeff;
    ShareEvenly(f, percoeff, bits, codedBands, b);
    WidthNone(f, f.start);
    for j := f.start to codedBands
      invariant left == Max(left0 % w - Width(f, f.start, j), 0)
      invariant forall i :: f.start <= i < j ==> bits[i] == b[i] + Share(f, codedBands, left0, i)
      invariant forall i :: j <= i < codedBands ==> bits[i] == b[i] + percoeff * Width(f, i, i + 1)
      invariant forall i :: codedBands <= i < f.end ==> bits[i] == b[i]
    {
      ShareIs(f, codedBands, left0, j);
      var tmp := Min(left, Width(f, j, j + 1));
      bits[j] := bits[j] + tmp;
      left := left - tmp;
    }
    forall j | f.start <= j < f.end ensures bits[j] == SharedBits(f, ch)[j] { SharedIs(f, ch, j); }
    SharedIs(f, ch, f.start);
  }

  // ------------------------------------------------------------- fine energy

  /** One band of several coefficients: cap, fine bits, priority. */
  method SplitWide(f: Request, intensity: nat, dual: bool, j: nat, bit: nat)
    returns (pulses: int, ebits: nat, priority: bool, excess: nat)
    requires ValidRequest(f) && j < Bands(f.m) && Size(f, j) > 1
    ensures Split(pulses, ebits, priority, excess) == CoarseSplit(f, intensity, dual, j, bit)
  {
    hide ValidMode, Size, Den, FineCost, RoundedUp, FineOffset;
    excess := Max(bit - f.cap[j], 0);
    pulses := bit - excess;
    var den := Den(f, intensity, dual, j);
    var offset := OffsetOf(f, j, den, pulses);
    ebits := FineShare(f, den, pulses, offset);
    priority := RoundedUp(ebits, den, pulses + offset);
    pulses := pulses - FineCost(f, ebits);
  }

  method FineShare(f: Request, den: nat, p: nat, offset: int) returns (ebits: nat)
    requires 1 <= f.C <= 2 && den > 0
    ensures ebits == FineBits(f, den, p, offset)
  {
    hide FineCost;
    ebits := Max(0, p + offset + den * 4);
    ebits := ebits / den / 8;
    if f.C * ebits > p / 8 { ebits := p / f.C / 8; }
    ebits := Min(ebits, MAX_FINE_BITS);
  }

  /** One band's own split. */
  method SplitOwn(f: Request, intensity: nat, dual: bool, j: nat, bit: nat)
    returns (pulses: int, ebits: nat, priority: bool, excess: nat)
    requires ValidRequest(f) && j < Bands(f.m)
    ensures Split(pulses, ebits, priority, excess) == CoarseSplit(f, intensity, dual, j, bit)
    ensures ebits <= MAX_FINE_BITS
  {
    hide ValidMode, Size, ValidRequest, CoarseSplit;
    CoarseIs(f, intensity, dual, j, bit);
    if Size(f, j) > 1 {
      pulses, ebits, priority, excess := SplitWide(f, intensity, dual, j, bit);
    } else {
      excess := Max(0, bit - 8 * f.C);
      pulses := bit - excess;
      ebits := 0;
      priority := true;
    }
  }

  /** Then the excess goes to more fine bits or is passed on. */
  method SplitBand(f: Request, intensity: nat, dual: bool, j: nat, b: nat, balance0: nat)
    returns (pulses: int, ebits: int, priority: bool, balance: int)
    requires ValidRequest(f) && j < Bands(f.m)
    ensures Split(pulses, ebits, priority, balance) == BandSplit(f, intensity, dual, j, b, balance0)
  {
    hide ValidMode, FineCost, CoarseSplit, Size;
    var bit := b + balance0;
    var excess;
    pulses, ebits, priority, excess := SplitOwn(f, intensity, dual, j, bit);
    if excess > 0 {
      var extraFine := Min(excess / (8 * f.C), MAX_FINE_BITS - ebits);
      ebits := ebits + extraFine;
      var extraBits := FineCost(f, extraFine);
      priority := extraBits >= excess - balance0;
      excess := excess - extraBits;
    }
    balance := excess;
  }

  lemma CoarseIs(f: Request, intensity: nat, dual: bool, j: nat, bit: nat)
    requires ValidRequest(f) && j < Bands(f.m)
    ensures f.C > 0
    ensures Size(f, j) <= 1 ==>
              CoarseSplit(f, intensity, dual, j, bit)
              == Split(bit - Max(0, bit - 8 * f.C), 0, true, Max(0, bit - 8 * f.C))
  {
    hide ValidMode, Size;
  }

  method OffsetOf(f: Request, j: nat, den: nat, p: int) returns (offset: int)
    requires ValidRequest(f) && j < Bands(f.m)
    ensures offset == FineOffset(f, j, den, p)
  {
    hide Size;
    var nClogN := den * (f.m.logN[j] + 8 * f.LM);
    offset := nClogN / 2 - den * FINE_OFFSET;
    if Size(f, j) == 2 { offset := offset + den * 8 / 4; }
    if p + offset < den * 2 * 8 {
      offset := offset + nClogN / 4;
    } else if p + offset < den * 3 * 8 {
      offset := offset + nClogN / 8;
    }
  }

  /** Band j's entries in the three result arrays. */
  ghost predicate Shown(pulses: array<int>, ebits: array<int>, priority: array<bool>, j: nat, s: Split)
    reads pulses, ebits, priority
  {
    && j < pulses.Length && j < ebits.Length && j < priority.Length
    && pulses[j] == s.pulses && ebits[j] == s.ebits && priority[j] == s.priority
  }

  lemma SplitIs(f: Request, ch: Choice, j: nat)
    requires ValidRequest(f) && ValidChoice(f, ch) && f.start <= j < f.end
    ensures var b, i, d := SharedBits(f, ch), Intensity(f, ch), Dual(f, ch);
      if j < ch.coded then
        && OutcomeSplit(f, ch, j) == BandSplit(f, i, d, j, b[j], Balance(f, i, d, b, j)).(balance := 0)
        && Balance(f, i, d, b, j + 1) == BandSplit(f, i, d, j, b[j], Balance(f, i, d, b, j)).balance
      else OutcomeSplit(f, ch, j) == SkippedSplit(f, b[j])
  {
    hide ValidMode, ValidChoice, SharedBit, BandSplit, Intensity, Dual, SkippedSplit;
  }

  /** The fine energy of the coded bands, in place. */
  method SplitCoded(f: Request, ghost ch: Choice, codedBands: nat, intensity: nat, dual: bool,
                    bits: array<int>, ebits: array<int>, priority: array<bool>) returns (balance: int)
    requires ValidRequest(f) && ValidChoice(f, ch) && codedBands == ch.coded
    requires intensity == Intensity(f, ch) && dual == Dual(f, ch)
    requires Holds(f, bits, SharedBits(f, ch)) && bits != ebits
    requires ebits.Length == priority.Length == Bands(f.m)
    modifies bits, ebits, priority
    ensures balance == Balance(f, intensity, dual, SharedBits(f, ch), ch.coded)
    ensures forall j :: f.start <= j < codedBands ==> Shown(bits, ebits, priority, j, OutcomeSplit(f, ch, j))
    ensures forall j :: codedBands <= j < f.end ==> bits[j] == SharedBits(f, ch)[j]
  {
    hide ValidMode, ValidChoice, SharedBits, BandSplit, Intensity, Dual, SkippedSplit, OutcomeSplit, Balance;
    ChoiceRange(f, ch);
    balance := 0;
    BalanceStart(f, intensity, dual, SharedBits(f, ch));
    for j := f.start to codedBands
      invariant balance == Balance(f, intensity, dual, SharedBits(f, ch), j)
      invariant forall i :: f.start <= i < j ==> Shown(bits, ebits, priority, i, OutcomeSplit(f, ch, i))
      invariant forall i :: j <= i < f.end ==> bits[i] == SharedBits(f, ch)[i]
    {
      SplitIs(f, ch, j);
      var p, e, pr;
      p, e, pr, balance := SplitBand(f, intensity, dual, j, bits[j], balance);
      bits[j], ebits[j], priority[j] := p, e, pr;
    }
  }

  lemma BalanceStart(f: Request, intensity: nat, dual: bool, b: seq<int>)
    requires ValidRequest(f) && |b| == Bands(f.m) && Nonnegative(b)
    ensures Balance(f, intensity, dual, b, f.start) == 0
  {
  }

  /** The skipped bands use all their bits for fine energy. */
  method SplitSkipped(f: Request, ghost ch: Choice, codedBands: nat, bits: array<int>, ebits: array<int>,
                      priority: array<bool>)
    requires ValidRequest(f) && ValidChoice(f, ch) && codedBands == ch.coded && bits != ebits
    requires bits.Length == ebits.Length == priority.Length == Bands(f.m)
    requires forall j :: f.start <= j < codedBands ==> Shown(bits, ebits, priority, j, OutcomeSplit(f, ch, j))
    requires forall j :: codedBands <= j < f.end ==> bits[j] == SharedBits(f, ch)[j]
    modifies bits, ebits, priority
    ensures forall j :: f.start <= j < f.end ==> Shown(bits, ebits, priority, j, OutcomeSplit(f, ch, j))
  {
    hide ValidMode, ValidChoice, SharedBits, BandSplit, Intensity, Dual, OutcomeSplit, Balance;
    ChoiceRange(f, ch);
    for j := codedBands to f.end
      invariant forall i :: f.start <= i < j ==> Shown(bits, ebits, priority, i, OutcomeSplit(f, ch, i))
      invariant forall i :: j <= i < f.end ==> bits[i] == SharedBits(f, ch)[i]
    {
      SplitIs(f, ch, j);
      ebits[j] := bits[j] / f.C / 8;
      bits[j] := 0;
      priority[j] := ebits[j] < 1;
    }
  }

  /** From the frame to the starting bits of every band. */
  method StartBits(f: Request, bits: array<int>) returns (psum: int, skipStart: nat)
    requires ValidRequest(f) && bits.Length == Bands(f.m)
    modifies bits
    ensures Holds(f, bits, FirstBits(f)) && psum == Sum(FirstBits(f), f.start, f.end) && skipStart == SkipBound(f)
  {
    hide ValidMode, FirstBits, Sum, Charges, Mixes, Tables, SkipBound, Budget;
    var thresh, trim := SetTables(f);
    var total := Budget(f);
    var hi := SearchCurves(f, total, thresh, trim);
    var lo := hi - 1;
    var bits1, bits2;
    bits1, bits2, skipStart := SetMixes(f, lo, trim, thresh);
    var mix := SearchMixes(f, lo, total, bits1, bits2, thresh, trim);
    psum := SetBits(f, lo, mix, bits1, bits2, thresh, trim, bits);
  }

  lemma OutcomeIs(f: Request, ch: Choice)
    requires ValidRequest(f) && ValidChoice(f, ch)
    ensures var o := AllocOutcome(f, ch);
      && o.coded == ch.coded && o.intensity == Intensity(f, ch) && o.dual == Dual(f, ch)
      && o.balance == (ChoiceRange(f, ch); Balance(f, o.intensity, o.dual, SharedBits(f, ch), ch.coded))
      && |o.splits| == f.end - f.start
      && forall i :: 0 <= i < |o.splits| ==> o.splits[i] == OutcomeSplit(f, ch, f.start + i)
  {
    hide ValidMode, ValidChoice, SharedBits, OutcomeSplit, Intensity, Dual, Balance;
    ChoiceRange(f, ch);
  }

  /** clt_compute_allocation.  With `encode`, the choices follow from the arguments;
      without, they are read.  Either way the three arrays, the returned values and what went
      through the coder are those of one valid set of choices. */
  method ComputeAllocation(f: Request, intensity0: nat, dual0: bool, pulses: array<int>, ebits: array<int>,
                           priority: array<bool>, ec: EcCtx, encode: bool, prev: int, signalBandwidth: int,
                           ghost from: Origin, ghost steps: seq<Op>)
    returns (codedBands: nat, intensity: nat, dual: bool, balance: int, ghost ch: Choice)
    requires ValidRequest(f) && At(ec, encode, from, steps) && (encode ==> f.start <= intensity0)
    requires pulses.Length == ebits.Length == priority.Length == Bands(f.m) && pulses != ebits
    modifies pulses, ebits, priority, ec, ec.buf
    ensures ValidChoice(f, ch) && At(ec, encode, from, steps + AllocOps(f, ch))
    ensures var o := AllocOutcome(f, ch);
      && codedBands == o.coded && intensity == o.intensity && dual == o.dual && balance == o.balance
      && |o.splits| == f.end - f.start
      && forall i :: 0 <= i < |o.splits| ==> Shown(pulses, ebits, priority, f.start + i, o.splits[i])
    ensures encode ==>
              && codedBands == EncoderStop(f, prev, signalBandwidth, f.end)
              && intensity == (if HeldIntensity(f, ch) > 0 then Min(intensity0, codedBands) else 0)
              && (HeldDual(f, ch) > 0 ==> dual == dual0)
    ensures ec.storage == old(ec.storage)
  {
    hide EncoderStop, ValidMode, ValidChoice, SharedBits, Intensity, Dual, OutcomeSplit, Balance, At, HeldDual,
      HeldIntensity, IntensityOps, DualOps, ForDual, ForSkip, ForIntensity, CanStop, SkipState, SkipFlags, FirstBits,
        Sum, Left, SkipBound, AllocOutcome;
    var psum, skipStart := StartBits(f, pulses);
    var total, rsv;
    codedBands, psum, total, rsv := SkipBands(f, psum, skipStart, pulses, ec, encode, prev, signalBandwidth, from,
                                              steps);
    ghost var steps1 := steps + SkipFlags(f, codedBands);
    intensity, dual, total, ch := CodeStereo(f, codedBands, total, rsv, ec, encode, intensity0, dual0, from, steps1);
    assert steps1 + IntensityOps(f, ch) + DualOps(f, ch) == steps + AllocOps(f, ch);
    LeftIs(f, ch, total);
    ChoiceRange(f, ch);
    OutcomeIs(f, ch);
    ShareOut(f, total - psum, pulses, ch, codedBands);
    balance := SplitCoded(f, ch, codedBands, intensity, dual, pulses, ebits, priority);
    SplitSkipped(f, ch, codedBands, pulses, ebits, priority);
  }
}
