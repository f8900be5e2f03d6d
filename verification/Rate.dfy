/** The bit allocator, as functions: what each pass computes, and the ledger of
    eighth-bits that it keeps. */
module Rate {
  import opened Arith
  import opened Interval

  const LOG2_FRAC_TABLE: seq<nat> :=
    [0, 8, 13, 16, 19, 21, 23, 24, 26, 27, 28, 29, 30, 31, 32, 32, 33, 34, 34, 35, 36, 36, 37, 37]

  /** An entry of the table. */
  function Log2Frac(i: nat): nat
    requires i < 24
  {
    LOG2_FRAC_TABLE[i]
  }

  const MAX_FINE_BITS: nat := 8
  const FINE_OFFSET: nat := 21

  datatype Mode = Mode(eBands: seq<nat>, allocVectors: seq<seq<nat>>, logN: seq<int>)

  /** The caller's side of one allocation. */
  datatype Request = Request(m: Mode, start: nat, end: nat, offsets: seq<int>, cap: seq<int>,
                         trim: int, total: int, C: nat, LM: nat)

  predicate Increasing(s: seq<nat>) { forall i, j :: 0 <= i < j < |s| ==> s[i] < s[j] }

  predicate Nonnegative(s: seq<int>) { forall i :: 0 <= i < |s| ==> s[i] >= 0 }

  function Bands(m: Mode): int { |m.eBands| - 1 }

  predicate ValidMode(m: Mode) {
    && Bands(m) >= 1 && Increasing(m.eBands) && |m.logN| == Bands(m)
    && |m.allocVectors| >= 2 && (forall v :: 0 <= v < |m.allocVectors| ==> |m.allocVectors[v]| == Bands(m))
    && forall j :: 0 <= j < Bands(m) ==> m.allocVectors[0][j] == 0
  }

  predicate ValidRequest(f: Request) {
    && ValidMode(f.m) && f.start < f.end <= Bands(f.m) && f.end - f.start <= 23
    && 1 <= f.C <= 2
    && |f.offsets| == |f.cap| == Bands(f.m) && Nonnegative(f.offsets) && Nonnegative(f.cap)
  }

  /** Coefficients in bands [a, b), for the shortest transform. */
  function Width(f: Request, a: nat, b: nat): (w: nat)
    requires ValidRequest(f) && a <= b <= Bands(f.m)
    ensures a < b ==> w > 0
  {
    f.m.eBands[b] - f.m.eBands[a]
  }

  /** alloc_floor: one bit per channel. */
  function Floor(f: Request): nat { 8 * f.C }

  /** Coefficients of band j at the actual transform size. */
  function Size(f: Request, j: nat): (n: nat)
    requires ValidRequest(f) && j < Bands(f.m)
    ensures n >= 1
  {
    MulMono(1, Pow2(f.LM), Width(f, j, j + 1));
    assert Width(f, j, j + 1) * Pow2(f.LM) == Pow2(f.LM) * Width(f, j, j + 1);
    Width(f, j, j + 1) * Pow2(f.LM)
  }

  /** Below this no pulses are allocated. */
  function Thresh(f: Request, j: nat): (t: int)
    requires ValidRequest(f) && j < Bands(f.m)
    ensures t >= Floor(f)
  {
    Max(Floor(f), 3 * Size(f, j) * 8 / 16)
  }

  /** The tilt of the allocation curve. */
  function TrimOffset(f: Request, j: nat): int
    requires ValidRequest(f) && j < Bands(f.m)
  {
    f.C * Width(f, j, j + 1) * (f.trim - 5 - f.LM) * (f.end - j - 1) * Pow2(f.LM + 3) / 64
    - if Size(f, j) == 1 then Floor(f) else 0
  }

  function Tilted(f: Request, j: nat, b: int): (t: int)
    requires ValidRequest(f) && j < Bands(f.m)
    ensures b >= 0 ==> t >= 0
    ensures b == 0 ==> t == 0
  {
    if b > 0 then Max(0, b + TrimOffset(f, j)) else b
  }

  /** Allocation vector v at band j, before offsets. */
  function Curve(f: Request, v: nat, j: nat): (b: int)
    requires ValidRequest(f) && j < Bands(f.m) && v < |f.m.allocVectors|
    ensures b >= 0 && (v == 0 ==> b == 0)
  {
    var n, a := Size(f, j), f.m.allocVectors[v][j];
    MulNat(f.C, n);
    MulNat(f.C * n, a);
    assert a == 0 ==> f.C * n * a == 0;
    Tilted(f, j, f.C * n * a / 4)
  }

  /** An allocation vector counts in parts of 1/32 bit for every coefficient: with a neutral
      trim, or in the last band, that is what a band of several coefficients gets, in whole
      eighths.  More trim tilts towards the bits of the lower bands, less away from them. */
  lemma CurveUnits(f: Request, v: nat, j: nat)
    requires ValidRequest(f) && j < f.end && v < |f.m.allocVectors|
    ensures Size(f, j) > 1 && (f.trim == 5 + f.LM || j == f.end - 1) ==>
              TrimOffset(f, j) == 0 && Curve(f, v, j) == f.C * Size(f, j) * f.m.allocVectors[v][j] / 4
    ensures Size(f, j) > 1 && (f.trim == 5 + f.LM || j == f.end - 1) && f.m.allocVectors[v][j] == 32 ==>
              Curve(f, v, j) == 8 * (f.C * Size(f, j))
    ensures Size(f, j) > 1 && f.trim >= 5 + f.LM ==> TrimOffset(f, j) >= 0
    ensures f.trim <= 5 + f.LM ==> TrimOffset(f, j) <= 0
  {
    var n, a := Size(f, j), f.m.allocVectors[v][j];
    MulNat(f.C, n);
    MulNat(f.C * n, a);
    Tilt(f.C * Width(f, j, j + 1), f.trim - 5 - f.LM, f.end - j - 1, Pow2(f.LM + 3));
    hide Size, Width, ValidRequest, Pow2;
  }

  lemma Tilt(w: int, d: int, k: int, p: int)
    requires w >= 0 && k >= 0 && p >= 0
    ensures d == 0 || k == 0 ==> w * d * k * p / 64 == 0
    ensures d >= 0 ==> w * d * k * p / 64 >= 0
    ensures d <= 0 ==> w * d * k * p / 64 <= 0
  {
    if d >= 0 { MulNat(w, d); MulNat(w * d, k); MulNat(w * d * k, p); }
    if d <= 0 {
      MulNat(w, -d);
      MulNat(w * -d, k);
      MulNat(w * -d * k, p);
      assert w * -d * k * p == -(w * d * k * p);
    }
  }

  /** A band is worth pulses from one and a half eighth-bits a coefficient on, but not below
      the floor of one bit a channel. */
  lemma ThreshRate(f: Request, j: nat)
    requires ValidRequest(f) && j < Bands(f.m)
    ensures Thresh(f, j) >= 8 * f.C && 2 * Thresh(f, j) >= 3 * Size(f, j) - 1
    ensures Thresh(f, j) == 8 * f.C || 2 * Thresh(f, j) <= 3 * Size(f, j)
  {
    hide Size;
  }

  // ----------------------------------------------- how much a target would take

  predicate Targets(f: Request, t: seq<int>) { |t| == Bands(f.m) && Nonnegative(t) }

  /** Band j or a later one reaches its threshold. */
  predicate ReachesThresh(f: Request, t: seq<int>, j: nat)
    requires ValidRequest(f) && Targets(f, t)
    decreases f.end - j
  {
    j < f.end && (t[j] >= Thresh(f, j) || ReachesThresh(f, t, j + 1))
  }

  /** What the searches charge for band j. */
  function Charge(f: Request, t: seq<int>, j: nat): (c: int)
    requires ValidRequest(f) && Targets(f, t) && j < f.end
    ensures c >= 0
  {
    if ReachesThresh(f, t, j) then Min(t[j], f.cap[j]) else if t[j] >= Floor(f) then Floor(f) else 0
  }

  /** What they charge for bands j and up. */
  function Charges(f: Request, t: seq<int>, j: nat): int
    requires ValidRequest(f) && Targets(f, t)
    decreases f.end - j
  {
    if j >= f.end then 0 else Charge(f, t, j) + Charges(f, t, j + 1)
  }

  /** What band j then starts with. */
  function Grant(f: Request, t: seq<int>, j: nat): (g: int)
    requires ValidRequest(f) && Targets(f, t) && j < f.end
    ensures 0 <= g <= Charge(f, t, j)
  {
    Min(if ReachesThresh(f, t, j) then t[j] else if t[j] >= Floor(f) then Floor(f) else 0, f.cap[j])
  }

  /** The last band that reaches its threshold divides the bands: up to it every target is
      granted within its cap, above it a target is worth a bit a channel or nothing. */
  lemma GrantCases(f: Request, t: seq<int>, j: nat, i: nat)
    requires ValidRequest(f) && Targets(f, t) && j <= i < f.end
    ensures t[i] >= Thresh(f, i) ==>
              Grant(f, t, j) == Min(t[j], f.cap[j]) && Charge(f, t, j) == Min(t[j], f.cap[j])
    ensures (forall i' :: j <= i' < f.end ==> t[i'] < Thresh(f, i')) ==>
              && Charge(f, t, j) == (if t[j] >= 8 * f.C then 8 * f.C else 0)
              && Grant(f, t, j) == Min(Charge(f, t, j), f.cap[j])
  {
    if t[i] >= Thresh(f, i) { ReachedBy(f, t, j, i); }
    if forall i' :: j <= i' < f.end ==> t[i'] < Thresh(f, i') { NotReached(f, t, j); }
  }

  lemma {:induction false} ReachedBy(f: Request, t: seq<int>, j: nat, i: nat)
    requires ValidRequest(f) && Targets(f, t) && j <= i < f.end && t[i] >= Thresh(f, i)
    ensures ReachesThresh(f, t, j)
    decreases i - j
  {
    hide Thresh, ValidRequest;
    if j < i { ReachedBy(f, t, j + 1, i); }
  }

  lemma {:induction false} NotReached(f: Request, t: seq<int>, j: nat)
    requires ValidRequest(f) && Targets(f, t) && forall i :: j <= i < f.end ==> t[i] < Thresh(f, i)
    ensures !ReachesThresh(f, t, j)
    decreases f.end - j
  {
    hide Thresh;
    if j < f.end { NotReached(f, t, j + 1); }
  }

  // ------------------------------------------------------- the first search

  function CurveTargets(f: Request, v: nat): (t: seq<int>)
    requires ValidRequest(f) && v < |f.m.allocVectors|
    ensures Targets(f, t)
  {
    seq(Bands(f.m), j requires 0 <= j < Bands(f.m) => Curve(f, v, j) + f.offsets[j])
  }

  /** The binary search over allocation vectors. */
  function CurveSearch(f: Request, total: int, lo: int, hi: int): (r: int)
    requires ValidRequest(f) && 1 <= lo <= hi + 1 <= |f.m.allocVectors|
    ensures lo <= r <= hi + 1
    decreases hi + 1 - lo
  {
    if lo > hi then lo
    else
      var mid := (lo + hi) / 2;
      if Charges(f, CurveTargets(f, mid), f.start) > total then CurveSearch(f, total, lo, mid - 1)
      else CurveSearch(f, total, mid + 1, hi)
  }

  /** It ends between a curve that fits and one that does not. */
  lemma {:induction false} CurveSearchFits(f: Request, total: int, lo: int, hi: int)
    requires ValidRequest(f) && 1 <= lo <= hi + 1 <= |f.m.allocVectors|
    ensures var r := CurveSearch(f, total, lo, hi);
      && (r > lo ==> Charges(f, CurveTargets(f, r - 1), f.start) <= total)
      && (r <= hi ==> Charges(f, CurveTargets(f, r), f.start) > total)
    decreases hi + 1 - lo
  {
    hide Charges, CurveTargets, ValidRequest;
    if lo <= hi {
      var mid := (lo + hi) / 2;
      if Charges(f, CurveTargets(f, mid), f.start) > total {
        CurveSearchFits(f, total, lo, mid - 1);
      } else {
        CurveSearchFits(f, total, mid + 1, hi);
      }
    }
  }

  /** bits1: what the lower of two neighbouring curves gives. */
  function Lower(f: Request, lo: nat, j: nat): (b: int)
    requires ValidRequest(f) && j < Bands(f.m) && lo < |f.m.allocVectors|
    ensures b >= 0
  {
    Curve(f, lo, j) + if lo > 0 then f.offsets[j] else 0
  }

  /** bits2: how much more the next one, or the cap, gives. */
  function Raise(f: Request, lo: nat, j: nat): (b: int)
    requires ValidRequest(f) && j < Bands(f.m) && lo < |f.m.allocVectors|
    ensures b >= 0
  {
    var next := if lo + 1 >= |f.m.allocVectors| then Tilted(f, j, f.cap[j]) else Curve(f, lo + 1, j);
    Max(0, next + f.offsets[j] - Lower(f, lo, j))
  }

  // ------------------------------------------------------ the second search

  function Between(f: Request, lo: nat, mid: nat): (t: seq<int>)
    requires ValidRequest(f) && lo < |f.m.allocVectors|
    ensures Targets(f, t)
  {
    seq(Bands(f.m), j requires 0 <= j < Bands(f.m) => Mixed(f, lo, mid, j))
  }

  function Mixed(f: Request, lo: nat, mid: nat, j: nat): (b: int)
    requires ValidRequest(f) && j < Bands(f.m) && lo < |f.m.allocVectors|
    ensures b >= 0 && (mid == 0 ==> b == Lower(f, lo, j))
  {
    MulNat(mid, Raise(f, lo, j));
    Lower(f, lo, j) + mid * Raise(f, lo, j) / 64
  }

  /** Six halvings of [0, 64]. */
  function MixSearch(f: Request, total: int, v: nat, lo: nat, hi: nat, steps: nat): (r: nat)
    requires ValidRequest(f) && v < |f.m.allocVectors|
    ensures r != lo ==> Charges(f, Between(f, v, r), f.start) <= total
    decreases steps
  {
    if steps == 0 then lo
    else
      var mid := (lo + hi) / 2;
      if Charges(f, Between(f, v, mid), f.start) > total then MixSearch(f, total, v, lo, mid, steps - 1)
      else MixSearch(f, total, v, mid, hi, steps - 1)
  }

  /** It ends where the next of the 64 steps no longer fits, or is the last. */
  lemma {:induction false} MixSearchFits(f: Request, total: int, v: nat, lo: nat, hi: nat, steps: nat)
    requires ValidRequest(f) && v < |f.m.allocVectors| && hi == lo + Pow2(steps)
    requires hi == 64 || Charges(f, Between(f, v, hi), f.start) > total
    ensures var r := MixSearch(f, total, v, lo, hi, steps);
      && lo <= r < hi && (r == lo || Charges(f, Between(f, v, r), f.start) <= total)
      && (r == 63 || Charges(f, Between(f, v, r + 1), f.start) > total)
    decreases steps
  {
    hide Charges, Between, ValidRequest;
    if steps > 0 {
      var mid := (lo + hi) / 2;
      if Charges(f, Between(f, v, mid), f.start) > total {
        MixSearchFits(f, total, v, lo, mid, steps - 1);
      } else {
        MixSearchFits(f, total, v, mid, hi, steps - 1);
      }
    }
  }

  function Sum(s: seq<int>, a: nat, b: nat): int
    requires b <= |s|
    decreases b
  {
    if b <= a then 0 else Sum(s, a, b - 1) + s[b - 1]
  }

  lemma {:induction false} SumSplit(s: seq<int>, a: nat, m: nat, b: nat)
    requires a <= m <= b <= |s|
    ensures Sum(s, a, b) == Sum(s, a, m) + Sum(s, m, b)
    decreases b
  {
    if m < b { SumSplit(s, a, m, b - 1); }
  }

  lemma {:induction false} SumSame(s: seq<int>, t: seq<int>, a: nat, b: nat)
    requires b <= |s| && b <= |t| && forall j :: a <= j < b ==> s[j] == t[j]
    ensures Sum(s, a, b) == Sum(t, a, b)
    decreases b
  {
    if a < b { SumSame(s, t, a, b - 1); }
  }

  lemma {:induction false} SumBound(s: seq<int>, a: nat, b: nat, j: nat)
    requires b <= |s| && forall i :: a <= i < b ==> s[i] >= 0
    ensures Sum(s, a, b) >= 0
    ensures a <= j < b ==> s[j] <= Sum(s, a, b)
    decreases b
  {
    if a < b { SumBound(s, a, b - 1, j); }
  }

  // -------------------------------------------------------- what is reserved

  function ForSkip(f: Request): nat { if Max(f.total, 0) >= 8 then 8 else 0 }

  function ForIntensity(f: Request): (r: nat)
    requires ValidRequest(f)
  {
    var r := Log2Frac(f.end - f.start);
    if f.C == 2 && r <= Max(f.total, 0) - ForSkip(f) then r else 0
  }

  function ForDual(f: Request): nat
    requires ValidRequest(f)
  {
    var t := Max(f.total, 0) - ForSkip(f);
    var r := Log2Frac(f.end - f.start);
    if f.C == 2 && r <= t && t - r >= 8 then 8 else 0
  }

  /** What is left for the bands. */
  function Budget(f: Request): (t: int)
    requires ValidRequest(f)
    ensures t >= 0
  {
    Max(f.total, 0) - ForSkip(f) - ForIntensity(f) - ForDual(f)
  }

  /** What is held back: a bit for the skip flags if there is one, the cost of the intensity
      band and then a bit for dual stereo in stereo, each only where it fits. */
  lemma HeldBack(f: Request)
    requires ValidRequest(f)
    ensures Budget(f) + ForSkip(f) + ForIntensity(f) + ForDual(f) == Max(f.total, 0)
    ensures ForSkip(f) == 8 <==> f.total >= 8
    ensures f.C == 1 ==> ForIntensity(f) == 0 && ForDual(f) == 0
    ensures var i := Log2Frac(f.end - f.start);
      && (f.C == 2 && f.total >= 8 + i ==> ForIntensity(f) == i)
      && (f.C == 2 && f.total >= 16 + i ==> ForDual(f) == 8)
      && (f.C == 2 && f.total < 8 + i ==> ForIntensity(f) == 0 && ForDual(f) == 0)
      && (ForDual(f) > 0 ==> ForIntensity(f) == i && f.total >= 16 + i)
  {
    TableGrows(f.end - f.start, f.end - f.start);
    hide ValidMode, Log2Frac;
  }

  lemma TableGrows(i: nat, j: nat)
    requires i <= j < 24
    ensures Log2Frac(i) <= Log2Frac(j) && (i > 0 ==> Log2Frac(i) >= 8)
  {
  }

  /** No entry is larger than it need be: entry i is the least number of eighth-bits that
      tell i + 1 values apart. */
  lemma TableLeast(i: nat)
    requires i < 24
    ensures Pow8(i + 1) <= Pow2(Log2Frac(i)) && (Log2Frac(i) > 0 ==> Pow2(Log2Frac(i) - 1) < Pow8(i + 1))
  {
    if i < 8 { LowEntry(i); } else if i < 16 { MiddleEntry(i); } else { HighEntry(i); }
  }

  lemma LowEntry(i: nat)
    requires i < 8
    ensures Pow8(i + 1) <= Pow2(Log2Frac(i)) && (Log2Frac(i) > 0 ==> Pow2(Log2Frac(i) - 1) < Pow8(i + 1))
  {
    assert Pow2(7) == 128 && Pow2(8) == 256 && Pow2(12) == 4096 && Pow2(13) == 8192 && Pow2(15) == 32768;
    assert Pow2(16) == 65536 && Pow2(18) == 262144 && Pow2(20) == 1048576 && Pow2(23) == 8388608;
  }

  lemma MiddleEntry(i: nat)
    requires 8 <= i < 16
    ensures Pow2(Log2Frac(i) - 1) < Pow8(i + 1) <= Pow2(Log2Frac(i))
  {
    LargePowers();
    hide Pow2;
  }

  lemma HighEntry(i: nat)
    requires 16 <= i < 24
    ensures Pow2(Log2Frac(i) - 1) < Pow8(i + 1) <= Pow2(Log2Frac(i))
  {
    LargePowers();
    hide Pow2;
  }

  lemma LargePowers()
    ensures Pow2(25) == 33554432 && Pow2(26) == 67108864 && Pow2(27) == 134217728 && Pow2(28) == 268435456
    ensures Pow2(29) == 536870912 && Pow2(30) == 1073741824 && Pow2(31) == 2147483648 && Pow2(32) == 4294967296
    ensures Pow2(33) == 8589934592 && Pow2(34) == 17179869184 && Pow2(35) == 34359738368
    ensures Pow2(36) == 68719476736 && Pow2(37) == 137438953472
  {
    Pow2Values();
    assert Pow2(26) == 4 * Pow2(24) && Pow2(28) == 4 * Pow2(26) && Pow2(30) == 4 * Pow2(28);
    assert Pow2(34) == 4 * Pow2(32) && Pow2(36) == 4 * Pow2(34);
  }

  // ------------------------------------------------------- the starting bits

  /** The lower curve the first search settles on. */
  function CurveIndex(f: Request): (v: nat)
    requires ValidRequest(f)
    ensures v < |f.m.allocVectors|
  {
    CurveSearch(f, Budget(f), 1, |f.m.allocVectors| - 1) - 1
  }

  function Mix(f: Request): nat
    requires ValidRequest(f)
  {
    MixSearch(f, Budget(f), CurveIndex(f), 0, 64, 6)
  }

  function FinalTargets(f: Request): (t: seq<int>)
    requires ValidRequest(f)
    ensures Targets(f, t)
  {
    Between(f, CurveIndex(f), Mix(f))
  }

  /** bits[] when the skip decisions begin. */
  function FirstBits(f: Request): (b: seq<int>)
    requires ValidRequest(f)
    ensures Targets(f, b)
  {
    seq(Bands(f.m), j requires 0 <= j < Bands(f.m) => if f.start <= j < f.end then Grant(f, FinalTargets(f), j) else 0)
  }

  lemma {:induction false} GrantsCharged(f: Request, t: seq<int>, b: seq<int>, j: nat)
    requires ValidRequest(f) && Targets(f, t) && |b| == Bands(f.m) && j <= f.end
    requires forall i :: j <= i < f.end ==> b[i] == Grant(f, t, i)
    ensures Sum(b, j, f.end) <= Charges(f, t, j)
    decreases f.end - j
  {
    hide Grant, Charge;
    if j < f.end {
      GrantsCharged(f, t, b, j + 1);
      SumSplit(b, j, j + 1, f.end);
      assert Sum(b, j, j + 1) == b[j] == Grant(f, t, j);
    }
  }

  lemma {:induction false} NothingCharged(f: Request, t: seq<int>, j: nat)
    requires ValidRequest(f) && Targets(f, t) && forall i :: 0 <= i < Bands(f.m) ==> t[i] == 0
    ensures !ReachesThresh(f, t, j) && Charges(f, t, j) == 0
    decreases f.end - j
  {
    hide Thresh;
    if j < f.end { NothingCharged(f, t, j + 1); }
  }

  /** With no mix the lower curve alone is left. */
  lemma NoMix(f: Request)
    requires ValidRequest(f) && Mix(f) == 0
    ensures CurveIndex(f) == 0 ==> forall j :: 0 <= j < Bands(f.m) ==> FinalTargets(f)[j] == 0
    ensures CurveIndex(f) > 0 ==> FinalTargets(f) == CurveTargets(f, CurveIndex(f))
  {
    hide Charges, Curve, Raise, Budget, Mixed, CurveIndex, Mix;
    assert forall j :: 0 <= j < Bands(f.m) ==> FinalTargets(f)[j] == Lower(f, CurveIndex(f), j);
  }

  /** The mix found is below 64 and the next one no longer fits; the curve is the last one
      or the next one does not fit. */
  lemma MixLargest(f: Request)
    requires ValidRequest(f)
    ensures Mix(f) <= 63
    ensures Mix(f) < 63 ==> Charges(f, Between(f, CurveIndex(f), Mix(f) + 1), f.start) > Budget(f)
    ensures CurveIndex(f) < |f.m.allocVectors| - 1 ==>
              Charges(f, CurveTargets(f, CurveIndex(f) + 1), f.start) > Budget(f)
  {
    hide *;
    SearchesAre(f);
    CurveSearchFits(f, Budget(f), 1, |f.m.allocVectors| - 1);
    MixSearchFits(f, Budget(f), CurveIndex(f), 0, 64, 6);
  }

  lemma SearchesAre(f: Request)
    requires ValidRequest(f)
    ensures |f.m.allocVectors| >= 2 && Pow2(6) == 64
    ensures CurveIndex(f) == CurveSearch(f, Budget(f), 1, |f.m.allocVectors| - 1) - 1
    ensures Mix(f) == MixSearch(f, Budget(f), CurveIndex(f), 0, 64, 6)
  {
    assert Pow2(6) == 64;
    hide Charges, Budget, Between, CurveTargets, Pow2, CurveSearch, MixSearch;
  }

  /** The 64 steps lead from the lower curve to the next one, or to the caps after the last,
      without going down anywhere; a band whose offset is higher than that stays. */
  lemma MixPath(f: Request, v: nat, a: nat, b: nat, j: nat)
    requires ValidRequest(f) && v < |f.m.allocVectors| && j < Bands(f.m) && a <= b <= 64
    ensures Between(f, v, 0)[j] <= Between(f, v, a)[j] <= Between(f, v, b)[j] <= Between(f, v, 64)[j]
    ensures v > 0 ==> Between(f, v, 0)[j] == CurveTargets(f, v)[j]
    ensures v == 0 ==> Between(f, v, 0)[j] == 0
    ensures var top := if v + 1 < |f.m.allocVectors| then CurveTargets(f, v + 1)[j]
                       else Tilted(f, j, f.cap[j]) + f.offsets[j];
      Between(f, v, 64)[j] == Max(Between(f, v, 0)[j], top)
    ensures 64 * (Between(f, v, a)[j] - Between(f, v, 0)[j])
            <= a * (Between(f, v, 64)[j] - Between(f, v, 0)[j])
            < 64 * (Between(f, v, a)[j] - Between(f, v, 0)[j] + 1)
  {
    hide Curve, Tilted, ValidRequest;
    var r := Raise(f, v, j);
    MulMono(a, b, r);
    MulMono(b, 64, r);
    MulMono(0, a, r);
    MixSteps(a * r, b * r, r);
    assert Between(f, v, 64)[j] - Between(f, v, 0)[j] == r;
  }

  lemma MixSteps(x: int, y: int, r: int)
    requires 0 <= x <= y <= 64 * r
    ensures 0 <= x / 64 <= y / 64 <= 64 * r / 64 == r
    ensures 64 * (x / 64) <= x < 64 * (x / 64 + 1)
  {
  }

  /** Both searches end on an allocation that fits the budget. */
  lemma SettledFits(f: Request)
    requires ValidRequest(f)
    ensures Charges(f, FinalTargets(f), f.start) <= Budget(f)
  {
    hide Charges, Curve, Raise, Budget, Mixed, CurveTargets, Between, Lower;
    CurveSearchFits(f, Budget(f), 1, |f.m.allocVectors| - 1);
    if Mix(f) == 0 {
      NoMix(f);
      if CurveIndex(f) == 0 { NothingCharged(f, FinalTargets(f), f.start); }
    }
  }

  /** The starting bits fit the budget. */
  lemma FirstBitsFit(f: Request)
    requires ValidRequest(f)
    ensures Sum(FirstBits(f), f.start, f.end) <= Budget(f)
  {
    hide Charges, Budget, Grant, FinalTargets;
    SettledFits(f);
    GrantsCharged(f, FinalTargets(f), FirstBits(f), f.start);
  }
}
