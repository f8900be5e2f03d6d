/** The second half of the allocator: skipping bands, reserving the stereo
    parameters, sharing out what is left, splitting fine energy from pulses. */
module Alloc {
  import opened Arith
  import opened Interval
  import opened Rate

  // ----------------------------------------------------------- band skipping

  /** The skip loop's state before it looks at band coded - 1. */
  datatype Skip = Skip(coded: nat, psum: int, rsv: int, zeros: nat, bits: seq<int>)

  /** The last boosted band: neither it nor any band below is ever skipped. */
  function SkipStart(f: Request, j: nat): (s: nat)
    requires ValidRequest(f) && f.start <= j <= f.end
    ensures f.start <= s && (s < j || s == f.start)
    ensures forall i :: s < i < j ==> f.offsets[i] <= 0
    decreases j
  {
    if j == f.start then f.start
    else if f.offsets[j - 1] > 0 then j - 1
    else SkipStart(f, j - 1)
  }

  function SkipBound(f: Request): (s: nat)
    requires ValidRequest(f)
    ensures f.start <= s < f.end
  {
    SkipStart(f, f.end)
  }

  /** What the loop keeps: the running sum is exact and within the budget. */
  predicate SkipInv(f: Request, k: Skip)
    requires ValidRequest(f)
  {
    && f.start < k.coded <= f.end && |k.bits| == Bands(f.m) && Nonnegative(k.bits)
    && 0 <= k.rsv <= ForIntensity(f) && (k.rsv > 0 ==> k.rsv == Log2Frac(k.coded - f.start))
    && k.psum == Sum(k.bits, f.start, f.end) + 8 * k.zeros + k.rsv - ForIntensity(f)
    && k.psum <= Budget(f)
    && forall j :: k.coded <= j < f.end ==> k.bits[j] == 0 || k.bits[j] == Floor(f)
  }

  /** Bits band coded - 1 would get if the bits left were shared out now. */
  function BandBits(f: Request, k: Skip): int
    requires ValidRequest(f) && SkipInv(f, k)
  {
    var j := k.coded - 1;
    var left, w := Budget(f) - k.psum, Width(f, f.start, k.coded);
    var rem := Max(left % w - Width(f, f.start, j), 0);
    k.bits[j] + left / w * Width(f, j, k.coded) + rem
  }

  /** Enough bits for a skip flag and for coding the band. */
  predicate Flagged(f: Request, k: Skip)
    requires ValidRequest(f) && SkipInv(f, k)
  {
    BandBits(f, k) >= Max(Thresh(f, k.coded - 1), Floor(f) + 8)
  }

  /** Band coded - 1 is skipped. */
  function Skipped(f: Request, k: Skip): (r: Skip)
    requires ValidRequest(f) && SkipInv(f, k)
  {
    var j := k.coded - 1;
    var cost := if Flagged(f, k) then 8 else 0;
    var rsv := if k.rsv > 0 then Log2Frac(j - f.start) else k.rsv;
    var keep := if BandBits(f, k) - cost >= Floor(f) then Floor(f) else 0;
    Skip(j, k.psum + cost - (k.bits[j] + k.rsv) + rsv + keep, rsv, k.zeros + cost / 8, k.bits[j := keep])
  }

  lemma ShareBound(left: nat, w: nat, a: nat, b: nat)
    requires w > 0 && a + b == w
    ensures 0 <= left / w * b
    ensures left / w * b + Max(left % w - a, 0) <= left
  {
    MulNat(left / w, b);
    MulMono(b, w, left / w);
    assert b * (left / w) == left / w * b && w * (left / w) == left / w * w;
    assert left == left / w * w + left % w;
  }

  /** A share is never more than the bits it is taken from. */
  lemma BandBitsBound(f: Request, k: Skip)
    requires ValidRequest(f) && SkipInv(f, k)
    ensures k.bits[k.coded - 1] <= BandBits(f, k) <= k.bits[k.coded - 1] + Budget(f) - k.psum
  {
    hide Budget, ForIntensity, Sum;
    ShareBound(Budget(f) - k.psum, Width(f, f.start, k.coded), Width(f, f.start, k.coded - 1),
               Width(f, k.coded - 1, k.coded));
  }

  lemma SumUpdate(s: seq<int>, a: nat, b: nat, j: nat, v: int)
    requires a <= j < b <= |s|
    ensures Sum(s[j := v], a, b) == Sum(s, a, b) - s[j] + v
  {
    var t := s[j := v];
    SumSplit(s, a, j, b);
    SumSplit(t, a, j, b);
    SumSplit(s, j, j + 1, b);
    SumSplit(t, j, j + 1, b);
    SumSame(s, t, a, j);
    SumSame(s, t, j + 1, b);
  }

  /** Skipping a band keeps the ledger ... */
  lemma SkippedSum(f: Request, k: Skip)
    requires ValidRequest(f) && SkipInv(f, k) && k.coded - 1 > f.start
    ensures var r := Skipped(f, k);
      r.psum == Sum(r.bits, f.start, f.end) + 8 * r.zeros + r.rsv - ForIntensity(f)
  {
    var r := Skipped(f, k);
    SumUpdate(k.bits, f.start, f.end, k.coded - 1, r.bits[k.coded - 1]);
    hide Budget, ForIntensity, Sum, BandBits, Thresh, ValidRequest, Floor, Flagged;
  }

  /** ... and the budget: what the band keeps, it had or could have had. */
  lemma SkippedFits(f: Request, k: Skip)
    requires ValidRequest(f) && SkipInv(f, k) && k.coded - 1 > f.start
    ensures Skipped(f, k).psum <= Budget(f) && 0 <= Skipped(f, k).rsv <= k.rsv
  {
    BandBitsBound(f, k);
    TableGrows(k.coded - 1 - f.start, k.coded - f.start);
    hide Budget, ForIntensity, Sum, BandBits, Thresh, ValidMode, Floor, Log2Frac;
  }

  lemma SkippedKeeps(f: Request, k: Skip)
    requires ValidRequest(f) && SkipInv(f, k) && k.coded - 1 > f.start
    ensures SkipInv(f, Skipped(f, k))
  {
    SkippedSum(f, k);
    SkippedFits(f, k);
    hide Budget, ForIntensity, Sum, BandBits, Thresh, ValidRequest, Floor, Flagged;
  }

  lemma StartKeeps(f: Request)
    requires ValidRequest(f)
    ensures SkipInv(f, Skip(f.end, Sum(FirstBits(f), f.start, f.end), ForIntensity(f), 0, FirstBits(f)))
  {
    hide FirstBits, Sum, Budget, ForIntensity, ValidMode, Log2Frac, Floor;
    FirstBitsFit(f);
    IntensityEntry(f);
  }

  lemma IntensityEntry(f: Request)
    requires ValidRequest(f)
    ensures ForIntensity(f) == 0 || ForIntensity(f) == Log2Frac(f.end - f.start)
  {
    hide ValidMode;
  }

  /** The state once every band from c on has been skipped. */
  function SkipState(f: Request, c: nat): (k: Skip)
    requires ValidRequest(f) && SkipBound(f) < c <= f.end
    ensures SkipInv(f, k) && k.coded == c
    decreases f.end - c
  {
    hide SkipInv, FirstBits, Skipped, Sum, ForIntensity, Budget, SkipBound, Thresh, ValidMode;
    if c == f.end then
      StartKeeps(f);
      Skip(f.end, Sum(FirstBits(f), f.start, f.end), ForIntensity(f), 0, FirstBits(f))
    else
      SkippedKeeps(f, SkipState(f, c + 1));
      Skipped(f, SkipState(f, c + 1))
  }

  /** The skip flags coded on the way there, all zero. */
  function ZeroFlags(f: Request, c: nat): (ops: seq<Op>)
    requires ValidRequest(f) && SkipBound(f) < c <= f.end
    ensures AllLegal(ops)
    decreases f.end - c
  {
    if c == f.end then []
    else ZeroFlags(f, c + 1) + if Flagged(f, SkipState(f, c + 1)) then [BitOp(false, 1)] else []
  }

  /** Skipping can stop here: nothing below may be skipped, or a flag says so. */
  predicate CanStop(f: Request, c: nat)
    requires ValidRequest(f)
  {
    SkipBound(f) < c <= f.end && (c == SkipBound(f) + 1 || Flagged(f, SkipState(f, c)))
  }

  /** The flags that end the skipping at c. */
  function SkipFlags(f: Request, c: nat): (ops: seq<Op>)
    requires ValidRequest(f) && CanStop(f, c)
    ensures AllLegal(ops)
  {
    ZeroFlags(f, c) + if c == SkipBound(f) + 1 then [] else [BitOp(true, 1)]
  }

  /** The ledger's own count of zero flags is the number of flags coded. */
  lemma {:induction false} FlagsCounted(f: Request, c: nat)
    requires ValidRequest(f) && SkipBound(f) < c <= f.end
    ensures |ZeroFlags(f, c)| == SkipState(f, c).zeros
    decreases f.end - c
  {
    hide SkipInv, BandBits, Thresh, ValidRequest, FirstBits, Flagged, SkipBound, Sum;
    if c < f.end { FlagsCounted(f, c + 1); }
  }

  // -------------------------------------------------------- the whole outcome

  /** The decisions an encoder is free to make. */
  datatype Choice = Choice(coded: nat, intensity: nat, dual: bool)

  predicate ValidChoice(f: Request, ch: Choice)
    requires ValidRequest(f)
  {
    CanStop(f, ch.coded) && f.start <= ch.intensity <= ch.coded
  }

  /** The intensity reservation still held at the end. */
  function HeldIntensity(f: Request, ch: Choice): (r: int)
    requires ValidRequest(f) && ValidChoice(f, ch)
    ensures r >= 0
  {
    SkipState(f, ch.coded).rsv
  }

  function Intensity(f: Request, ch: Choice): nat
    requires ValidRequest(f) && ValidChoice(f, ch)
  {
    if HeldIntensity(f, ch) > 0 then ch.intensity else 0
  }

  /** The dual stereo reservation, given back when there is no stereo band. */
  function HeldDual(f: Request, ch: Choice): (r: nat)
    requires ValidRequest(f) && ValidChoice(f, ch)
  {
    if Intensity(f, ch) <= f.start then 0 else ForDual(f)
  }

  function Dual(f: Request, ch: Choice): bool
    requires ValidRequest(f) && ValidChoice(f, ch)
  {
    HeldDual(f, ch) > 0 && ch.dual
  }

  /** Everything the allocator puts in the stream. */
  function AllocOps(f: Request, ch: Choice): (ops: seq<Op>)
    requires ValidRequest(f) && ValidChoice(f, ch)
    ensures AllLegal(ops)
  {
    SkipFlags(f, ch.coded) + IntensityOps(f, ch) + DualOps(f, ch)
  }

  function IntensityOps(f: Request, ch: Choice): (ops: seq<Op>)
    requires ValidRequest(f) && ValidChoice(f, ch)
    ensures AllLegal(ops)
  {
    if HeldIntensity(f, ch) > 0 then UintOps(ch.intensity - f.start, ch.coded + 1 - f.start) else []
  }

  function DualOps(f: Request, ch: Choice): (ops: seq<Op>)
    requires ValidRequest(f) && ValidChoice(f, ch)
    ensures AllLegal(ops)
  {
    if HeldDual(f, ch) > 0 then [BitOp(ch.dual, 1)] else []
  }

  /** What is left to share out over the coded bands. */
  function Left(f: Request, ch: Choice): (left: int)
    requires ValidRequest(f) && ValidChoice(f, ch)
    ensures left >= 0
  {
    Budget(f) + (if ch.coded == SkipBound(f) + 1 then ForSkip(f) else 0) + (ForDual(f) - HeldDual(f, ch))
    - SkipState(f, ch.coded).psum
  }

  /** A band's share of `left` bits: its part of the even share and, in order, of
      the remainder. */
  function Share(f: Request, coded: nat, left: nat, j: nat): (s: int)
    requires ValidRequest(f) && f.start <= j < coded <= f.end
    ensures s >= 0
  {
    hide Width, ValidMode;
    var w := Width(f, f.start, coded);
    MulNat(left / w, Width(f, j, j + 1));
    left / w * Width(f, j, j + 1) + Min(Max(left % w - Width(f, f.start, j), 0), Width(f, j, j + 1))
  }

  /** The skip loop measures a band by what it would end with if the skipping stopped at it. */
  lemma BandShare(f: Request, k: Skip)
    requires ValidRequest(f) && SkipInv(f, k)
    ensures BandBits(f, k) == k.bits[k.coded - 1] + Share(f, k.coded, Budget(f) - k.psum, k.coded - 1)
  {
    hide Budget, ForIntensity, Sum, Log2Frac, Floor, ValidMode;
    WidthAdds(f, f.start, k.coded - 1, k.coded);
    hide Width;
    var w := Width(f, f.start, k.coded);
    assert (Budget(f) - k.psum) % w < w;
  }

  lemma {:induction false} SharesSum(f: Request, coded: nat, left: nat, s: seq<int>, j: nat)
    requires ValidRequest(f) && f.start <= j <= coded <= f.end && f.start < coded && |s| == Bands(f.m)
    requires forall i :: f.start <= i < j ==> s[i] == Share(f, coded, left, i)
    ensures var w := Width(f, f.start, coded);
      Sum(s, f.start, j) == left / w * Width(f, f.start, j) + Min(left % w, Width(f, f.start, j))
    decreases j
  {
    hide ValidMode;
    if j > f.start {
      SharesSum(f, coded, left, s, j - 1);
      WidthAdds(f, f.start, j - 1, j);
      Distribute(left / Width(f, f.start, coded), Width(f, f.start, j - 1), Width(f, j - 1, j));
    } else {
      WidthNone(f, j);
    }
  }

  lemma WidthAdds(f: Request, a: nat, b: nat, c: nat)
    requires ValidRequest(f) && a <= b <= c <= Bands(f.m)
    ensures Width(f, a, c) == Width(f, a, b) + Width(f, b, c)
  {
  }

  lemma WidthNone(f: Request, a: nat)
    requires ValidRequest(f) && a <= Bands(f.m)
    ensures Width(f, a, a) == 0
  {
  }

  lemma Distribute(x: int, a: int, b: int)
    ensures x * (a + b) == x * a + x * b
  {
  }

  /** bits[] once everything is shared out. */
  function SharedBits(f: Request, ch: Choice): (b: seq<int>)
    requires ValidRequest(f) && ValidChoice(f, ch)
    ensures |b| == Bands(f.m) && Nonnegative(b)
  {
    hide ValidChoice, SkipState, Share, Left, ValidMode, SharedBit;
    seq(Bands(f.m), j requires 0 <= j < Bands(f.m) => SharedBit(f, ch, j))
  }

  function SharedBit(f: Request, ch: Choice, j: nat): (b: int)
    requires ValidRequest(f) && ValidChoice(f, ch) && j < Bands(f.m)
    ensures b >= 0
  {
    hide SkipState, Share, Left, ValidMode;
    SkipState(f, ch.coded).bits[j] + if f.start <= j < ch.coded then Share(f, ch.coded, Left(f, ch), j) else 0
  }

  lemma ChoiceRange(f: Request, ch: Choice)
    requires ValidRequest(f) && ValidChoice(f, ch)
    ensures f.start < ch.coded <= f.end && SkipBound(f) < ch.coded
  {
  }

  /** One band's split, and what passes to the next band. */
  datatype Split = Split(pulses: int, ebits: int, priority: bool, balance: int)

  /** The fine-energy offset of a band of n coefficients with p eighth-bits. */
  function FineOffset(f: Request, j: nat, den: nat, p: int): int
    requires ValidRequest(f) && j < Bands(f.m)
  {
    var nClogN := den * (f.m.logN[j] + 8 * f.LM);
    var base := nClogN / 2 - den * FINE_OFFSET + if Size(f, j) == 2 then den * 8 / 4 else 0;
    if p + base < den * 2 * 8 then base + nClogN / 4
    else if p + base < den * 3 * 8 then base + nClogN / 8
    else base
  }

  /** More bits lower the offset, by a quarter of the band's log size at most. */
  lemma OffsetFalls(f: Request, j: nat, den: nat, p: int, q: int)
    requires ValidRequest(f) && j < Bands(f.m) && p <= q && f.m.logN[j] + 8 * f.LM >= 0
    ensures FineOffset(f, j, den, q) <= FineOffset(f, j, den, p)
            <= FineOffset(f, j, den, q) + den * (f.m.logN[j] + 8 * f.LM) / 4
  {
    MulNat(den, f.m.logN[j] + 8 * f.LM);
    hide Size, ValidRequest;
  }

  const WORKED: Request :=
    Request(Mode([0, 4, 5, 7], [[0, 0, 0], [40, 32, 32]], [16, 0, 8]), 0, 3, [0, 0, 0], [400, 400, 400], 9, 1000, 2, 1)

  /** Three bands worked out by hand: four, one and two coefficients, doubled, in stereo. */
  lemma WorkedBands()
    ensures ValidRequest(WORKED) && Size(WORKED, 0) == 8 && Size(WORKED, 1) == 2 && Size(WORKED, 2) == 4
    ensures TrimOffset(WORKED, 0) == 12 && TrimOffset(WORKED, 1) == 1 && TrimOffset(WORKED, 2) == 0
    ensures FineOffset(WORKED, 0, 16, 399) == -48 && FineOffset(WORKED, 0, 16, 400) == -96
    ensures FineOffset(WORKED, 0, 16, 528) == -144 && FineOffset(WORKED, 1, 4, 200) == -60
  {
    assert Pow2(1) == 2 && Pow2(4) == 16;
    WorkedValid();
    hide Pow2, ValidRequest;
  }

  lemma WorkedValid()
    ensures ValidRequest(WORKED)
  {
  }

  /** Fine bits per channel for a band with p eighth-bits: the rounded share, but
      never more than the band has, nor than MAX_FINE_BITS. */
  function FineBits(f: Request, den: nat, p: nat, offset: int): (e: int)
    requires 1 <= f.C <= 2 && den > 0
    ensures 0 <= e <= MAX_FINE_BITS && FineCost(f, e) <= p
  {
    var e := Max(0, p + offset + den * 4) / den / 8;
    var e' := if f.C * e > p / 8 then p / f.C / 8 else e;
    Min(e', MAX_FINE_BITS)
  }

  /** Short of the two limits it is the whole number of bits nearest to the share. */
  lemma FineNearest(f: Request, den: nat, p: nat, offset: int)
    requires 1 <= f.C <= 2 && den > 0
    ensures var e, share := FineBits(f, den, p, offset), p + offset;
      && (e < MAX_FINE_BITS && FineCost(f, e + 1) <= p ==> share < 8 * den * e + 4 * den)
      && (e > 0 ==> 8 * den * e - 4 * den <= share)
  {
    var s := Max(0, p + offset + den * 4);
    var e := s / den / 8;
    EighthOf(s, den);
    var r := FineBits(f, den, p, offset);
    FineLimits(f, p, e);
    MulMono(r, e, 8 * den);
    hide FineCost;
    assert r * (8 * den) == 8 * den * r && e * (8 * den) == 8 * den * e && (e + 1) * (8 * den) == 8 * den * e + 8 * den;
  }

  lemma EighthOf(s: nat, den: nat)
    requires den > 0
    ensures var e := s / den / 8; e * (8 * den) <= s < (e + 1) * (8 * den)
  {
    DivDiv(s, den, 8);
    DivGe(s, den * 8, s / den / 8);
    DivGe(s, den * 8, s / den / 8 + 1);
    assert den * 8 == 8 * den;
  }

  lemma FineLimits(f: Request, p: nat, e: nat)
    requires 1 <= f.C <= 2
    ensures var r := Min(if f.C * e > p / 8 then p / f.C / 8 else e, MAX_FINE_BITS);
      r <= e && (r < MAX_FINE_BITS && r < e ==> FineCost(f, r + 1) > p)
  {
  }

  function Den(f: Request, intensity: nat, dual: bool, j: nat): (d: nat)
    requires ValidRequest(f) && j < Bands(f.m)
    ensures d > 0
  {
    MulMono(1, f.C, Size(f, j));
    f.C * Size(f, j) + if f.C == 2 && Size(f, j) > 2 && !dual && j < intensity then 1 else 0
  }

  /** Eighth-bits in e fine bits for every channel. */
  function FineCost(f: Request, e: nat): nat {
    MulNat(f.C, e);
    8 * (f.C * e)
  }

  lemma FineCostAdds(f: Request, a: nat, b: nat)
    ensures FineCost(f, a + b) == FineCost(f, a) + FineCost(f, b)
  {
    Distribute(f.C, a, b);
  }

  predicate RoundedUp(e: nat, den: nat, p: int) { e * (den * 8) >= p }

  /** Before the excess is looked at. */
  function CoarseSplit(f: Request, intensity: nat, dual: bool, j: nat, bit: nat): (s: Split)
    requires ValidRequest(f) && j < Bands(f.m)
    ensures s.pulses >= 0 && 0 <= s.ebits <= MAX_FINE_BITS && s.balance >= 0
    ensures s.pulses + FineCost(f, s.ebits) + s.balance == bit
    ensures Size(f, j) > 1 ==> s.pulses <= f.cap[j]
  {
    hide ValidMode, Size, FineOffset, FineBits, Den, RoundedUp;
    if Size(f, j) > 1 then
      var excess := Max(bit - f.cap[j], 0);
      var p := bit - excess;
      var den := Den(f, intensity, dual, j);
      var offset := FineOffset(f, j, den, p);
      var e := FineBits(f, den, p, offset);
      Split(p - FineCost(f, e), e, RoundedUp(e, den, p + offset), excess)
    else
      var excess := Max(0, bit - Floor(f));
      Split(bit - excess, 0, true, excess)
  }

  lemma ExtraFits(f: Request, balance: nat, e: nat)
    requires 1 <= f.C <= 2 && e <= balance / (8 * f.C)
    ensures FineCost(f, e) <= balance
  {
  }

  /** As much of the excess as fits goes to more fine bits. */
  function BandSplit(f: Request, intensity: nat, dual: bool, j: nat, b: nat, balance: nat): (s: Split)
    requires ValidRequest(f) && j < Bands(f.m)
    ensures s.pulses >= 0 && 0 <= s.ebits <= MAX_FINE_BITS && s.balance >= 0
    ensures s.pulses + FineCost(f, s.ebits) + s.balance == b + balance
    ensures Size(f, j) > 1 ==> s.pulses <= f.cap[j]
  {
    hide ValidMode, Size, CoarseSplit, FineCost;
    var s := CoarseSplit(f, intensity, dual, j, b + balance);
    if s.balance > 0 then
      var extra := Min(s.balance / (8 * f.C), MAX_FINE_BITS - s.ebits);
      ExtraFits(f, s.balance, extra);
      FineCostAdds(f, s.ebits, extra);
      Split(s.pulses, s.ebits + extra, FineCost(f, extra) >= s.balance - balance, s.balance - FineCost(f, extra))
    else s
  }

  /** The balance on reaching band j. */
  function Balance(f: Request, intensity: nat, dual: bool, b: seq<int>, j: nat): nat
    requires ValidRequest(f) && |b| == Bands(f.m) && Nonnegative(b) && f.start <= j <= f.end
    decreases j
  {
    if j == f.start then 0
    else BandSplit(f, intensity, dual, j - 1, b[j - 1], Balance(f, intensity, dual, b, j - 1)).balance
  }

  function SplitAt(f: Request, intensity: nat, dual: bool, b: seq<int>, j: nat): (s: Split)
    requires ValidRequest(f) && |b| == Bands(f.m) && Nonnegative(b) && f.start <= j < f.end
  {
    BandSplit(f, intensity, dual, j, b[j], Balance(f, intensity, dual, b, j))
  }

  /** A skipped band: all its bits, if it has any, are fine bits. */
  function SkippedSplit(f: Request, b: nat): (s: Split)
    requires 1 <= f.C <= 2
    ensures s.pulses == 0 && s.ebits >= 0
  {
    var e := b / f.C / 8;
    Split(0, e, e < 1, 0)
  }

  /** What the caller gets back. */
  datatype Outcome = Outcome(coded: nat, intensity: nat, dual: bool, balance: int, splits: seq<Split>)

  function OutcomeSplit(f: Request, ch: Choice, j: nat): (s: Split)
    requires ValidRequest(f) && ValidChoice(f, ch) && f.start <= j < f.end
    ensures s.pulses >= 0 && s.ebits >= 0
  {
    hide ValidMode, SharedBit, BandSplit, Balance, FineCost, Size, ValidChoice, SkippedSplit, Intensity, Dual;
    var b := SharedBits(f, ch);
    if j < ch.coded then SplitAt(f, Intensity(f, ch), Dual(f, ch), b, j).(balance := 0)
    else SkippedSplit(f, b[j])
  }

  function AllocOutcome(f: Request, ch: Choice): Outcome
    requires ValidRequest(f) && ValidChoice(f, ch)
  {
    Outcome(ch.coded, Intensity(f, ch), Dual(f, ch),
            Balance(f, Intensity(f, ch), Dual(f, ch), SharedBits(f, ch), ch.coded),
            seq(f.end - f.start, i requires 0 <= i < f.end - f.start => OutcomeSplit(f, ch, f.start + i)))
  }

  // ------------------------------------------------------------- the ledger

  /** Eighth-bits handed out to bands, pulses and fine energy together. */
  function GivenOut(f: Request, s: seq<Split>): int
    requires forall i :: 0 <= i < |s| ==> s[i].ebits >= 0
  {
    var n := |s| - 1;
    if n < 0 then 0 else GivenOut(f, s[..n]) + s[n].pulses + FineCost(f, s[n].ebits)
  }

  lemma SpentSnoc(f: Request, s: seq<Split>, e: Split)
    requires (forall i :: 0 <= i < |s| ==> s[i].ebits >= 0) && e.ebits >= 0
    ensures GivenOut(f, s + [e]) == GivenOut(f, s) + e.pulses + FineCost(f, e.ebits)
  {
    assert (s + [e])[..|s|] == s;
  }

  /** The splits of the bands below j. */
  function Splits(f: Request, ch: Choice, j: nat): (s: seq<Split>)
    requires ValidRequest(f) && ValidChoice(f, ch) && f.start <= j <= f.end
    ensures |s| == j - f.start && forall i :: 0 <= i < |s| ==> s[i].ebits >= 0
    decreases j
  {
    hide ValidMode, ValidChoice, OutcomeSplit;
    if j == f.start then [] else Splits(f, ch, j - 1) + [OutcomeSplit(f, ch, j - 1)]
  }

  lemma {:induction false} SplitsAre(f: Request, ch: Choice, j: nat)
    requires ValidRequest(f) && ValidChoice(f, ch) && f.start <= j <= f.end
    ensures forall i :: 0 <= i < j - f.start ==> Splits(f, ch, j)[i] == OutcomeSplit(f, ch, f.start + i)
    decreases j
  {
    hide ValidRequest, ValidChoice, OutcomeSplit;
    if j > f.start { SplitsAre(f, ch, j - 1); }
  }

  /** What every band is given is nonnegative, and pulses stay under the cap. */
  lemma SplitBounds(f: Request, ch: Choice, j: nat)
    requires ValidRequest(f) && ValidChoice(f, ch) && f.start <= j < f.end
    ensures var s := OutcomeSplit(f, ch, j);
      && 0 <= s.pulses && 0 <= s.ebits <= MAX_FINE_BITS && (j < ch.coded && Size(f, j) > 1 ==> s.pulses <= f.cap[j])
  {
    hide ValidMode, BandSplit, Balance, FineCost, Size, ValidChoice, Intensity, Dual, SkipState, SkipInv, Share, Left,
      Floor;
    if ch.coded <= j {
      ChoiceRange(f, ch);
      SkippedBits(f, SkipState(f, ch.coded), j);
      FloorCost(f, SharedBit(f, ch, j));
    }
  }

  /** A skipped band's few bits become fine bits exactly. */
  lemma SkippedExact(f: Request, ch: Choice, j: nat)
    requires ValidRequest(f) && ValidChoice(f, ch) && ch.coded <= j < f.end
    ensures var s := OutcomeSplit(f, ch, j); s.pulses + FineCost(f, s.ebits) == SharedBit(f, ch, j)
  {
    hide ValidMode, SkipState, SkipInv, ValidChoice, FineCost, Floor, Share, Left, Balance, SplitAt;
    ChoiceRange(f, ch);
    SkippedBits(f, SkipState(f, ch.coded), j);
    FloorCost(f, SharedBit(f, ch, j));
  }

  lemma SkippedBits(f: Request, k: Skip, j: nat)
    requires ValidRequest(f) && SkipInv(f, k) && k.coded <= j < f.end
    ensures |k.bits| == Bands(f.m) && (k.bits[j] == 0 || k.bits[j] == Floor(f))
  {
  }

  lemma FloorCost(f: Request, b: nat)
    requires 1 <= f.C <= 2 && (b == 0 || b == Floor(f))
    ensures FineCost(f, b / f.C / 8) == b && b / f.C / 8 <= 1
  {
  }

  /** Up to the last coded band, what was given out and what is carried on is what
      was shared out. */
  lemma {:induction false} SpentCoded(f: Request, ch: Choice, j: nat)
    requires ValidRequest(f) && ValidChoice(f, ch) && f.start <= j <= ch.coded
    ensures GivenOut(f, Splits(f, ch, j)) + Balance(f, Intensity(f, ch), Dual(f, ch), SharedBits(f, ch), j)
            == Sum(SharedBits(f, ch), f.start, j)
    decreases j
  {
    hide ValidMode, SharedBits, BandSplit, FineCost, Intensity, Dual, SkipState, ValidChoice;
    ChoiceRange(f, ch);
    if j > f.start {
      SpentCoded(f, ch, j - 1);
      SplitBounds(f, ch, j - 1);
      SpentSnoc(f, Splits(f, ch, j - 1), OutcomeSplit(f, ch, j - 1));
    }
  }

  lemma SharedNext(f: Request, ch: Choice, j: nat)
    requires ValidRequest(f) && ValidChoice(f, ch) && f.start <= j < f.end
    ensures Sum(SharedBits(f, ch), f.start, j + 1) == Sum(SharedBits(f, ch), f.start, j) + SharedBit(f, ch, j)
  {
    hide ValidMode, SharedBit, ValidChoice;
  }

  /** A skipped band spends exactly its share. */
  lemma SpentSkipped(f: Request, ch: Choice, j: nat)
    requires ValidRequest(f) && ValidChoice(f, ch) && ch.coded <= j < f.end
    ensures GivenOut(f, Splits(f, ch, j + 1)) == GivenOut(f, Splits(f, ch, j)) + SharedBit(f, ch, j)
  {
    hide ValidMode, SharedBit, FineCost, ValidChoice, OutcomeSplit, GivenOut;
    ChoiceRange(f, ch);
    SkippedExact(f, ch, j);
    SpentSnoc(f, Splits(f, ch, j), OutcomeSplit(f, ch, j));
  }

  lemma {:induction false} SpentAll(f: Request, ch: Choice, j: nat)
    requires ValidRequest(f) && ValidChoice(f, ch) && ch.coded <= j <= f.end
    ensures GivenOut(f, Splits(f, ch, j)) + Balance(f, Intensity(f, ch), Dual(f, ch), SharedBits(f, ch), ch.coded)
            == Sum(SharedBits(f, ch), f.start, j)
    decreases j
  {
    hide ValidMode, SharedBits, SharedBit, Intensity, Dual, ValidChoice, Balance, Splits, GivenOut, Sum;
    ChoiceRange(f, ch);
    if j > ch.coded {
      SharedNext(f, ch, j - 1);
      SpentSkipped(f, ch, j - 1);
      SpentAll(f, ch, j - 1);
    } else {
      SpentCoded(f, ch, j);
    }
  }

  lemma {:induction false} SumTwo(s: seq<int>, a: seq<int>, b: seq<int>, i: nat, j: nat)
    requires j <= |s| && j <= |a| && j <= |b| && forall k :: i <= k < j ==> s[k] == a[k] + b[k]
    ensures Sum(s, i, j) == Sum(a, i, j) + Sum(b, i, j)
    decreases j
  {
    if i < j { SumTwo(s, a, b, i, j - 1); }
  }

  /** Sharing out hands out all that was left. */
  lemma SharedSum(f: Request, ch: Choice)
    requires ValidRequest(f) && ValidChoice(f, ch)
    ensures Sum(SharedBits(f, ch), f.start, f.end) ==
            Sum(SkipState(f, ch.coded).bits, f.start, f.end) + Left(f, ch)
  {
    hide ValidMode, Left, Share, SkipState, Sum, SkipInv, ValidChoice;
    ChoiceRange(f, ch);
    var k, b, left := SkipState(f, ch.coded), SharedBits(f, ch), Left(f, ch);
    assert SkipInv(f, k);
    BitsLength(f, k);
    var s := seq(Bands(f.m), j requires 0 <= j < Bands(f.m) =>
      if f.start <= j < ch.coded then Share(f, ch.coded, left, j) else 0);
    SumTwo(b, k.bits, s, f.start, ch.coded);
    SharesSum(f, ch.coded, left, s, ch.coded);
    SumSame(b, k.bits, ch.coded, f.end);
    SumSplit(b, f.start, ch.coded, f.end);
    SumSplit(k.bits, f.start, ch.coded, f.end);
    ShareAll(left, Width(f, f.start, ch.coded));
  }

  lemma BitsLength(f: Request, k: Skip)
    requires ValidRequest(f) && SkipInv(f, k)
    ensures |k.bits| == Bands(f.m) && f.start < k.coded <= f.end
  {
  }

  lemma ShareAll(left: nat, w: nat)
    requires w > 0
    ensures left / w * w + Min(left % w, w) == left
  {
  }

  /** A flag that stops the skipping is paid for by the bit reserved for it. */
  lemma FlagPaid(f: Request, k: Skip)
    requires ValidRequest(f) && SkipInv(f, k) && Flagged(f, k)
    ensures ForSkip(f) == 8
  {
    BandBitsBound(f, k);
    SumBound(k.bits, f.start, f.end, k.coded - 1);
    IntensityEntry(f);
    TableGrows(f.end - f.start, f.end - f.start);
    hide Sum, BandBits, ValidMode, Log2Frac;
  }

  /** Bits are conserved: pulses, fine energy, the balance passed on, one bit for each
      skip flag in the stream and the stereo reservations held add up to the total. */
  lemma Conservation(f: Request, ch: Choice)
    requires ValidRequest(f) && ValidChoice(f, ch)
    ensures var o := AllocOutcome(f, ch);
      && (forall i :: 0 <= i < |o.splits| ==> o.splits[i].pulses >= 0 && o.splits[i].ebits >= 0)
      && o.balance >= 0
      && GivenOut(f, o.splits) + o.balance + 8 * |SkipFlags(f, ch.coded)| + HeldIntensity(f, ch) + HeldDual(f, ch)
         == Max(f.total, 0)
  {
    hide ValidMode, SharedBits, SkipState, SkipInv, Sum, Balance, OutcomeSplit, Splits, GivenOut, ForSkip, Flagged,
      ForIntensity, ForDual, HeldDual, Intensity, Dual, SkipBound;
    var o, k := AllocOutcome(f, ch), SkipState(f, ch.coded);
    SplitsAre(f, ch, f.end);
    assert o.splits == Splits(f, ch, f.end);
    forall i | 0 <= i < |o.splits| ensures o.splits[i].pulses >= 0 && o.splits[i].ebits >= 0 {
      SplitBounds(f, ch, f.start + i);
    }
    SpentAll(f, ch, f.end);
    SharedSum(f, ch);
    LedgerOf(f, k);
    FlagsCounted(f, ch.coded);
    if ch.coded != SkipBound(f) + 1 { FlagPaid(f, k); }
  }

  lemma LedgerOf(f: Request, k: Skip)
    requires ValidRequest(f) && SkipInv(f, k)
    ensures k.psum == Sum(k.bits, f.start, f.end) + 8 * k.zeros + k.rsv - ForIntensity(f)
  {
  }

  // --------------------------------------------------------------- lockstep

  /** Skipping further only adds flags, the first of them zero. */
  lemma {:induction false} FlagsExtend(f: Request, a: nat, b: nat) returns (more: seq<Op>)
    requires ValidRequest(f) && SkipBound(f) < a < b <= f.end
    ensures AllLegal(more) && ZeroFlags(f, a) == ZeroFlags(f, b) + more
    ensures Flagged(f, SkipState(f, b)) ==> |more| > 0 && more[0] == BitOp(false, 1)
    decreases b - a
  {
    hide ValidRequest, SkipBound, SkipState, SkipInv, Flagged;
    var last := if Flagged(f, SkipState(f, a + 1)) then [BitOp(false, 1)] else [];
    if a + 1 == b {
      more := last;
    } else {
      var init := FlagsExtend(f, a + 1, b);
      more := init + last;
      assert ZeroFlags(f, b) + init + last == ZeroFlags(f, b) + more;
    }
  }

  lemma CarriesOpAfter(buf: seq<byte>, sp: Span, pre: seq<Op>, op: Op, rest: seq<Op>)
    requires Proper(sp) && AllLegal(pre) && Legal(op) && AllLegal(rest)
    requires AllLegal(pre + [op] + rest) && Carries(buf, sp, pre + [op] + rest)
    ensures ReadsOp(buf, Run(sp, pre), op)
  {
    hide Carries, Run, ReadsOp;
    CarriesConcat(buf, sp, pre + [op], rest);
    CarriesSnoc(buf, sp, pre, op);
  }

  lemma SkipLess(buf: seq<byte>, sp: Span, f: Request, a: nat, b: nat, ra: seq<Op>, rb: seq<Op>)
    requires ValidRequest(f) && CanStop(f, a) && CanStop(f, b) && Proper(sp) && AllLegal(ra) && AllLegal(rb) && a < b
    requires AllLegal(SkipFlags(f, a) + ra) && AllLegal(SkipFlags(f, b) + rb)
    ensures !(Carries(buf, sp, SkipFlags(f, a) + ra) && Carries(buf, sp, SkipFlags(f, b) + rb))
  {
    hide ValidRequest, SkipBound, SkipState, SkipInv, Flagged, Carries, Run, ReadsOp, ZeroFlags;
    var z := ZeroFlags(f, b);
    var more := FlagsExtend(f, a, b);
    if Carries(buf, sp, SkipFlags(f, a) + ra) && Carries(buf, sp, SkipFlags(f, b) + rb) {
      var last := if a == SkipBound(f) + 1 then [] else [BitOp(true, 1)];
      assert SkipFlags(f, a) + ra == z + [BitOp(false, 1)] + (more[1..] + last + ra);
      CarriesOpAfter(buf, sp, z, BitOp(false, 1), more[1..] + last + ra);
      CarriesOpAfter(buf, sp, z, BitOp(true, 1), rb);
      BitOnce(buf, Run(sp, z), false, true, 1);
    }
  }

  /** A packet ends the skipping in one place only. */
  lemma SkipOnce(buf: seq<byte>, sp: Span, f: Request, a: nat, b: nat, ra: seq<Op>, rb: seq<Op>)
    requires ValidRequest(f) && CanStop(f, a) && CanStop(f, b) && Proper(sp) && AllLegal(ra) && AllLegal(rb)
    requires AllLegal(SkipFlags(f, a) + ra) && AllLegal(SkipFlags(f, b) + rb)
    requires Carries(buf, sp, SkipFlags(f, a) + ra) && Carries(buf, sp, SkipFlags(f, b) + rb)
    ensures a == b
  {
    hide *;
    if a < b { SkipLess(buf, sp, f, a, b, ra, rb); }
    if b < a { SkipLess(buf, sp, f, b, a, rb, ra); }
  }

  lemma SameIntensity(buf: seq<byte>, sp: Span, f: Request, a: Choice, b: Choice)
    requires ValidRequest(f) && ValidChoice(f, a) && ValidChoice(f, b) && Proper(sp) && a.coded == b.coded
    requires Carries(buf, sp, IntensityOps(f, a)) && Carries(buf, sp, IntensityOps(f, b))
    ensures Intensity(f, a) == Intensity(f, b) && IntensityOps(f, a) == IntensityOps(f, b)
  {
    hide ValidMode, SkipBound, SkipState, SkipInv, Flagged, Carries, UintOps;
    if HeldIntensity(f, a) > 0 {
      UintOnce(buf, sp, a.intensity - f.start, b.intensity - f.start, a.coded + 1 - f.start);
    }
  }

  lemma SameDual(buf: seq<byte>, sp: Span, f: Request, a: Choice, b: Choice)
    requires ValidRequest(f) && ValidChoice(f, a) && ValidChoice(f, b) && Proper(sp) && a.coded == b.coded
    requires Intensity(f, a) == Intensity(f, b)
    requires Carries(buf, sp, DualOps(f, a)) && Carries(buf, sp, DualOps(f, b))
    ensures Dual(f, a) == Dual(f, b) && DualOps(f, a) == DualOps(f, b) && HeldDual(f, a) == HeldDual(f, b)
  {
    hide ValidRequest, SkipBound, ValidChoice, Carries, ReadsOp, Intensity, ForDual;
    if HeldDual(f, a) > 0 {
      CarriesOne(buf, sp, BitOp(a.dual, 1));
      CarriesOne(buf, sp, BitOp(b.dual, 1));
      BitOnce(buf, sp, a.dual, b.dual, 1);
    }
  }

  lemma SameOutcome(f: Request, a: Choice, b: Choice)
    requires ValidRequest(f) && ValidChoice(f, a) && ValidChoice(f, b) && a.coded == b.coded
    requires Intensity(f, a) == Intensity(f, b) && Dual(f, a) == Dual(f, b) && HeldDual(f, a) == HeldDual(f, b)
    ensures AllocOutcome(f, a) == AllocOutcome(f, b)
  {
    hide ValidRequest, ValidChoice, SkipBound, SkipState, Balance, Intensity, Dual, HeldDual, Share, Budget, ForDual,
      SplitAt,
      SkippedSplit;
    assert Left(f, a) == Left(f, b);
    assert SharedBits(f, a) == SharedBits(f, b);
    forall j | f.start <= j < f.end ensures OutcomeSplit(f, a, j) == OutcomeSplit(f, b, j) {}
    assert AllocOutcome(f, a).splits == AllocOutcome(f, b).splits;
  }

  /** Allocator lockstep: one packet supports one allocation.  Whatever an encoder
      chose, a decoder that reads a valid set of choices reads those. */
  lemma AllocOnce(buf: seq<byte>, sp: Span, f: Request, a: Choice, b: Choice)
    requires ValidRequest(f) && ValidChoice(f, a) && ValidChoice(f, b) && Proper(sp)
    requires Carries(buf, sp, AllocOps(f, a)) && Carries(buf, sp, AllocOps(f, b))
    ensures AllocOutcome(f, a) == AllocOutcome(f, b) && AllocOps(f, a) == AllocOps(f, b)
  {
    hide ValidRequest, SkipFlags, Carries, Run, IntensityOps, DualOps, Intensity, Dual, HeldDual, AllocOutcome,
      SkipBound,
      SkipState, Flagged;
    AllocParts(buf, sp, f, a);
    AllocParts(buf, sp, f, b);
    assert AllocOps(f, a) == SkipFlags(f, a.coded) + (IntensityOps(f, a) + DualOps(f, a));
    assert AllocOps(f, b) == SkipFlags(f, b.coded) + (IntensityOps(f, b) + DualOps(f, b));
    SkipOnce(buf, sp, f, a.coded, b.coded, IntensityOps(f, a) + DualOps(f, a), IntensityOps(f, b) + DualOps(f, b));
    var sp1 := Run(sp, SkipFlags(f, a.coded));
    SameIntensity(buf, sp1, f, a, b);
    SameDual(buf, Run(sp1, IntensityOps(f, a)), f, a, b);
    SameOutcome(f, a, b);
  }

  lemma AllocParts(buf: seq<byte>, sp: Span, f: Request, a: Choice)
    requires ValidRequest(f) && ValidChoice(f, a) && Proper(sp)
    requires Carries(buf, sp, AllocOps(f, a))
    ensures var sp1 := Run(sp, SkipFlags(f, a.coded));
      && Carries(buf, sp1, IntensityOps(f, a)) && Carries(buf, Run(sp1, IntensityOps(f, a)), DualOps(f, a))
  {
    hide ValidRequest, SkipFlags, Carries, Run, IntensityOps, DualOps, SkipBound, SkipState, Flagged;
    CarriesConcat(buf, sp, SkipFlags(f, a.coded) + IntensityOps(f, a), DualOps(f, a));
    CarriesConcat(buf, sp, SkipFlags(f, a.coded), IntensityOps(f, a));
    RunConcat(sp, SkipFlags(f, a.coded), IntensityOps(f, a));
  }
}
