/** How the encoder judges the loss of a frame: the distance between new and old energies,
    and the memory of it that decides between intra and inter. */
module Distortion {
  import opened Arith
  import opened Energy

  /** A 32-bit register. */
  function ToInt32(x: int): int { (x + 0x8000_0000) % 0x1_0000_0000 - 0x8000_0000 }

  /** One band's difference in units of 2^-7 steps, as the 16-bit factor of a product. */
  function Difference(x: int, was: int): int {
    ToInt16((ToInt32(x - was) + 0x1_0000) / 0x2_0000)
  }

  function Squares(x: seq<int>, was: seq<int>, lo: nat, hi: nat): (s: nat)
    requires hi <= |x| && hi <= |was|
    decreases hi
  {
    if lo >= hi then 0
    else
      var d := Difference(x[hi - 1], was[hi - 1]);
      SquareSign(d);
      Squares(x, was, lo, hi - 1) + d * d
  }

  /** The squared distance over all channels. */
  function Distance(x: seq<int>, was: seq<int>, start: nat, end: nat, nb: nat, C: nat): (s: nat)
    requires start <= end <= nb && 1 <= C <= 2 && C * nb <= |x| && C * nb <= |was|
  {
    Squares(x, was, start, end) + if C == 2 then Squares(x, was, nb + start, nb + end) else 0
  }

  /** loss_distortion: capped, if the sum stays in its register. */
  function Loss(x: seq<int>, was: seq<int>, start: nat, end: nat, nb: nat, C: nat): int
    requires start <= end <= nb && 1 <= C <= 2 && C * nb <= |x| && C * nb <= |was|
  {
    Min(200, ToInt32(Distance(x, was, start, end, nb, C)) / 0x4000)
  }

  lemma WrapAdds(a: int, b: int)
    ensures ToInt32(ToInt32(a) + b) == ToInt32(a + b)
  {
    var m := 0x1_0000_0000;
    var q, r := (a + 0x8000_0000) / m, (a + 0x8000_0000) % m;
    var q', r' := (r + b) / m, (r + b) % m;
    assert ToInt32(a) + b + 0x8000_0000 == r + b == q' * m + r';
    assert a + b + 0x8000_0000 == (q + q') * m + r';
    DivUnique(r + b, m, q', r');
    DivUnique(a + b + 0x8000_0000, m, q + q', r');
  }

  /** One channel's bands, added to what is in the register. */
  method AddSquares(x: array<int>, was: array<int>, lo: nat, hi: nat, dist0: int, ghost sum: int) returns (dist: int)
    requires lo <= hi <= x.Length && hi <= was.Length && dist0 == ToInt32(sum)
    ensures dist == ToInt32(sum + Squares(x[..], was[..], lo, hi))
  {
    hide ToInt32, Difference;
    dist := dist0;
    for i := lo to hi
      invariant dist == ToInt32(sum + Squares(x[..], was[..], lo, i))
    {
      var d := Difference(x[i], was[i]);
      WrapAdds(sum + Squares(x[..], was[..], lo, i), d * d);
      dist := ToInt32(dist + d * d);
    }
  }

  /** loss_distortion */
  method LossDistortion(eBands: array<int>, oldEBands: array<int>, start: nat, end: nat, nb: nat, C: nat)
    returns (dist: int)
    requires start <= end <= nb && 1 <= C <= 2 && C * nb <= eBands.Length && C * nb <= oldEBands.Length
    ensures dist == Loss(eBands[..], oldEBands[..], start, end, nb, C)
  {
    hide Squares;
    ghost var first := Squares(eBands[..], oldEBands[..], start, end);
    dist := AddSquares(eBands, oldEBands, start, end, 0, 0);
    if C == 2 {
      dist := AddSquares(eBands, oldEBands, nb + start, nb + end, dist, first);
    }
    dist := Min(200, dist / 0x4000);
  }

  /** Energies no further apart than this in any band keep the sum in its register. */
  const NEAR: int := 55 * UNIT

  predicate Close(x: seq<int>, was: seq<int>, lo: nat, hi: nat)
    requires hi <= |x| && hi <= |was|
  {
    forall j :: lo <= j < hi ==> -NEAR <= x[j] - was[j] <= NEAR
  }

  lemma DifferenceBound(x: int, was: int)
    requires -NEAR <= x - was <= NEAR
    ensures Difference(x, was) * Difference(x, was) <= 7040 * 7040
  {
    var d := Difference(x, was);
    assert -7040 <= d <= 7040;
    if d >= 0 { MulMono(d, 7040, d); MulMono(d, 7040, 7040); }
    else { MulMono(-d, 7040, -d); MulMono(-d, 7040, 7040); assert -d * -d == d * d; }
  }

  lemma {:induction false} SquaresBound(x: seq<int>, was: seq<int>, lo: nat, hi: nat)
    requires lo <= hi <= |x| && hi <= |was| && Close(x, was, lo, hi)
    ensures Squares(x, was, lo, hi) <= (hi - lo) * (7040 * 7040)
    decreases hi
  {
    hide Difference;
    if lo < hi {
      SquaresBound(x, was, lo, hi - 1);
      DifferenceBound(x[hi - 1], was[hi - 1]);
    }
  }

  /** For up to 21 bands of close energies the distortion is between 0 and 200. */
  lemma LossRange(x: seq<int>, was: seq<int>, start: nat, end: nat, nb: nat, C: nat)
    requires start <= end <= nb && end - start <= 21 && 1 <= C <= 2 && C * nb <= |x| && C * nb <= |was|
    requires Close(x, was, start, end) && (C == 2 ==> Close(x, was, nb + start, nb + end))
    ensures 0 <= Loss(x, was, start, end, nb, C) <= 200
  {
    hide Squares, Close;
    SquaresBound(x, was, start, end);
    if C == 2 { SquaresBound(x, was, nb + start, nb + end); }
  }

  /** One band that moved by whole steps counts their square; one that stayed counts nothing. */
  lemma OneBandLoss(x: seq<int>, was: seq<int>, j: nat, nb: nat, d: int)
    requires j < nb <= |x| && nb <= |was| && x[j] - was[j] == d * UNIT && -55 <= d <= 55
    ensures Loss(x, was, j, j + 1, nb, 1) == Min(200, d * d)
  {
    hide Squares, Difference, ToInt32;
    OneDifference(x[j], was[j], d);
    OneSquare(x, was, j);
    SmallSquare(d);
  }

  lemma OneDifference(x: int, was: int, d: int)
    requires x - was == d * UNIT && -55 <= d <= 55
    ensures Difference(x, was) == 128 * d
  {
  }

  lemma OneSquare(x: seq<int>, was: seq<int>, j: nat)
    requires j < |x| && j < |was|
    ensures Squares(x, was, j, j + 1) == Difference(x[j], was[j]) * Difference(x[j], was[j])
  {
    hide Difference;
    assert Squares(x, was, j, j) == 0;
  }

  lemma SmallSquare(d: int)
    requires -55 <= d <= 55
    ensures 128 * d * (128 * d) == 0x4000 * (d * d) && d * d >= 0
    ensures ToInt32(0x4000 * (d * d)) == 0x4000 * (d * d) && 0x4000 * (d * d) / 0x4000 == d * d
  {
    if d >= 0 { MulMono(d, 55, d); } else { MulMono(-d, 55, -d); assert -d * -d == d * d; }
    assert d * d <= 3025;
  }

  // ----------------------------------------------------- from frame to frame

  /** delayedIntra after a frame: the new distortion, on top of what inter prediction
      keeps of the old. */
  function Delayed(delayed: int, lm: nat, intra: bool, loss: int): int
    requires lm <= 3
  {
    if intra then loss else Mult15(Mult15(PRED_COEF[lm], PRED_COEF[lm]), delayed) + loss
  }

  const MOST_DELAYED: int := 1037

  lemma DelayedBound(delayed: int, lm: nat, intra: bool, loss: int)
    requires lm <= 3 && 0 <= delayed <= MOST_DELAYED && 0 <= loss <= 200
    ensures 0 <= Delayed(delayed, lm, intra, loss) <= MOST_DELAYED
  {
  }

  /** What one frame contributes. */
  datatype FrameLoss = FrameLoss(lm: nat, intra: bool, loss: int)

  predicate AllUsual(frames: seq<FrameLoss>) {
    forall i :: 0 <= i < |frames| ==> frames[i].lm <= 3 && 0 <= frames[i].loss <= 200
  }

  /** delayedIntra after these frames of a fresh encoder, which starts with one. */
  function DelayedAfter(frames: seq<FrameLoss>): int
    requires AllUsual(frames)
  {
    if |frames| == 0 then 1
    else
      var c := frames[|frames| - 1];
      Delayed(DelayedAfter(frames[..|frames| - 1]), c.lm, c.intra, c.loss)
  }

  /** However many frames pass, it stays below this. */
  lemma {:induction false} DelayedBounded(frames: seq<FrameLoss>)
    requires AllUsual(frames)
    ensures 0 <= DelayedAfter(frames) <= MOST_DELAYED
  {
    hide Delayed;
    if |frames| > 0 {
      var c := frames[|frames| - 1];
      DelayedBounded(frames[..|frames| - 1]);
      DelayedBound(DelayedAfter(frames[..|frames| - 1]), c.lm, c.intra, c.loss);
    }
  }

  /** intra_bias, in the eighths of a bit that ec_tell_frac counts; the product is unsigned
      and wraps. */
  function Bias(budget: nat, delayedIntra: int, lossRate: nat, C: nat): int
    requires C > 0
  {
    budget * delayedIntra * lossRate % 0x1_0000_0000 / (C * 512)
  }

  /** For the longest packet and any loss rate it does not wrap. */
  lemma BiasExact(budget: nat, delayedIntra: int, lossRate: nat, C: nat)
    requires budget <= 8 * 1275 && 0 <= delayedIntra <= MOST_DELAYED && lossRate <= 100 && C > 0
    ensures Bias(budget, delayedIntra, lossRate, C) == budget * delayedIntra * lossRate / (C * 512)
  {
    MulMono(budget, 8 * 1275, delayedIntra);
    MulMono(delayedIntra, MOST_DELAYED, 8 * 1275);
    MulMono(budget * delayedIntra, 8 * 1275 * MOST_DELAYED, lossRate);
    MulMono(lossRate, 100, 8 * 1275 * MOST_DELAYED);
    MulNat(budget, delayedIntra);
    MulNat(budget * delayedIntra, lossRate);
    DivUnique(budget * delayedIntra * lossRate, 0x1_0000_0000, 0, budget * delayedIntra * lossRate);
  }
}
