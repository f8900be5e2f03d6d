/** The Laplace model: a peak, a geometrically decaying part and a flat tail share
    [0, 32768), negative values below positive ones of the same magnitude. */
module Laplace {
  import opened Arith
  import opened Interval

  const FT: nat := 0x8000

  /** What the caller may ask for. */
  predicate Model(fs0: nat, decay: nat) { fs0 <= 32736 && 0 < decay < 0x4000 }

  /** Decaying frequency of magnitude i, the guaranteed one not counted. */
  function Freq(fs0: nat, decay: nat, i: nat): (f: nat)
    requires Model(fs0, decay) && i >= 1
  {
    if i == 1 then FirstFreq(fs0, decay) else Decay(Freq(fs0, decay, i - 1), decay)
  }

  /** ec_laplace_get_freq1 */
  function FirstFreq(fs0: nat, decay: nat): (f: nat)
    requires Model(fs0, decay)
  {
    MulNat(32736 - fs0, 0x4000 - decay);
    (32736 - fs0) * (0x4000 - decay) / FT
  }

  function Decay(f: nat, decay: nat): (r: nat) {
    MulNat(2 * f, decay);
    2 * f * decay / FT
  }

  /** Where the intervals of magnitude i begin. */
  function Base(fs0: nat, decay: nat, i: nat): (b: nat)
    requires Model(fs0, decay) && i >= 1
  {
    if i == 1 then fs0 else Base(fs0, decay, i - 1) + 2 * Freq(fs0, decay, i - 1) + 2
  }

  lemma DecayShrinks(f: nat, decay: nat)
    requires decay < 0x4000
    ensures f > 0 ==> Decay(f, decay) < f
    ensures f == 0 ==> Decay(f, decay) == 0
    ensures Decay(f, decay) * FT <= 2 * f * decay
  {
    if f > 0 {
      MulMono(decay, 0x3FFF, 2 * f);
      assert decay * (2 * f) == 2 * f * decay;
      DivGe(2 * f * decay, FT, f);
    }
  }

  lemma DecayedShare(w: int, f: int, f': int, e: int, d: int, most: int)
    requires e + d == 0x4000 && f' * FT <= 2 * f * d && w * e + 2 * f * 0x4000 <= most
    ensures (w + 2 * f) * e + 2 * f' * 0x4000 <= most
  {
    assert (w + 2 * f) * e == w * e + 2 * f * e;
    assert 2 * f * e + 2 * f * d == 2 * f * 0x4000;
  }

  /** The decaying part never takes more than the peak leaves. */
  lemma {:induction false} DecayingPart(fs0: nat, decay: nat, i: nat)
    requires Model(fs0, decay) && i >= 1
    ensures var e := 0x4000 - decay;
      (Base(fs0, decay, i) - fs0 - 2 * (i - 1)) * e + 2 * Freq(fs0, decay, i) * 0x4000 <= (32736 - fs0) * e
  {
    if i > 1 {
      DecayingPart(fs0, decay, i - 1);
      hide Decay;
      var f := Freq(fs0, decay, i - 1);
      DecayShrinks(f, decay);
      DecayedShare(Base(fs0, decay, i - 1) - fs0 - 2 * (i - 2), f, Freq(fs0, decay, i), 0x4000 - decay, decay,
                   (32736 - fs0) * (0x4000 - decay));
    }
  }

  lemma CancelLe(a: int, b: int, c: int)
    requires a * c <= b * c && c > 0
    ensures a <= b
  {
    assert (b + 1) * c == b * c + c;
    MulCancel(a, b + 1, c);
  }

  /** So sixteen magnitudes always fit, whatever the model. */
  lemma BaseBound(fs0: nat, decay: nat, i: nat)
    requires Model(fs0, decay) && i >= 1
    ensures Base(fs0, decay, i) <= 32736 + 2 * (i - 1)
  {
    hide Base, Freq;
    DecayingPart(fs0, decay, i);
    MulNat(Freq(fs0, decay, i), 0x4000);
    CancelLe(Base(fs0, decay, i) - fs0 - 2 * (i - 1), 32736 - fs0, 0x4000 - decay);
  }

  /** And it leaves almost nothing: frequencies fall by the factor decay / 16384 from one that
      makes the sum over all magnitudes and both signs what the peak leaves, up to one part
      of rounding a magnitude. */
  lemma {:induction false} DecayingShare(fs0: nat, decay: nat, i: nat)
    requires Model(fs0, decay) && i >= 1
    ensures var e := 0x4000 - decay;
      (32736 - fs0) * e < (Base(fs0, decay, i) - fs0 - 2 * (i - 1)) * e + 2 * Freq(fs0, decay, i) * 0x4000 + i * FT
    ensures var f, f' := Freq(fs0, decay, i), Freq(fs0, decay, i + 1);
      0x4000 * f' <= f * decay < 0x4000 * (f' + 1)
  {
    DecayFloor(Freq(fs0, decay, i), decay);
    NextOf(fs0, decay, i);
    if i > 1 {
      DecayingShare(fs0, decay, i - 1);
      NextOf(fs0, decay, i - 1);
      DecayFloor(Freq(fs0, decay, i - 1), decay);
      hide *;
      ShareLeft(Base(fs0, decay, i - 1) - fs0 - 2 * (i - 2), Freq(fs0, decay, i - 1), Freq(fs0, decay, i), decay, i,
                (32736 - fs0) * (0x4000 - decay));
    } else {
      FirstFloor(fs0, decay);
    }
  }

  lemma FirstFloor(fs0: nat, decay: nat)
    requires Model(fs0, decay)
    ensures Base(fs0, decay, 1) == fs0 && (32736 - fs0) * (0x4000 - decay) < FT * (Freq(fs0, decay, 1) + 1)
  {
    assert Freq(fs0, decay, 1) == FirstFreq(fs0, decay);
  }

  lemma DecayFloor(f: nat, decay: nat)
    ensures 0x4000 * Decay(f, decay) <= f * decay < 0x4000 * (Decay(f, decay) + 1)
  {
    assert 2 * f * decay == 2 * (f * decay);
  }

  lemma ShareLeft(w: int, f: nat, f': nat, decay: nat, i: nat, most: int)
    requires f * decay < 0x4000 * (f' + 1) && i >= 1
    requires most < w * (0x4000 - decay) + 2 * f * 0x4000 + (i - 1) * FT
    ensures most < (w + 2 * f) * (0x4000 - decay) + 2 * f' * 0x4000 + i * FT
  {
    var e := 0x4000 - decay;
    assert (w + 2 * f) * e == w * e + 2 * (f * e);
    assert f * e == 0x4000 * f - f * decay;
  }

  lemma {:induction false} BaseGrows(fs0: nat, decay: nat, i: nat, j: nat)
    requires Model(fs0, decay) && 1 <= i < j
    ensures Base(fs0, decay, i) + 2 * Freq(fs0, decay, i) + 2 <= Base(fs0, decay, j)
    decreases j
  {
    hide Decay;
    if i < j - 1 { BaseGrows(fs0, decay, i, j - 1); }
  }

  /** Once the decaying part has ended it stays ended. */
  lemma {:induction false} Flat(fs0: nat, decay: nat, k: nat, i: nat)
    requires Model(fs0, decay) && 1 <= k <= i && Freq(fs0, decay, k) == 0
    ensures Freq(fs0, decay, i) == 0 && Base(fs0, decay, i) == Base(fs0, decay, k) + 2 * (i - k)
    decreases i
  {
    if k < i {
      Flat(fs0, decay, k, i - 1);
      DecayShrinks(0, decay);
    }
  }

  /** The first magnitude of the flat tail. */
  function TailFrom(fs0: nat, decay: nat, i: nat): (k: nat)
    requires Model(fs0, decay) && i >= 1
    ensures k >= i && Freq(fs0, decay, k) == 0
    decreases Freq(fs0, decay, i)
  {
    if Freq(fs0, decay, i) == 0 then i
    else
      DecayShrinks(Freq(fs0, decay, i), decay);
      TailFrom(fs0, decay, i + 1)
  }

  lemma {:induction false} TailFirst(fs0: nat, decay: nat, i: nat, k: nat)
    requires Model(fs0, decay) && 1 <= i <= k && Freq(fs0, decay, k) == 0
    requires forall j :: i <= j < k ==> Freq(fs0, decay, j) > 0
    ensures TailFrom(fs0, decay, i) == k
    decreases k - i
  {
    hide Freq;
    if i < k { TailFirst(fs0, decay, i + 1, k); }
  }

  // ----------------------------------------------------------- the intervals

  function Low(fs0: nat, decay: nat, v: int): nat
    requires Model(fs0, decay)
  {
    if v == 0 then 0
    else if v < 0 then Base(fs0, decay, -v)
    else Base(fs0, decay, v) + Freq(fs0, decay, v) + 1
  }

  function High(fs0: nat, decay: nat, v: int): nat
    requires Model(fs0, decay)
  {
    if v == 0 then fs0
    else Min(Low(fs0, decay, v) + Freq(fs0, decay, Abs(v)) + 1, FT)
  }

  /** The value has an interval of its own. */
  predicate Codable(fs0: nat, decay: nat, v: int)
    requires Model(fs0, decay)
  {
    Low(fs0, decay, v) < FT && (v == 0 ==> fs0 > 0)
  }

  function LaplaceOp(fs0: nat, decay: nat, v: int): (op: Op)
    requires Model(fs0, decay) && Codable(fs0, decay, v)
    ensures op.Sym? && Legal(op) && op.ft == FT
  {
    hide Freq, Base;
    Sym(Low(fs0, decay, v) == 0, Low(fs0, decay, v), High(fs0, decay, v), FT)
  }

  /** Every value of magnitude up to sixteen is codable. */
  lemma SixteenCodable(fs0: nat, decay: nat, v: int)
    requires Model(fs0, decay) && -16 <= v <= 16 && (v == 0 ==> fs0 > 0)
    ensures Codable(fs0, decay, v)
  {
    hide Freq, Base;
    if v != 0 {
      BaseBound(fs0, decay, 17);
      BaseGrows(fs0, decay, Abs(v), 17);
    }
  }

  lemma BaseAfterPeak(fs0: nat, decay: nat, i: nat)
    requires Model(fs0, decay) && i >= 1
    ensures Base(fs0, decay, i) >= fs0
  {
    if i > 1 {
      BaseGrows(fs0, decay, 1, i);
      BaseOne(fs0, decay);
    }
  }

  lemma BaseOne(fs0: nat, decay: nat)
    requires Model(fs0, decay)
    ensures Base(fs0, decay, 1) == fs0
  {
  }

  /** Intervals of different values are disjoint, in this order: zero, then each
      magnitude, negative first. */
  lemma Disjoint(fs0: nat, decay: nat, v: int, w: int)
    requires Model(fs0, decay) && Codable(fs0, decay, v) && Codable(fs0, decay, w)
    requires Abs(v) < Abs(w) || (v < 0 && w == -v)
    ensures High(fs0, decay, v) <= Low(fs0, decay, w)
  {
    hide Freq, Base;
    if v == 0 {
      BaseAfterPeak(fs0, decay, Abs(w));
    } else if Abs(v) < Abs(w) {
      BaseGrows(fs0, decay, Abs(v), Abs(w));
    }
  }

  /** A magnitude's two signs have equal parts and stand side by side, unless the line ends
      between them. */
  lemma SignsAlike(fs0: nat, decay: nat, i: int)
    requires Model(fs0, decay) && i >= 1 && Codable(fs0, decay, i)
    ensures Codable(fs0, decay, -i) && High(fs0, decay, -i) == Low(fs0, decay, i)
    ensures High(fs0, decay, i) == Min(FT, Low(fs0, decay, i) + High(fs0, decay, -i) - Low(fs0, decay, -i))
    ensures High(fs0, decay, i) == Min(FT, Base(fs0, decay, i + 1))
  {
    NextOf(fs0, decay, i);
    hide Freq, Base;
  }

  lemma LaplaceLess(buf: seq<byte>, sp: Span, fs0: nat, decay: nat, v: int, w: int)
    requires Proper(sp) && Model(fs0, decay) && Codable(fs0, decay, v) && Codable(fs0, decay, w)
    requires Abs(v) < Abs(w) || (v < 0 && w == -v)
    ensures !(ReadsOp(buf, sp, LaplaceOp(fs0, decay, v)) && ReadsOp(buf, sp, LaplaceOp(fs0, decay, w)))
  {
    Disjoint(fs0, decay, v, w);
    hide Freq, Base, Low, High, ReadsOp;
    ReadOnce(buf, sp, LaplaceOp(fs0, decay, v), LaplaceOp(fs0, decay, w));
  }

  /** A packet holds one value. */
  lemma LaplaceOnce(buf: seq<byte>, sp: Span, fs0: nat, decay: nat, v: int, w: int)
    requires Proper(sp) && Model(fs0, decay) && Codable(fs0, decay, v) && Codable(fs0, decay, w)
    requires ReadsOp(buf, sp, LaplaceOp(fs0, decay, v)) && ReadsOp(buf, sp, LaplaceOp(fs0, decay, w))
    ensures v == w
  {
    hide *;
    hide Abs;
    if v != w {
      if Abs(v) < Abs(w) || (v < 0 && w == -v) {
        LaplaceLess(buf, sp, fs0, decay, v, w);
      } else {
        Ordered(v, w);
        LaplaceLess(buf, sp, fs0, decay, w, v);
      }
    }
  }

  lemma Ordered(v: int, w: int)
    requires v != w && !(Abs(v) < Abs(w) || (v < 0 && w == -v))
    ensures Abs(w) < Abs(v) || (w < 0 && v == -w)
  {
  }

  // ------------------------------------------------------- the tail and the ends

  /** The flat tail starts low enough for both signs of its first magnitude. */
  predicate TailFits(fs0: nat, decay: nat)
    requires Model(fs0, decay)
  {
    Base(fs0, decay, TailFrom(fs0, decay, 1)) <= FT - 2
  }

  lemma {:induction false} TailAfter(fs0: nat, decay: nat, i: nat, k: nat)
    requires Model(fs0, decay) && 1 <= i <= k && Freq(fs0, decay, k) == 0
    ensures TailFrom(fs0, decay, i) <= k
    decreases k - i
  {
    hide Freq;
    if Freq(fs0, decay, i) > 0 {
      TailAfter(fs0, decay, i + 1, k);
    }
  }

  /** What a value too far out becomes: the last codable one on its side. */
  predicate Clamped(fs0: nat, decay: nat, v: int, c: int)
    requires Model(fs0, decay)
  {
    && Codable(fs0, decay, c)
    && (c == v || (v > c > 0 && !Codable(fs0, decay, c + 1)) || (v < c < 0 && !Codable(fs0, decay, c - 1)))
  }

  /** Moving further out never comes back into range. */
  lemma NotBeyond(fs0: nat, decay: nat, i: int, j: int)
    requires Model(fs0, decay) && (0 < i <= j || j <= i < 0) && !Codable(fs0, decay, i)
    ensures !Codable(fs0, decay, j)
  {
    hide Freq, Base;
    if i != j { BaseGrows(fs0, decay, Abs(i), Abs(j)); }
  }

  /** Hence a codable value is coded as itself. */
  lemma ClampedSame(fs0: nat, decay: nat, v: int, c: int)
    requires Model(fs0, decay) && Clamped(fs0, decay, v, c) && Codable(fs0, decay, v)
    ensures c == v
  {
    hide Codable;
    if v > c > 0 { NotBeyond(fs0, decay, c + 1, v); }
    if v < c < 0 { NotBeyond(fs0, decay, c - 1, v); }
  }

  lemma FirstOf(fs0: nat, decay: nat)
    requires Model(fs0, decay)
    ensures Base(fs0, decay, 1) == fs0 && Freq(fs0, decay, 1) == FirstFreq(fs0, decay)
  {
  }

  lemma NextOf(fs0: nat, decay: nat, i: nat)
    requires Model(fs0, decay) && i >= 1
    ensures Freq(fs0, decay, i + 1) == Decay(Freq(fs0, decay, i), decay)
    ensures Base(fs0, decay, i + 1) == Base(fs0, decay, i) + (2 * Freq(fs0, decay, i) + 2)
  {
    hide Decay;
  }

  lemma OneCodable(fs0: nat, decay: nat, v: int)
    requires Model(fs0, decay) && (v == 0 ==> fs0 > 0)
    ensures Abs(v) <= 1 ==> Codable(fs0, decay, v)
  {
    hide Codable;
    if Abs(v) <= 1 { SixteenCodable(fs0, decay, v); }
  }

  /** A codable value nearest to v on its side of zero. */
  function Nearest(fs0: nat, decay: nat, v: int): (c: int)
    requires Model(fs0, decay) && (v == 0 ==> fs0 > 0)
    ensures Clamped(fs0, decay, v, c)
    decreases Abs(v)
  {
    hide Codable;
    if Codable(fs0, decay, v) then v
    else
      OneCodable(fs0, decay, v);
      Nearest(fs0, decay, if v > 0 then v - 1 else v + 1)
  }

  /** There is no other. */
  lemma ClampedOnce(fs0: nat, decay: nat, v: int, c: int, d: int)
    requires Model(fs0, decay) && Clamped(fs0, decay, v, c) && Clamped(fs0, decay, v, d)
    ensures c == d
  {
    hide Codable;
    if v > 0 {
      if c < d { NotBeyond(fs0, decay, c + 1, d); }
      if d < c { NotBeyond(fs0, decay, d + 1, c); }
    } else if v < 0 {
      if c > d { NotBeyond(fs0, decay, c - 1, d); }
      if d > c { NotBeyond(fs0, decay, d - 1, c); }
    }
  }

  lemma BeforeTail(fs0: nat, decay: nat, m: nat)
    requires Model(fs0, decay) && m >= 1
    ensures Freq(fs0, decay, m) > 0 <==> m < TailFrom(fs0, decay, 1)
  {
    hide Freq, Base;
    var k := TailFrom(fs0, decay, 1);
    if k <= m {
      Flat(fs0, decay, k, m);
    } else if Freq(fs0, decay, m) == 0 {
      TailAfter(fs0, decay, 1, m);
    }
  }
}
