/** Why the Laplace tail fits: what the decaying part takes, bounded for ranges of decays
    and, from 15360 on, for all of them. */
module LaplaceTail {
  import opened Arith
  import opened Laplace

  /** What the decaying part still takes, from frequency f on. */
  function Rest(f: nat, decay: nat): (g: nat)
    requires decay < 0x4000
    decreases f
  {
    DecayShrinks(f, decay);
    if f == 0 then 0 else 2 * f + 2 + Rest(Decay(f, decay), decay)
  }

  lemma {:induction false} RestIs(fs0: nat, decay: nat, i: nat)
    requires Model(fs0, decay) && i >= 1
    ensures Base(fs0, decay, TailFrom(fs0, decay, i)) == Base(fs0, decay, i) + Rest(Freq(fs0, decay, i), decay)
    decreases Freq(fs0, decay, i)
  {
    hide Freq, Base, Decay;
    NextOf(fs0, decay, i);
    DecayShrinks(Freq(fs0, decay, i), decay);
    if Freq(fs0, decay, i) > 0 { RestIs(fs0, decay, i + 1); }
  }

  lemma DecayIs(f: nat, decay: nat)
    ensures Decay(f, decay) == 2 * f * decay / 0x8000
  {
  }

  lemma DecayMono(f: nat, decay: nat, g: nat, most: nat)
    requires f <= g && decay <= most
    ensures Decay(f, decay) <= Decay(g, most)
  {
    MulMono(decay, most, 2 * f);
    MulMono(2 * f, 2 * g, most);
    assert decay * (2 * f) == 2 * f * decay && most * (2 * f) == 2 * f * most;
    MulNat(2 * f, decay);
    DivMono(2 * f * decay, 2 * g * most, 0x8000);
  }

  /** More to begin with, or a slower decay, takes more. */
  lemma {:induction false} RestMono(f: nat, decay: nat, g: nat, most: nat)
    requires f <= g && decay <= most < 0x4000
    ensures Rest(f, decay) <= Rest(g, most)
    decreases g
  {
    hide Decay;
    if f > 0 {
      DecayShrinks(g, most);
      DecayMono(f, decay, g, most);
      RestMono(Decay(f, decay), decay, Decay(g, most), most);
    }
  }

  /** A frequency after n magnitudes. */
  function Fallen(f: int, decay: int, n: nat): int
    decreases n
  {
    if n == 0 then f else Fallen(2 * f * decay / 0x8000, decay, n - 1)
  }

  lemma Falls(f0: nat, f1: nat, decay: nat, n: nat)
    requires 2 * f0 * decay / 0x8000 == f1
    ensures Fallen(f0, decay, n + 1) == Fallen(f1, decay, n)
  {
  }

  lemma FallsFour(f0: nat, f1: nat, f2: nat, f3: nat, f4: nat, decay: nat, n: nat)
    requires 2 * f0 * decay / 0x8000 == f1 && 2 * f1 * decay / 0x8000 == f2
    requires 2 * f2 * decay / 0x8000 == f3 && 2 * f3 * decay / 0x8000 == f4
    ensures Fallen(f0, decay, n + 4) == Fallen(f4, decay, n)
  {
    hide Fallen;
    Falls(f0, f1, decay, n + 3);
    Falls(f1, f2, decay, n + 2);
    Falls(f2, f3, decay, n + 1);
    Falls(f3, f4, decay, n);
  }

  lemma FallsEight(f0: nat, f1: nat, f2: nat, f3: nat, f4: nat, f5: nat, f6: nat, f7: nat, f8: nat, decay: nat, n: nat)
    requires 2 * f0 * decay / 0x8000 == f1 && 2 * f1 * decay / 0x8000 == f2
    requires 2 * f2 * decay / 0x8000 == f3 && 2 * f3 * decay / 0x8000 == f4
    requires 2 * f4 * decay / 0x8000 == f5 && 2 * f5 * decay / 0x8000 == f6
    requires 2 * f6 * decay / 0x8000 == f7 && 2 * f7 * decay / 0x8000 == f8
    ensures Fallen(f0, decay, n + 8) == Fallen(f8, decay, n)
  {
    hide Fallen;
    FallsFour(f0, f1, f2, f3, f4, decay, n + 4);
    FallsFour(f4, f5, f6, f7, f8, decay, n);
  }

  lemma FallsNone(f: nat, decay: nat)
    ensures Fallen(f, decay, 0) == f
  {
  }

  lemma {:induction false} FreqFalls(fs0: nat, decay: nat, i: nat, f: nat, most: nat, n: nat)
    requires Model(fs0, decay) && i >= 1 && Freq(fs0, decay, i) <= f && decay <= most
    ensures Freq(fs0, decay, i + n) <= Fallen(f, most, n)
    decreases n
  {
    hide Freq, Decay;
    if n > 0 {
      NextOf(fs0, decay, i);
      DecayIs(f, most);
      DecayMono(Freq(fs0, decay, i), decay, f, most);
      FreqFalls(fs0, decay, i + 1, Decay(f, most), most, n - 1);
    }
  }

  /** `rest` says what frequency f still takes; that is not too much at the first
      magnitude, and from frequency w on not even after so many steps. */
  ghost predicate Tabled(rest: int -> int, f: int, least: nat, most: nat, w: nat, steps: nat) {
    && rest(f) == (if f == 0 then 0 else 2 * f + 2 + rest(2 * f * most / 0x8000))
    && (rest(f) - 30) * (0x4000 - least) <= 2 * f * 0x4000
    && (f >= w ==> (rest(f) + 2 * steps - 30) * (0x4000 - least) <= 2 * f * 0x4000)
  }

  lemma {:induction false} TabledRest(rest: int -> int, least: nat, most: nat, w: nat, steps: nat, n: nat, f: nat)
    requires f <= n && most < 0x4000 && forall g :: 0 <= g <= n ==> Tabled(rest, g, least, most, w, steps)
    ensures Rest(f, most) == rest(f)
  {
    hide Decay;
    assert Tabled(rest, f, least, most, w, steps);
    if f > 0 {
      DecayIs(f, most);
      DecayShrinks(f, most);
      TabledRest(rest, least, most, w, steps, n, Decay(f, most));
    }
  }

  /** Where magnitude i is reached the decaying part has taken at most its share; the
      tail fits if what it still takes is not too much more. */
  lemma PointFits(fs0: nat, decay: nat, least: nat, i: nat, g: int)
    requires Model(fs0, decay) && least <= decay && i >= 1 && Rest(Freq(fs0, decay, i), decay) <= g
    requires (g + 2 * i - 32) * (0x4000 - least) <= 2 * Freq(fs0, decay, i) * 0x4000
    ensures TailFits(fs0, decay)
  {
    hide Freq, Base, Decay, Rest;
    var f := Freq(fs0, decay, i);
    RestIs(fs0, decay, i);
    DecayingPart(fs0, decay, i);
    Together(Base(fs0, decay, i) - fs0 - 2 * (i - 1), g + 2 * i - 32, 0x4000 - decay, 0x4000 - least,
             2 * f * 0x4000, 32736 - fs0);
    SameTail(fs0, decay, i);
  }

  /** The first magnitude whose frequency is at most n, and how far it can have jumped. */
  lemma {:induction false} FirstWithin(fs0: nat, decay: nat, least: nat, n: nat, i: nat) returns (k: nat)
    requires Model(fs0, decay) && least <= decay && i >= 1 && Freq(fs0, decay, i) <= n
    ensures 1 <= k <= i && Freq(fs0, decay, k) <= n
    ensures k > 1 ==> Freq(fs0, decay, k) >= 2 * (n + 1) * least / 0x8000
  {
    hide Freq, Decay;
    if i == 1 {
      k := 1;
    } else if Freq(fs0, decay, i - 1) <= n {
      k := FirstWithin(fs0, decay, least, n, i - 1);
    } else {
      k := i;
      NextOf(fs0, decay, i - 1);
      DecayIs(n + 1, least);
      DecayMono(n + 1, least, Freq(fs0, decay, i - 1), decay);
    }
  }

  /** All decays of a range at once: few steps lead to a frequency of at most n, and from
      there on the table says that the tail fits. */
  lemma RangeFits(fs0: nat, decay: nat, least: nat, most: nat, n: nat, w: nat, steps: nat, rest: int -> int)
    requires Model(fs0, decay) && least <= decay <= most < 0x4000
    requires Fallen(32736 * (0x4000 - least) / 0x8000, most, steps) <= n
    requires w == 2 * (n + 1) * least / 0x8000
    requires forall f :: 0 <= f <= n ==> Tabled(rest, f, least, most, w, steps)
    ensures TailFits(fs0, decay)
  {
    hide Freq, Base, Decay, Rest, Fallen, TailFits;
    FirstBelow(fs0, decay, least);
    FreqFalls(fs0, decay, 1, 32736 * (0x4000 - least) / 0x8000, most, steps);
    var i := FirstWithin(fs0, decay, least, n, steps + 1);
    var f := Freq(fs0, decay, i);
    RestMono(f, decay, f, most);
    TabledRest(rest, least, most, w, steps, n, f);
    assert Tabled(rest, f, least, most, w, steps);
    if i > 1 { LessOf(rest(f) + 2 * i - 32, rest(f) + 2 * steps - 30, 0x4000 - least, 2 * f * 0x4000); }
    PointFits(fs0, decay, least, i, rest(f));
  }

  lemma LessOf(a: int, b: int, e: int, x: int)
    requires a <= b && e >= 0 && b * e <= x
    ensures a * e <= x
  {
    MulMono(a, b, e);
  }

  lemma FirstBelow(fs0: nat, decay: nat, least: nat)
    requires Model(fs0, decay) && least <= decay
    ensures Freq(fs0, decay, 1) <= 32736 * (0x4000 - least) / 0x8000
  {
    FirstOf(fs0, decay);
    MulMono(32736 - fs0, 32736, 0x4000 - decay);
    MulMono(0x4000 - decay, 0x4000 - least, 32736);
    DivMono((32736 - fs0) * (0x4000 - decay), 32736 * (0x4000 - least), 0x8000);
  }

  lemma Together(w: int, g: int, e: int, e': int, f: int, x: int)
    requires w * e + f <= x * e && 0 < e <= e' && g * e' <= f && 0 <= f
    ensures w + g <= x
  {
    if g > 0 { MulMono(e, e', g); }
    assert g * e <= f;
    assert (w + g) * e == w * e + g * e;
    CancelLe(w + g, x, e);
  }

  /** The tail begins at the same place seen from anywhere before it, or after. */
  lemma SameTail(fs0: nat, decay: nat, i: nat)
    requires Model(fs0, decay) && i >= 1
    ensures Base(fs0, decay, TailFrom(fs0, decay, 1)) <= Base(fs0, decay, TailFrom(fs0, decay, i))
  {
    hide Freq, Base, TailFrom;
    var k, k' := TailFrom(fs0, decay, 1), TailFrom(fs0, decay, i);
    BeforeTail(fs0, decay, k');
    if k < k' { BaseGrows(fs0, decay, k, k'); }
  }

  // ------------------------------------------------------------ slow decays

  /** With e = 2^14 - decay at most 2^10, m units of 2^14 / e: frequencies up to m fall by
      one at each step, larger ones halve within m + 1 steps. */
  predicate Slow(e: int, m: nat) { 0 < e <= 1024 && 16 <= m && m * e <= 0x4000 < (m + 1) * e }

  /** A frequency over k units falls by more than k. */
  lemma FallsBy(f: nat, decay: nat, k: int)
    requires decay < 0x4000 && f * (0x4000 - decay) > 0x4000 * k
    ensures Decay(f, decay) + k + 1 <= f
  {
    assert 2 * f * decay == 0x8000 * f - 2 * (f * (0x4000 - decay));
    DecayIs(f, decay);
    DivGe(2 * f * decay, 0x8000, f - k);
  }

  /** One within k + 1 units falls by no more than that. */
  lemma FallsLittle(f: nat, decay: nat, k: nat)
    requires decay < 0x4000 && f * (0x4000 - decay) <= 0x4000 * k
    ensures Decay(f, decay) + k >= f
  {
    assert 2 * f * decay == 0x8000 * f - 2 * (f * (0x4000 - decay));
    DecayIs(f, decay);
    DivGe(2 * f * decay, 0x8000, f - k);
  }

  /** The last unit is taken one by one. */
  lemma {:induction false} LastUnit(f: nat, decay: nat)
    requires decay < 0x4000 && f * (0x4000 - decay) <= 0x4000
    ensures Rest(f, decay) == f * (f + 3)
  {
    hide Decay;
    if f > 0 {
      MulNat(f - 1, 0x4000 - decay);
      assert (f - 1) * (0x4000 - decay) == f * (0x4000 - decay) - (0x4000 - decay);
      FallsBy(f, decay, 0);
      FallsLittle(f, decay, 1);
      LastUnit(f - 1, decay);
      assert f * (f + 3) == (f - 1) * (f + 2) + 2 * f + 2;
    }
  }

  /** How many steps lead to frequency m or less. */
  function Steps(f: nat, decay: nat, m: nat): nat
    requires decay < 0x4000
    decreases f
  {
    DecayShrinks(f, decay);
    if f <= m then 0 else 1 + Steps(Decay(f, decay), decay, m)
  }

  /** Each of them takes its share of the fall, and at most e more. */
  lemma {:induction false} StepsTake(f: nat, decay: nat, m: nat, b: int)
    requires decay < 0x4000 && f > m && (m + 1) * (0x4000 - decay) <= 0x8000
    requires forall g: nat :: m - 1 <= g <= m ==> 0x8000 * g - (0x4000 - decay) * Rest(g, decay) >= b
    ensures 0x8000 * f - (0x4000 - decay) * Rest(f, decay) >= b - 2 * (0x4000 - decay) * Steps(f, decay, m)
    decreases f
  {
    var e, g := 0x4000 - decay, Decay(f, decay);
    DecayShrinks(f, decay);
    assert Rest(f, decay) == 2 * f + 2 + Rest(g, decay) && Steps(f, decay, m) == 1 + Steps(g, decay, m);
    hide Decay, Rest, Steps;
    FallShare(f, decay);
    if g > m {
      StepsTake(g, decay, m, b);
    } else {
      FallsLittle(m + 1, decay, 2);
      DecayMono(m + 1, decay, f, decay);
      StepsNone(g, decay, m);
    }
    StepShare(f, g, e, Rest(g, decay), Steps(g, decay, m), b);
  }

  lemma StepsNone(f: nat, decay: nat, m: nat)
    requires decay < 0x4000 && f <= m
    ensures Steps(f, decay, m) == 0
  {
  }

  lemma StepShare(f: int, g: int, e: int, rest: int, steps: int, b: int)
    requires 0x4000 * (f - g) >= f * e && 0x8000 * g - e * rest >= b - 2 * e * steps
    ensures 0x8000 * f - e * (2 * f + 2 + rest) >= b - 2 * e * (1 + steps)
  {
    assert e * (2 * f + 2 + rest) == 2 * (f * e) + 2 * e + e * rest;
    assert 2 * e * (1 + steps) == 2 * e + 2 * e * steps;
  }

  /** 2^14 times the fall is at least e times the frequency. */
  lemma FallShare(f: nat, decay: nat)
    requires decay < 0x4000
    ensures 0x4000 * (f - Decay(f, decay)) >= f * (0x4000 - decay)
  {
    DecayIs(f, decay);
    assert 2 * f * decay == 0x8000 * f - 2 * (f * (0x4000 - decay));
    DivGe(2 * f * decay, 0x8000, Decay(f, decay));
  }

  /** From above x down to it, t steps of at least q. */
  lemma {:induction false} StepsDown(f: nat, decay: nat, m: nat, x: nat, q: nat, t: nat, s: nat)
    requires decay < 0x4000 && m <= x && 0x4000 * q <= x * (0x4000 - decay) + 0x4000 && q >= 1
    requires forall g: nat :: g <= x ==> Steps(g, decay, m) <= s
    requires f <= x + t * q
    ensures Steps(f, decay, m) <= t + s
    decreases f
  {
    hide Decay;
    if f > x && f > m {
      var g := Decay(f, decay);
      MulMono(x + 1, f, 0x4000 - decay);
      assert (x + 1) * (0x4000 - decay) == x * (0x4000 - decay) + (0x4000 - decay);
      FallsBy(f, decay, q - 1);
      DecayShrinks(f, decay);
      if t == 0 { assert false; }
      assert (t - 1) * q == t * q - q;
      StepsDown(g, decay, m, x, q, t - 1, s);
    } else if f > m {
      assert f <= x;
    }
  }

  /** Frequencies up to 2^k m take at most k (m + 1) steps. */
  lemma {:induction false} Halves(f: nat, decay: nat, m: nat, k: nat)
    requires decay < 0x4000 && Slow(0x4000 - decay, m) && f <= Pow2(k) * m
    ensures Steps(f, decay, m) <= k * (m + 1)
    decreases k
  {
    hide Pow2, Decay;
    if k == 0 {
      PowZero();
    } else {
      PowDouble(k - 1);
      var e, p := 0x4000 - decay, Pow2(k - 1);
      var x := p * m;
      assert Pow2(k) * m == 2 * x;
      MulMono(1, p, m);
      MulNat(x, e);
      var q: nat := x * e / 0x4000 + 1;
      HalvesCover(x, e, m, q);
      forall g: nat | g <= x ensures Steps(g, decay, m) <= (k - 1) * (m + 1) { Halves(g, decay, m, k - 1); }
      StepsDown(f, decay, m, x, q, m + 1, (k - 1) * (m + 1));
      assert k * (m + 1) == (k - 1) * (m + 1) + (m + 1);
    }
  }

  lemma HalvesCover(x: nat, e: nat, m: nat, q: nat)
    requires (m + 1) * e > 0x4000 && q == x * e / 0x4000 + 1
    ensures x <= (m + 1) * q && 0x4000 * q <= x * e + 0x4000
  {
    MulMono(x * e, 0x4000 * q, m + 1);
    MulMono(0x4000, (m + 1) * e, x);
    assert x * e * (m + 1) == (m + 1) * e * x && 0x4000 * q * (m + 1) == 0x4000 * ((m + 1) * q);
  }

  /** In the last unit the share is larger than what is taken. */
  lemma LastShare(g: nat, e: int, m: nat)
    requires Slow(e, m) && m - 1 <= g <= m
    ensures g * e <= 0x4000 && 0x8000 * g - e * (g * (g + 3)) >= e * (12 * m - 18)
  {
    MulMono(g, m, e);
    MulMono(2 * (m * e), 0x8000, g);
    assert 2 * (m * e) * g == e * (2 * m * g) && e * (2 * m * g) - e * (g * (g + 3)) == e * (g * (2 * m - g - 3));
    Quadratic(g, m);
    MulMono(12 * m - 18, g * (2 * m - g - 3), e);
    assert (12 * m - 18) * e == e * (12 * m - 18) && g * (2 * m - g - 3) * e == e * (g * (2 * m - g - 3));
  }

  lemma Quadratic(g: int, m: int)
    requires m >= 16 && m - 1 <= g <= m
    ensures g * (2 * m - g - 3) >= 12 * m - 18
  {
    assert m * m >= 16 * m;
    if g == m {
      assert g * (2 * m - g - 3) == m * m - 3 * m;
    } else {
      assert g * (2 * m - g - 3) == (m - 1) * (m - 2) == m * m - 3 * m + 2;
    }
  }

  lemma UnitsOf(e: int) returns (m: nat)
    requires 0 < e <= 1024
    ensures Slow(e, m)
  {
    DivGe(0x4000, e, 16);
    m := 0x4000 / e;
    DivGe(0x4000, e, m);
    DivGe(0x4000, e, m + 1);
  }

  lemma SlowBelow(f: nat, decay: nat, m: nat)
    requires decay < 0x4000 && Slow(0x4000 - decay, m) && f <= m
    ensures (Rest(f, decay) - 30) * (0x4000 - decay) <= 0x8000 * f
  {
    hide Rest;
    MulMono(f, m, 0x4000 - decay);
    LastUnit(f, decay);
    FewTake(f, 0x4000 - decay);
  }

  lemma SlowAbove(f: nat, decay: nat, m: nat)
    requires decay < 0x4000 && Slow(0x4000 - decay, m) && m < f <= 1024
    ensures (Rest(f, decay) - 30) * (0x4000 - decay) <= 0x8000 * f
  {
    hide Rest, Steps, Pow2;
    var e := 0x4000 - decay;
    var b := e * (12 * m - 18);
    forall g: nat | m - 1 <= g <= m ensures 0x8000 * g - e * Rest(g, decay) >= b {
      LastShare(g, e, m);
      LastUnit(g, decay);
    }
    assert (m + 1) * e == m * e + e;
    StepsTake(f, decay, m, b);
    Sixty(m);
    Halves(f, decay, m, 6);
    Enough(Rest(f, decay), Steps(f, decay, m), e, m, 0x8000 * f);
  }

  lemma Enough(rest: int, steps: int, e: int, m: int, x: int)
    requires e > 0 && steps <= 6 * (m + 1) && x - e * rest >= e * (12 * m - 18) - 2 * e * steps
    ensures (rest - 30) * e <= x
  {
    MulMono(steps, 6 * (m + 1), 2 * e);
    assert e * (12 * m - 18) - 6 * (m + 1) * (2 * e) == -30 * e && steps * (2 * e) == 2 * e * steps;
    assert (rest - 30) * e == e * rest - 30 * e;
  }

  /** The slowest decays. */
  lemma SlowFits(fs0: nat, decay: nat)
    requires Model(fs0, decay) && decay >= 15360
    ensures TailFits(fs0, decay)
  {
    hide Freq, Base, Decay, Rest, TailFits;
    var m := UnitsOf(0x4000 - decay);
    var f := Freq(fs0, decay, 1);
    FirstBelow(fs0, decay, decay);
    if f > m { SlowAbove(f, decay, m); } else { SlowBelow(f, decay, m); }
    PointFits(fs0, decay, decay, 1, Rest(f, decay));
  }

  lemma Sixty(m: nat)
    requires m >= 16
    ensures Pow2(6) * m >= 1024
  {
    assert Pow2(6) == 64;
  }

  lemma FewTake(f: nat, e: int)
    requires 0 < e <= 1024 && f * e <= 0x4000
    ensures (f * (f + 3) - 30) * e <= 0x8000 * f
  {
    assert f * (f + 3) * e == f * (f * e) + 3 * e * f;
    MulMono(f * e, 0x4000, f);
    MulMono(3 * e, 3072, f);
    assert (f * (f + 3) - 30) * e == f * (f + 3) * e - 30 * e;
  }
}
