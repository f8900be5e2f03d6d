/** What the allocator's own side information takes of the stream: never more than the
    ledger set aside for it. */
module AllocCost {
  import opened Arith
  import opened Interval
  import opened TellFrac
  import Rate
  import Alloc

  /** f eighths more than cover n equal parts of a range that starts at b eighths. */
  predicate Covers(f: nat, n: nat, b: nat)
    requires f <= 64 && b < 8
  {
    Threshold(b) * 256 >= n * LeastRange(64 + b - f)
  }

  /** The entries of the table, each for the largest count that has it. */
  predicate TableEntry(f: nat, n: nat) {
    || (f == 0 && n == 1) || (f == 8 && n == 2) || (f == 13 && n == 3) || (f == 16 && n == 4) || (f == 19 && n == 5)
    || (f == 21 && n == 6) || (f == 23 && n == 7) || (f == 24 && n == 8) || (f == 26 && n == 9) || (f == 27 && n == 10)
    || (f == 28 && n == 11) || (f == 29 && n == 12) || (f == 30 && n == 13) || (f == 31 && n == 14)
    || (f == 32 && n == 16) || (f == 33 && n == 17) || (f == 34 && n == 19) || (f == 35 && n == 20)
    || (f == 36 && n == 22) || (f == 37 && n == 24)
  }

  /** The least range, its eighths split into whole bits and the rest. */
  lemma LeastParts(v: nat, q: nat, r: nat)
    requires r < 8 && v == 8 * q + r
    ensures LeastRange(v) == Threshold(r) * Pow2(q)
  {
  }

  lemma Powers()
    ensures Pow2(3) == 8 && Pow2(4) == 16 && Pow2(5) == 32 && Pow2(6) == 64 && Pow2(7) == 128 && Pow2(8) == 256
  {
    assert Pow2(4) == 16;
  }

  lemma LowCovers(f: nat, n: nat, b: nat)
    requires TableEntry(f, n) && b < 4
    ensures Covers(f, n, b)
  {
    Powers();
    Thresholds();
    hide Pow2, LeastRange, Threshold;
    var v := 64 + b - f;
    LeastParts(v, v / 8, v % 8);
  }

  lemma HighCovers(f: nat, n: nat, b: nat)
    requires TableEntry(f, n) && 4 <= b < 8
    ensures Covers(f, n, b)
  {
    Powers();
    Thresholds();
    hide Pow2, LeastRange, Threshold;
    var v := 64 + b - f;
    LeastParts(v, v / 8, v % 8);
  }

  lemma EntryOf(i: nat) returns (n: nat)
    requires i < 24
    ensures n >= i + 1 && TableEntry(Rate.Log2Frac(i), n)
  {
    n := if i in {14, 17, 20, 22} then i + 2 else i + 1;
  }

  lemma MulAssoc(a: int, b: int, c: int)
    ensures a * (b * c) == a * b * c
  {
  }

  lemma LeastShift(v: nat, k: nat)
    ensures LeastRange(v + 8 * k) == LeastRange(v) * Pow2(k)
  {
    hide *;
    LeastParts(v, v / 8, v % 8);
    LeastParts(v + 8 * k, v / 8 + k, v % 8);
    Pow2Add(v / 8, k);
    MulAssoc(Threshold(v % 8), Pow2(v / 8), Pow2(k));
  }

  /** A range of at least v eighths, in i + 1 parts, leaves each the table entry less. */
  lemma PartEighths(rng: nat, i: nat, v: nat)
    requires i < 24 && v >= 64 && rng >= LeastRange(v)
    ensures Rate.Log2Frac(i) <= 37 && rng / (i + 1) >= LeastRange(v - Rate.Log2Frac(i))
  {
    hide LeastRange, Threshold, Covers, Pow2, Rate.Log2Frac;
    var n := EntryOf(i);
    var f, b, q := Rate.Log2Frac(i), v % 8, v / 8;
    if b < 4 { LowCovers(f, n, b); } else { HighCovers(f, n, b); }
    CoversIs(f, n, b);
    var l := LeastRange(64 + b - f);
    LeastShift(64 + b - f, q - 8);
    LeastParts(v, q, b);
    Powers();
    Pow2Add(8, q - 8);
    Parts(i + 1, n, l, Pow2(q - 8), Threshold(b));
    DivGe(rng, i + 1, l * Pow2(q - 8));
  }

  lemma CoversIs(f: nat, n: nat, b: nat)
    requires f <= 64 && b < 8 && Covers(f, n, b)
    ensures Threshold(b) * 256 >= n * LeastRange(64 + b - f)
  {
  }

  lemma Parts(i: nat, n: nat, l: nat, p: nat, t: nat)
    requires i <= n && n * l <= t * 256
    ensures l * p * i <= t * (256 * p)
  {
    MulMono(i, n, l);
    assert i * l <= t * 256;
    MulMono(i * l, t * 256, p);
    assert i * l * p == l * p * i && t * 256 * p == t * (256 * p);
  }

  /** A symbol of up to 24 equally likely ones costs at most its table entry. */
  lemma SymbolCost(sp: Span, op: Op, i: nat)
    requires Proper(sp) && Legal(op) && op.Sym? && i < 24 && op.ft == i + 1
    ensures TellEighths(Step(sp, op)) <= TellEighths(sp) + Rate.Log2Frac(i)
  {
    RangeBits(sp);
    RangeBits(Step(sp, op));
    EndsInside(sp.rng, op);
    var w := Narrow(sp, op);
    EighthsBound(Mantissa(sp.rng));
    var v := LogEighths(sp.rng) - 128;
    NormScale(w);
    hide ILog, LogEighths, LeastRange, Rate.Log2Frac, Pow2;
    LogFrom(sp.rng, v);
    PartEighths(sp.rng, i, v);
    LogLeast(v - Rate.Log2Frac(i));
    LogMono(LeastRange(v - Rate.Log2Frac(i)), w.rng);
    LogShift(w.rng, 8 * (Norm(w).n - w.n));
  }

  // ---------------------------------------------------- the allocator's steps

  /** Flags of one bit each. */
  predicate AllFlags(ops: seq<Op>) {
    forall i :: 0 <= i < |ops| ==> ops[i].Sym? && Legal(ops[i]) && ops[i].ft == 2
  }

  lemma {:induction false} FlagsCost(sp: Span, ops: seq<Op>)
    requires Proper(sp) && AllLegal(ops) && AllFlags(ops)
    ensures TellEighths(Run(sp, ops)) <= TellEighths(sp) + 8 * |ops|
  {
    hide TellEighths, Step;
    if |ops| > 0 {
      FlagsCost(sp, ops[..|ops| - 1]);
      TwoParts();
      StepEighths(Run(sp, ops[..|ops| - 1]), ops[|ops| - 1], 1);
    }
  }

  lemma TwoParts()
    ensures Pow2(1) == 2
  {
    Pow2Small();
  }

  lemma {:induction false} ZeroFlagsAre(f: Rate.Request, c: nat)
    requires Rate.ValidRequest(f) && Alloc.SkipBound(f) < c <= f.end
    ensures AllFlags(Alloc.ZeroFlags(f, c))
    decreases f.end - c
  {
    hide Rate.ValidRequest, Alloc.SkipBound, Alloc.SkipState, Alloc.SkipInv, Alloc.Flagged;
    TwoParts();
    if c < f.end { ZeroFlagsAre(f, c + 1); }
  }

  lemma SkipFlagsCost(sp: Span, f: Rate.Request, c: nat)
    requires Proper(sp) && Rate.ValidRequest(f) && Alloc.CanStop(f, c)
    ensures TellEighths(Run(sp, Alloc.SkipFlags(f, c))) <= TellEighths(sp) + 8 * |Alloc.SkipFlags(f, c)|
  {
    hide Rate.ValidRequest, Alloc.SkipBound, Alloc.SkipState, Alloc.SkipInv, Alloc.Flagged, Alloc.ZeroFlags, Run,
      TellEighths;
    TwoParts();
    ZeroFlagsAre(f, c);
    FlagsCost(sp, Alloc.SkipFlags(f, c));
  }

  lemma IntensityCost(sp: Span, f: Rate.Request, ch: Alloc.Choice)
    requires Proper(sp) && Rate.ValidRequest(f) && Alloc.ValidChoice(f, ch)
    ensures TellEighths(Run(sp, Alloc.IntensityOps(f, ch))) <= TellEighths(sp) + Alloc.HeldIntensity(f, ch)
  {
    hide Rate.ValidMode, Alloc.SkipBound, Alloc.SkipState, Alloc.Flagged, Run, TellEighths, Alloc.SkipInv,
      Rate.Log2Frac;
    RunNone(sp);
    if Alloc.HeldIntensity(f, ch) > 0 {
      HeldIs(f, ch);
      var v, n := ch.intensity - f.start, ch.coded + 1 - f.start;
      FewLevels(v, n);
      RunOne(sp, UintOps(v, n)[0]);
      SymbolCost(sp, UintOps(v, n)[0], n - 1);
    }
  }

  lemma HeldIs(f: Rate.Request, ch: Alloc.Choice)
    requires Rate.ValidRequest(f) && Alloc.ValidChoice(f, ch) && Alloc.HeldIntensity(f, ch) > 0
    ensures f.start < ch.coded && ch.coded - f.start <= 23
    ensures Alloc.HeldIntensity(f, ch) == Rate.Log2Frac(ch.coded - f.start)
  {
    hide Rate.ValidRequest, Alloc.SkipInv, Alloc.SkipState, Rate.Log2Frac, Alloc.CanStop;
    Alloc.ChoiceRange(f, ch);
    InvEntry(f, Alloc.SkipState(f, ch.coded));
  }

  lemma InvEntry(f: Rate.Request, k: Alloc.Skip)
    requires Rate.ValidRequest(f) && Alloc.SkipInv(f, k)
    ensures f.start < k.coded && k.coded - f.start <= 23
    ensures k.rsv > 0 ==> k.rsv == Rate.Log2Frac(k.coded - f.start)
  {
    hide Rate.ValidMode, Rate.Log2Frac, Rate.Sum, Rate.ForIntensity, Rate.Budget, Rate.Nonnegative, Rate.Floor;
  }

  lemma FewLevels(v: nat, n: nat)
    requires 2 <= n <= 24 && v < n
    ensures UintOps(v, n) == [Sym(v == 0, v, v + 1, n)]
  {
    hide ILog;
    Pow2Values();
    if ILog(n - 1) > 8 { ILogBounds(n - 1); Pow2Mono(8, ILog(n - 1) - 1); }
  }

  lemma RunOne(sp: Span, op: Op)
    requires Proper(sp) && Legal(op)
    ensures Run(sp, [op]) == Step(sp, op)
  {
    RunSnoc(sp, [], op);
    assert [] + [op] == [op];
  }

  lemma DualCost(sp: Span, f: Rate.Request, ch: Alloc.Choice)
    requires Proper(sp) && Rate.ValidRequest(f) && Alloc.ValidChoice(f, ch)
    ensures TellEighths(Run(sp, Alloc.DualOps(f, ch))) <= TellEighths(sp) + Alloc.HeldDual(f, ch)
  {
    hide Rate.ValidMode, Alloc.ValidChoice, Alloc.Intensity, Run, TellEighths;
    RunNone(sp);
    TwoParts();
    if Alloc.HeldDual(f, ch) > 0 {
      RunOne(sp, BitOp(ch.dual, 1));
      StepEighths(sp, BitOp(ch.dual, 1), 1);
    }
  }

  /** All the allocator codes costs at most the flags' bits and the reservations held. */
  lemma SideCost(sp: Span, f: Rate.Request, ch: Alloc.Choice)
    requires Proper(sp) && Rate.ValidRequest(f) && Alloc.ValidChoice(f, ch)
    ensures TellEighths(Run(sp, Alloc.AllocOps(f, ch))) <=
            TellEighths(sp) + 8 * |Alloc.SkipFlags(f, ch.coded)| + Alloc.HeldIntensity(f, ch) + Alloc.HeldDual(f, ch)
  {
    hide Rate.ValidRequest, Alloc.SkipFlags, Alloc.IntensityOps, Alloc.DualOps, Run, TellEighths, Alloc.HeldIntensity,
      Alloc.HeldDual, Alloc.CanStop;
    var s, i, d := Alloc.SkipFlags(f, ch.coded), Alloc.IntensityOps(f, ch), Alloc.DualOps(f, ch);
    SkipFlagsCost(sp, f, ch.coded);
    RunConcat(sp, s, i);
    IntensityCost(Run(sp, s), f, ch);
    RunConcat(sp, s + i, d);
    DualCost(Run(sp, s + i), f, ch);
  }

  lemma {:induction false} SpentNonnegative(f: Rate.Request, s: seq<Alloc.Split>)
    requires forall i :: 0 <= i < |s| ==> s[i].pulses >= 0 && s[i].ebits >= 0
    ensures Alloc.GivenOut(f, s) >= 0
  {
    hide Alloc.FineCost;
    if |s| > 0 { SpentNonnegative(f, s[..|s| - 1]); }
  }

  /** So the allocator stays within the bits it was given, and codes nothing if it was
      given none. */
  lemma WithinTotal(sp: Span, f: Rate.Request, ch: Alloc.Choice)
    requires Proper(sp) && Rate.ValidRequest(f) && Alloc.ValidChoice(f, ch)
    ensures TellEighths(Run(sp, Alloc.AllocOps(f, ch))) <= TellEighths(sp) + Max(f.total, 0)
    ensures f.total <= 0 ==> Alloc.AllocOps(f, ch) == []
  {
    hide Rate.ValidRequest, Alloc.SkipFlags, Run, TellEighths, Alloc.HeldIntensity, Alloc.HeldDual, Alloc.CanStop,
      Alloc.GivenOut, Alloc.AllocOutcome;
    SideCost(sp, f, ch);
    Alloc.Conservation(f, ch);
    SpentNonnegative(f, Alloc.AllocOutcome(f, ch).splits);
  }
}
