/** Flags at the very start of a stream, rewritten after the rest was encoded. */
module Patch {
  import opened Arith
  import opened Interval

  /** The number formed by the digits already shifted out of val: only a
      rescaling moves anything out, and then it moves out all that is above val. */
  ghost function Emitted(ops: seq<Op>): nat
    requires AllLegal(ops)
  {
    StartProper();
    if |ops| == 0 then 0
    else
      var init := ops[..|ops| - 1];
      if Run(START, ops).n > Run(START, init).n then Run(START, ops).low / TOP else Emitted(init)
  }

  lemma EmittedSnoc(ops: seq<Op>, op: Op)
    requires AllLegal(ops) && Legal(op)
    ensures AllLegal(ops + [op]) && Proper(START)
    ensures Emitted(ops + [op]) ==
            if Run(START, ops + [op]).n > Run(START, ops).n then Run(START, ops + [op]).low / TOP else Emitted(ops)
  {
    StartProper();
    assert (ops + [op])[..|ops|] == ops;
  }

  /** The block that k flags with value v select, before rescaling. */
  function HeadBlock(v: nat, k: nat): Span
    requires k <= 8
  {
    Span(v * Pow2(31 - k), Pow2(31 - k), 0, 0)
  }

  /** These steps code exactly k equiprobable flags with value v. */
  ghost predicate FlagHead(head: seq<Op>, v: nat, k: nat) {
    && k <= 8 && v < Pow2(k) && AllLegal(head) && Proper(START)
    && Pow2(31 - k) <= TOP && Run(START, head) == Norm(HeadBlock(v, k))
    && Emitted(head) == if k == 8 then v else 0
  }

  /** sp lies in block v of the 2^k equal blocks of the initial interval. */
  ghost predicate InBlock(sp: Span, v: nat, k: nat)
    requires k <= 8
  {
    v * Pow2(31 - k + 8 * sp.n) <= sp.low && sp.low + sp.rng <= (v + 1) * Pow2(31 - k + 8 * sp.n)
  }

  lemma {:induction false} NormInBlock(sp: Span, v: nat, k: nat)
    requires k <= 8 && 0 < sp.rng <= TOP && InBlock(sp, v, k)
    ensures InBlock(Norm(sp), v, k)
    decreases TOP - sp.rng
  {
    if sp.rng <= BOT {
      var e := 31 - k + 8 * sp.n;
      Pow2Byte(e);
      ShiftByte(v, Pow2(e), 0);
      ShiftByte(v + 1, Pow2(e), 0);
      NormInBlock(Span(sp.low * 256, sp.rng * 256, sp.n + 1, sp.nraw), v, k);
    }
  }

  lemma StepInBlock(sp: Span, op: Op, v: nat, k: nat)
    requires k <= 8 && Proper(sp) && Legal(op) && InBlock(sp, v, k)
    ensures InBlock(Step(sp, op), v, k)
  {
    if op.Sym? {
      EndsInside(sp.rng, op);
      NormInBlock(Narrow(sp, op), v, k);
    }
  }

  lemma HeadInBlock(head: seq<Op>, v: nat, k: nat)
    requires FlagHead(head, v, k)
    ensures InBlock(Run(START, head), v, k)
  {
    var p := Pow2(31 - k);
    assert (v + 1) * p == v * p + p;
    NormInBlock(HeadBlock(v, k), v, k);
  }

  /** Everything coded after the flags stays in their block, and so do the
      digits already shifted out. */
  lemma {:induction false} RestInBlock(head: seq<Op>, rest: seq<Op>, v: nat, k: nat)
    requires FlagHead(head, v, k) && AllLegal(rest)
    ensures AllLegal(head + rest)
    ensures var sp := Run(START, head + rest);
      && InBlock(sp, v, k)
      && (if sp.n == 0 then k < 8 && Emitted(head + rest) == 0
          else v * Pow2(8 * sp.n - k) <= Emitted(head + rest) < (v + 1) * Pow2(8 * sp.n - k))
  {
    hide Run, Emitted, Pow2, InBlock, Step, Norm;
    if |rest| == 0 {
      assert head + rest == head;
      HeadInBlock(head, v, k);
      HeadScale(v, k);
      if k == 8 { PowZero(); assert v * 1 == v && (v + 1) * 1 == v + 1; }
    } else {
      var rest', last := rest[..|rest| - 1], rest[|rest| - 1];
      RestInBlock(head, rest', v, k);
      assert head + rest == (head + rest') + [last];
      RunSnoc(START, head + rest', last);
      EmittedSnoc(head + rest', last);
      var sp', sp := Run(START, head + rest'), Run(START, head + rest);
      StepInBlock(sp', last, v, k);
      StepTellMono(sp', last);
      if sp.n > sp'.n { BlockDigits(sp, v, k); }
    }
  }

  lemma HeadScale(v: nat, k: nat)
    requires k <= 8 && Pow2(31 - k) <= TOP
    ensures Norm(HeadBlock(v, k)).n == if k == 8 then 1 else 0
    ensures Norm(HeadBlock(v, k)) ==
      if k == 8 then Span(v * Pow2(31 - k) * 256, TOP, 1, 0) else HeadBlock(v, k)
  {
    Pow2Values();
    if k < 8 { Pow2Mono(24, 31 - k); }
  }

  lemma BlockDigits(sp: Span, v: nat, k: nat)
    requires k <= 8 && 0 < sp.n && 0 < sp.rng && InBlock(sp, v, k)
    ensures v * Pow2(8 * sp.n - k) <= sp.low / TOP < (v + 1) * Pow2(8 * sp.n - k)
  {
    var p := Pow2(8 * sp.n - k);
    Pow2Add(31, 8 * sp.n - k);
    Pow2Values();
    ScaleTop(v, p);
    ScaleTop(v + 1, p);
    DivGe(sp.low, TOP, v * p);
    DivGe(sp.low, TOP, (v + 1) * p);
  }

  lemma ScaleTop(v: nat, p: nat)
    ensures v * (0x8000_0000 * p) == v * p * 0x8000_0000
  {
  }

  // ------------------------------------------------------ moving the block

  /** The same run from an interval moved by d blocks. */
  ghost predicate Moved(a: Span, b: Span, d: int) {
    b == Span(b.low, a.rng, a.n, a.nraw) && b.low == a.low + d * Pow2(8 * a.n)
  }

  lemma {:induction false} NormMoved(a: Span, b: Span, d: int)
    requires 0 < a.rng <= TOP && Moved(a, b, d)
    ensures Moved(Norm(a), Norm(b), d)
    decreases TOP - a.rng
  {
    if a.rng <= BOT {
      Pow2Byte(a.n);
      MoveByte(d, Pow2(8 * a.n));
      NormMoved(Span(a.low * 256, a.rng * 256, a.n + 1, a.nraw), Span(b.low * 256, b.rng * 256, b.n + 1, b.nraw), d);
    }
  }

  lemma MoveByte(d: int, p: nat)
    ensures d * p * 256 == d * (256 * p)
  {
  }

  lemma StepMoved(a: Span, b: Span, op: Op, d: int)
    requires Proper(a) && Proper(b) && Legal(op) && Moved(a, b, d)
    ensures Moved(Step(a, op), Step(b, op), d)
  {
    if op.Sym? {
      EndsInside(a.rng, op);
      NormMoved(Narrow(a, op), Narrow(b, op), d);
    }
  }

  lemma HeadMoved(v: nat, v': nat, k: nat)
    requires k <= 8 && Pow2(31 - k) <= TOP
    ensures Moved(Norm(HeadBlock(v, k)), Norm(HeadBlock(v', k)), (v' - v) * Pow2(31 - k))
  {
    PowZero();
    var p := Pow2(31 - k);
    assert v' * p == v * p + (v' - v) * p;
    NormMoved(HeadBlock(v, k), HeadBlock(v', k), (v' - v) * p);
  }

  /** What changing the flags from v to v' does to the digits already out. */
  function Delta(v: nat, v': nat, k: nat, n: nat): int
    requires k <= 8
  {
    if n == 0 then 0 else (v' - v) * Pow2(8 * n - k)
  }

  /** Coding other flags and then the same steps moves the interval by whole
      blocks, at every scale, and the digits already out by the same amount. */
  lemma {:induction false} RestMoved(head: seq<Op>, head': seq<Op>, rest: seq<Op>, v: nat, v': nat, k: nat)
    requires FlagHead(head, v, k) && FlagHead(head', v', k) && AllLegal(rest)
    ensures AllLegal(head + rest) && AllLegal(head' + rest)
    ensures Moved(Run(START, head + rest), Run(START, head' + rest), (v' - v) * Pow2(31 - k))
    ensures Emitted(head' + rest) == Emitted(head + rest) + Delta(v, v', k, Run(START, head + rest).n)
  {
    hide Run, Emitted, Pow2, Moved, Step, Norm;
    if |rest| == 0 {
      assert head + rest == head && head' + rest == head';
      HeadMoved(v, v', k);
      HeadScale(v, k);
      PowZero();
      assert (v' - v) * 1 == v' - v;
    } else {
      var rest', last := rest[..|rest| - 1], rest[|rest| - 1];
      RestMoved(head, head', rest', v, v', k);
      assert head + rest == (head + rest') + [last] && head' + rest == (head' + rest') + [last];
      RunSnoc(START, head + rest', last);
      RunSnoc(START, head' + rest', last);
      EmittedSnoc(head + rest', last);
      EmittedSnoc(head' + rest', last);
      var a, b := Run(START, head + rest'), Run(START, head' + rest');
      StepMoved(a, b, last, (v' - v) * Pow2(31 - k));
      MovedScale(a, b, (v' - v) * Pow2(31 - k));
      MovedScale(Step(a, last), Step(b, last), (v' - v) * Pow2(31 - k));
      StepTellMono(a, last);
      if Step(a, last).n > a.n { MovedDigits(Step(a, last), Step(b, last), v, v', k); }
    }
  }

  lemma MovedScale(a: Span, b: Span, d: int)
    requires Moved(a, b, d)
    ensures a.n == b.n
  {
  }

  lemma MovedDigits(a: Span, b: Span, v: nat, v': nat, k: nat)
    requires k <= 8 && a.n > 0 && Moved(a, b, (v' - v) * Pow2(31 - k))
    ensures b.low / TOP == a.low / TOP + Delta(v, v', k, a.n)
  {
    var d := v' - v;
    Pow2Add(31 - k, 8 * a.n);
    Pow2Add(31, 8 * a.n - k);
    Pow2Values();
    MoveTop(d, Pow2(31 - k), Pow2(8 * a.n), Pow2(8 * a.n - k));
    DivUnique(b.low, TOP, a.low / TOP + d * Pow2(8 * a.n - k), a.low % TOP);
  }

  lemma MoveTop(d: int, a: nat, b: nat, c: nat)
    requires a * b == 0x8000_0000 * c
    ensures d * a * b == d * c * 0x8000_0000
  {
    assert d * a * b == d * (a * b);
  }

  // -------------------------------------------------- the first digit alone

  /** The first byte of the digits carries the flags in its top bits. */
  lemma TopDigit(x: nat, m: nat, t: nat, v: nat, k: nat)
    requires k <= 8 && t < m
    requires v * (Pow2(8 - k) * m) <= x * m + t < (v + 1) * (Pow2(8 - k) * m)
    ensures x / Pow2(8 - k) == v
  {
    hide Pow2;
    var q := Pow2(8 - k);
    MulNat(v, q);
    MulNat(v + 1, q);
    Assoc(v, q, m);
    Assoc(v + 1, q, m);
    BetweenMultiples(v * q, (v + 1) * q, x, m, t);
    DivGe(x, q, v);
    DivGe(x, q, v + 1);
  }

  lemma Assoc(a: int, b: int, c: int)
    ensures a * (b * c) == a * b * c
  {
  }

  lemma BetweenMultiples(a: nat, b: nat, x: nat, m: nat, t: nat)
    requires t < m && a * m <= x * m + t < b * m
    ensures a <= x < b
  {
    assert (x + 1) * m == x * m + m;
    MulCancel(a, x + 1, m);
    MulCancel(x, b, m);
  }

  /** Replacing the flags in the first byte moves the digits by Delta. */
  lemma TopReplaced(x: nat, m: nat, v: nat, v': nat, k: nat)
    requires k <= 8 && v == x / Pow2(8 - k)
    ensures (x % Pow2(8 - k) + v' * Pow2(8 - k)) * m == x * m + (v' - v) * (Pow2(8 - k) * m)
  {
    hide Pow2;
    var q := Pow2(8 - k);
    Assoc(v' - v, q, m);
    Replaced(v, x % q, v', q, m);
  }

  lemma Replaced(v: nat, r: nat, v': nat, q: nat, m: nat)
    ensures (r + v' * q) * m == (v * q + r) * m + (v' - v) * q * m
  {
    assert r + v' * q == (v * q + r) + (v' - v) * q;
  }

  // ------------------------------------------ heads that callers really code

  /** The k flags of v, most significant first, each with probability 1/2. */
  function Flags(v: nat, k: nat): (ops: seq<Op>)
    ensures |ops| == k
  {
    if k == 0 then [] else Flags(v / 2, k - 1) + [BitOp(v % 2 == 1, 1)]
  }

  /** One more flag halves the block. */
  lemma FlagStep(v: nat, k: nat)
    requires 1 <= k <= 8 && Pow2(31 - k) <= TOP && Proper(HeadBlock(v / 2, k - 1))
    ensures Narrow(HeadBlock(v / 2, k - 1), BitOp(v % 2 == 1, 1)) == HeadBlock(v, k)
  {
    var op := BitOp(v % 2 == 1, 1);
    var p := Pow2(31 - k);
    var rng := Pow2(32 - k);
    assert rng == 2 * p && Pow2(1) == 2;
    Ends(rng, op);
    Halved(v, p);
    assert rng / 2 == p && p * (2 - 1) == p;
  }

  /** Coding one more flag after a head of k - 1. */
  lemma HeadStep(head: seq<Op>, v: nat, k: nat)
    requires 1 <= k <= 8 && v < Pow2(k) && FlagHead(head, v / 2, k - 1)
    ensures FlagHead(head + [BitOp(v % 2 == 1, 1)], v, k)
  {
    hide Run, Emitted, Norm, Pow2, Narrow, BitOp;
    Pow2Values();
    Pow2Mono(31 - k, 31);
    HeadScale(v / 2, k - 1);
    HeadScale(v, k);
    var op := BitOp(v % 2 == 1, 1);
    var sp := Run(START, head);
    RunSnoc(START, head, op);
    EmittedSnoc(head, op);
    assert sp == HeadBlock(v / 2, k - 1);
    FlagStep(v, k);
    if k == 8 { BlockTop(v, k); }
  }

  lemma BlockTop(v: nat, k: nat)
    requires k == 8
    ensures v * Pow2(31 - k) * 256 / TOP == v
  {
    Pow2Values();
    assert Pow2(31 - k) == 0x80_0000;
    assert v * 0x80_0000 * 256 == v * TOP;
  }

  /** Flags coded one by one with ec_enc_bit_logp(., 1) form such a head. */
  lemma {:induction false} FlagsHead(v: nat, k: nat)
    requires k <= 8 && v < Pow2(k)
    ensures FlagHead(Flags(v, k), v, k)
  {
    if k == 0 {
      StartProper();
      Pow2Values();
      PowZero();
    } else {
      FlagsHead(v / 2, k - 1);
      HeadStep(Flags(v / 2, k - 1), v, k);
    }
  }

  lemma Halved(v: nat, p: nat)
    ensures v / 2 * (2 * p) + (if v % 2 == 1 then p else 0) == v * p
  {
    var h := v / 2;
    if v % 2 == 1 {
      assert v == 2 * h + 1;
      assert (2 * h + 1) * p == h * (2 * p) + p;
    } else {
      assert v == 2 * h;
      assert (2 * h) * p == h * (2 * p);
    }
  }

  function PlaceholderTable(k: nat): seq<nat>
    requires 1 <= k <= 8
  {
    Pow2Values();
    Pow2Mono(8 - k, 7);
    [256 - Pow2(8 - k), 0]
  }

  /** So does one placeholder symbol of probability 2^-k, for k zero flags. */
  lemma PlaceholderHead(k: nat)
    requires 1 <= k <= 8
    ensures IcdfTable(PlaceholderTable(k), 8) && HasWidth(PlaceholderTable(k), 0, 8)
    ensures FlagHead([IcdfOp(0, PlaceholderTable(k), 8)], 0, k)
  {
    PlaceholderBlock(k);
    Pow2Values();
    Pow2Mono(31 - k, 31);
    HeadScale(0, k);
    hide Run, Emitted, Norm, Pow2, Narrow, PlaceholderTable, IcdfTable, Near, Far;
    OneOpRun(IcdfOp(0, PlaceholderTable(k), 8));
  }

  lemma OneOpRun(op: Op)
    requires Legal(op)
    ensures AllLegal([op]) && Proper(START) && Run(START, [op]) == Step(START, op)
    ensures Emitted([op]) == if Step(START, op).n > 0 then Step(START, op).low / TOP else 0
  {
    StartProper();
    EmittedSnoc([], op);
    RunSnoc(START, [], op);
    assert [] + [op] == [op];
  }

  lemma PlaceholderBlock(k: nat)
    requires 1 <= k <= 8
    ensures IcdfTable(PlaceholderTable(k), 8) && HasWidth(PlaceholderTable(k), 0, 8) && Proper(START)
    ensures Narrow(START, IcdfOp(0, PlaceholderTable(k), 8)) == HeadBlock(0, k)
  {
    PlaceholderIs(k);
    hide Pow2, Far, Near, IcdfTable, HasWidth, PlaceholderTable, IcdfOp;
    Pow2Add(8 - k, 23);
    Pow2Values();
    StartProper();
    var q := Pow2(8 - k);
    var op := IcdfOp(0, PlaceholderTable(k), 8);
    Ends(TOP, op);
    FirstFar(TOP, op);
    assert TOP / 256 == BOT && BOT * (256 - q) == TOP - q * BOT;
    assert 0 * Pow2(31 - k) == 0;
  }

  lemma PlaceholderIs(k: nat)
    requires 1 <= k <= 8
    ensures IcdfTable(PlaceholderTable(k), 8) && HasWidth(PlaceholderTable(k), 0, 8)
    ensures IcdfOp(0, PlaceholderTable(k), 8) == Sym(true, 0, Pow2(8 - k), 256)
  {
    Pow2Values();
    Pow2Mono(8 - k, 7);
    hide Pow2;
  }

  lemma FirstFar(rng: nat, op: Op)
    requires op.Sym? && Legal(op) && op.first
    ensures Far(rng, op) == rng
  {
  }

  // ------------------------------------------------ what the patch preserves

  lemma HeadRaw(head: seq<Op>, v: nat, k: nat)
    requires FlagHead(head, v, k)
    ensures RawBits(head) == 0 && RawOf(head) == 0
  {
    HeadScale(v, k);
    RunRaw(START, head);
    RawOfBound(head);
    PowZero();
  }

  lemma {:induction false} RestRaw(head: seq<Op>, head': seq<Op>, rest: seq<Op>)
    requires RawBits(head) == RawBits(head') == 0 && RawOf(head) == RawOf(head') == 0
    ensures RawBits(head + rest) == RawBits(head' + rest) && RawOf(head + rest) == RawOf(head' + rest)
  {
    if |rest| == 0 {
      assert head + rest == head && head' + rest == head';
    } else {
      var rest', last := rest[..|rest| - 1], rest[|rest| - 1];
      RestRaw(head, head', rest');
      assert head + rest == (head + rest') + [last] && head' + rest == (head' + rest') + [last];
      RawSnoc(head + rest', last);
      RawSnoc(head' + rest', last);
    }
  }

  /** The byte x with its top k bits replaced by v. */
  function Replace(x: nat, v: nat, k: nat): nat
    requires k <= 8
  {
    LowBits(x, 8 - k) + v * Pow2(8 - k)
  }

  lemma ReplaceBound(x: nat, v: nat, k: nat)
    requires k <= 8 && v < Pow2(k)
    ensures Replace(x, v, k) < 256
  {
    LowPart(x, v, 8 - k, k);
  }

  /** The digits after the first, and their weight. */
  lemma FirstValue(x: byte, t: seq<byte>)
    ensures Num([x] + t) == x * Pow2(8 * |t|) + Num(t) && Num(t) < Pow2(8 * |t|)
  {
    NumConcat([x], t);
    NumBound(t);
    OneByte(x);
  }

  /** The first digit of the stream carries the flags. */
  lemma FirstFlags(head: seq<Op>, rest: seq<Op>, v: nat, k: nat, x: byte, t: seq<byte>)
    requires FlagHead(head, v, k) && AllLegal(rest) && AllLegal(head + rest)
    requires Run(START, head + rest).n == 1 + |t| && Num([x] + t) == Emitted(head + rest)
    ensures x / Pow2(8 - k) == v
  {
    hide Run, Emitted, Num, Pow2, InBlock;
    RestInBlock(head, rest, v, k);
    Pow2Add(8 - k, 8 * |t|);
    assert 8 * (1 + |t|) - k == 8 - k + 8 * |t|;
    FirstValue(x, t);
    TopDigit(x, Pow2(8 * |t|), Num(t), v, k);
  }

  /** With its flags replaced, it is the first digit of the patched stream. */
  lemma FirstPatched(head: seq<Op>, head': seq<Op>, rest: seq<Op>, v: nat, v': nat, k: nat, x: byte, t: seq<byte>)
    requires FlagHead(head, v, k) && FlagHead(head', v', k) && AllLegal(rest) && AllLegal(head + rest)
    requires Run(START, head + rest).n == 1 + |t| && Num([x] + t) == Emitted(head + rest)
    requires x / Pow2(8 - k) == v
    ensures AllLegal(head' + rest) && Replace(x, v', k) < 256
    ensures Num([Replace(x, v', k) as byte] + t) == Emitted(head' + rest)
  {
    hide Run, Emitted, Num, Pow2;
    RestMoved(head, head', rest, v, v', k);
    ReplaceBound(x, v', k);
    Pow2Add(8 - k, 8 * |t|);
    assert 8 * (1 + |t|) - k == 8 - k + 8 * |t|;
    FirstValue(x, t);
    FirstValue(Replace(x, v', k), t);
    TopReplaced(x, Pow2(8 * |t|), v, v', k);
  }

  lemma OneByte(x: byte)
    ensures Num([x]) == x
  {
  }

  lemma HeadFits(head: seq<Op>, v: nat, k: nat)
    requires FlagHead(head, v, k)
    ensures k <= 8 && v < Pow2(k) && Pow2(31 - k) <= TOP
  {
  }

  /** k bits above the low j bits stay below 2^(j + k). */
  lemma LowPart(x: nat, v: nat, j: nat, k: nat)
    requires v < Pow2(k)
    ensures LowBits(x, j) + v * Pow2(j) < Pow2(j + k)
    ensures j + k == 8 ==> LowBits(x, j) + v * Pow2(j) < 256
  {
    FieldBound(LowBits(x, j), v, Pow2(j), Pow2(k));
    Pow2Add(j, k);
    Pow2Values();
  }

  /** Digits moved by Delta and an unchanged register denote the moved low end. */
  lemma LowMoved(num: nat, num': nat, val: nat, a: Span, b: Span, v: nat, v': nat, k: nat)
    requires k <= 8 && a.n > 0 && Moved(a, b, (v' - v) * Pow2(31 - k))
    requires num * TOP + val == a.low && num' == num + Delta(v, v', k, a.n)
    ensures num' * TOP + val == b.low
  {
    hide Pow2;
    var d := v' - v;
    Pow2Add(31 - k, 8 * a.n);
    Pow2Add(31, 8 * a.n - k);
    Pow2Values();
    MoveTop(d, Pow2(31 - k), Pow2(8 * a.n), Pow2(8 * a.n - k));
  }

  /** Distinct flags always show in the digits that are out. */
  lemma DeltaNonzero(v: nat, v': nat, k: nat, n: nat)
    requires k <= 8 && n > 0 && v != v'
    ensures Delta(v, v', k, n) != 0
  {
    NonzeroProduct(v' - v, Pow2(8 * n - k));
  }

  lemma NonzeroProduct(d: int, p: nat)
    requires d != 0 && p > 0
    ensures d * p != 0
  {
    if d > 0 { MulMono(1, d, p); } else { MulMono(d, -1, p); }
  }

  /** While nothing has been shifted out the flags sit in the low end itself. */
  lemma UnscaledPatched(head: seq<Op>, head': seq<Op>, rest: seq<Op>, v: nat, v': nat, k: nat)
    requires FlagHead(head, v, k) && FlagHead(head', v', k) && AllLegal(rest) && AllLegal(head + rest)
    requires Run(START, head + rest).n == 0
    ensures AllLegal(head' + rest) && k < 8 && Emitted(head' + rest) == 0
    ensures var sp := Run(START, head + rest);
      && sp.rng <= TOP / Pow2(k)
      && LowBits(sp.low, 31 - k) + v' * Pow2(31 - k) == Run(START, head' + rest).low
  {
    hide Run, Emitted, FlagHead, Delta;
    RestInBlock(head, rest, v, k);
    RestMoved(head, head', rest, v, v', k);
    NoDelta(v, v', k);
    PowZero();
    Pow2Add(31 - k, k);
    Pow2Values();
    var sp := Run(START, head + rest);
    var p := Pow2(31 - k);
    DivUnique(TOP, Pow2(k), p, 0);
    BlockPart(sp.low, sp.rng, v, v', p);
    RestMovedZero(sp, Run(START, head' + rest), (v' - v) * p);
  }

  lemma NoDelta(v: nat, v': nat, k: nat)
    requires k <= 8
    ensures Delta(v, v', k, 0) == 0
  {
  }

  lemma RestMovedZero(a: Span, b: Span, d: int)
    requires Moved(a, b, d) && a.n == 0
    ensures b.low == a.low + d
  {
    PowZero();
  }

  lemma BlockPart(low: nat, rng: nat, v: nat, v': nat, p: nat)
    requires p > 0 && rng > 0 && v * p <= low && low + rng <= (v + 1) * p
    ensures rng <= p && low % p + v' * p == low + (v' - v) * p
  {
    assert (v + 1) * p == v * p + p;
    DivUnique(low, p, v, low - v * p);
    assert v' * p == v * p + (v' - v) * p;
  }
}
