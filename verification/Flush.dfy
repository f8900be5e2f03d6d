/** Ending a stream: the shortest code word inside the final interval, and the
    packet it makes together with the raw bits. */
module Flush {
  import opened Arith
  import opened Interval

  /** The least multiple of m from x on: (x + msk) & ~msk for m = msk + 1. */
  function RoundUp(x: nat, m: nat): (r: nat)
    requires m > 0
    ensures x <= r < x + m && r == r / m * m
  {
    var q := (x + m - 1) / m;
    MulNat(q, m);
    DivUnique(q * m, m, q, 0);
    q * m
  }

  lemma RoundUpShift(n: nat, k: nat, x: nat, m: nat)
    requires m > 0
    ensures RoundUp(n * (k * m) + x, m) == n * (k * m) + RoundUp(x, m)
  {
    var q, r := (x + m - 1) / m, (x + m - 1) % m;
    assert n * (k * m) == (n * k) * m;
    assert n * (k * m) + x + m - 1 == (n * k + q) * m + r;
    DivUnique(n * (k * m) + x + m - 1, m, n * k + q, r);
    assert (n * k + q) * m == (n * k) * m + q * m;
  }

  /** Every multiple of m from x on is at least RoundUp(x, m). */
  lemma RoundUpLeast(x: nat, m: nat, q: nat)
    requires m > 0 && x <= q * m
    ensures RoundUp(x, m) <= q * m
  {
    var k := RoundUp(x, m) / m;
    assert (q + 1) * m == q * m + m;
    MulCancel(k, q + 1, m);
    MulMono(k, q, m);
  }

  /** How many bits of the current 31-bit code register the flush writes. */
  function FlushLen(sp: Span): (l: nat)
    requires Proper(sp)
    ensures l <= 9
  {
    RangeBits(sp);
    var l := 32 - ILog(sp.rng);
    var m := Pow2(31 - l);
    if RoundUp(sp.low, m) + m - 1 >= sp.low + sp.rng then l + 1 else l
  }

  function CodeBits(sp: Span): nat
    requires Proper(sp)
  {
    8 * sp.n + FlushLen(sp)
  }

  function FlushEnd(sp: Span): nat
    requires Proper(sp)
  {
    RoundUp(sp.low, Pow2(31 - FlushLen(sp)))
  }

  /** The code word, CodeBits(sp) bits long. */
  function CodeWord(sp: Span): nat
    requires Proper(sp)
  {
    FlushEnd(sp) / Pow2(31 - FlushLen(sp))
  }

  predicate Fits(sp: Span, size: nat)
    requires Proper(sp)
  {
    CodeBits(sp) + sp.nraw <= 8 * size
  }

  /** The finished packet of `size` bytes as one number: code word on top, raw
      bits at the bottom. */
  function PacketNum(sp: Span, raw: nat, size: nat): nat
    requires Proper(sp) && Fits(sp, size)
  {
    CodeWord(sp) * Pow2(8 * size - CodeBits(sp)) + raw
  }

  lemma FlushInside(sp: Span)
    requires Proper(sp)
    ensures var m := Pow2(31 - FlushLen(sp));
            FlushEnd(sp) == CodeWord(sp) * m && sp.low <= FlushEnd(sp) && FlushEnd(sp) + m <= sp.low + sp.rng
  {
    hide ILog, Pow2;
    RangeBits(sp);
    var l := 32 - ILog(sp.rng);
    ILogBounds(sp.rng);
    assert Pow2(31 - l) <= sp.rng;
    if FlushLen(sp) != l { PowDouble(30 - l); }
  }

  /** The aligned block that a code word of this many bits names lies inside the
      interval.  SafeCarries and UnsafeFails say that this is exactly when every
      continuation of the word does. */
  predicate SafeWord(sp: Span, w: nat, bits: nat)
    requires bits <= 31 + 8 * sp.n
  {
    var m := Pow2(31 + 8 * sp.n - bits);
    sp.low <= w * m && (w + 1) * m <= sp.low + sp.rng
  }

  /** No block named by fewer bits lies inside. */
  lemma FlushMinimal(sp: Span, w: nat, bits: nat)
    requires Proper(sp) && bits < CodeBits(sp)
    ensures !SafeWord(sp, w, bits)
  {
    RangeBits(sp);
    ILogBounds(sp.rng);
    var l := 32 - ILog(sp.rng);
    var m := Pow2(31 + 8 * sp.n - bits);
    assert (w + 1) * m == w * m + m;
    if bits < 8 * sp.n + l {
      Pow2Mono(32 - l, 31 + 8 * sp.n - bits);
    } else if SafeWord(sp, w, bits) {
      assert m == Pow2(31 - l);
      RoundUpLeast(sp.low, m, w);
    }
  }

  lemma FlushSafe(sp: Span)
    requires Proper(sp)
    ensures CodeBits(sp) <= 31 + 8 * sp.n && SafeWord(sp, CodeWord(sp), CodeBits(sp))
  {
    hide FlushLen, FlushEnd, CodeWord, Pow2;
    FlushInside(sp);
    var w, m := CodeWord(sp), Pow2(31 - FlushLen(sp));
    assert (w + 1) * m == w * m + m;
  }

  /** Bit count and flush length: a stream whose ec_tell fits, fits. */
  lemma TellFits(sp: Span, size: nat)
    requires Proper(sp)
    ensures Tell(sp) - 1 <= CodeBits(sp) + sp.nraw <= Tell(sp)
    ensures Tell(sp) <= 8 * size ==> Fits(sp, size)
    ensures Fits(sp, size) ==> Spent(sp) <= 8 * size
  {
    RangeBits(sp);
  }

  // ------------------------------------------- what a decoder finds in it

  lemma {:induction false} PrefixNum(buf: seq<byte>, i: nat)
    ensures i <= |buf| ==> Prefix(buf, i) == Num(buf[..i])
    ensures i >= |buf| ==> Prefix(buf, i) == Num(buf) * Pow2(8 * (i - |buf|))
  {
    hide Num, Pow2;
    if i == 0 {
      PowZero();
      assert buf[..0] == [] && Num([]) == 0 by { NumBound(buf[..0]); }
      if |buf| == 0 { assert buf == []; }
    } else {
      PrefixNum(buf, i - 1);
      if i <= |buf| {
        assert buf[..i] == buf[..i - 1] + [buf[i - 1]];
        NumSnoc(buf[..i - 1], buf[i - 1]);
        if i == |buf| { assert buf[..i] == buf; PowZero(); }
      } else {
        if i - 1 == |buf| { assert buf[..i - 1] == buf; }
        Pow2Byte(i - 1 - |buf|);
        ShiftByte(Num(buf), Pow2(8 * (i - 1 - |buf|)), 0);
      }
    }
  }

  /** The first i bytes of a packet are its number with the rest shifted out. */
  lemma PrefixShift(buf: seq<byte>, i: nat)
    requires i <= |buf|
    ensures Prefix(buf, i) == Num(buf) / Pow2(8 * (|buf| - i))
  {
    PrefixNum(buf, i);
    assert buf == buf[..i] + buf[i..];
    NumConcat(buf[..i], buf[i..]);
    NumBound(buf[i..]);
    DivUnique(Num(buf), Pow2(8 * (|buf| - i)), Num(buf[..i]), Num(buf[i..]));
  }

  /** The top `bits` bits of the packet's code value. */
  lemma CodeTop(buf: seq<byte>, n: nat, bits: nat)
    requires bits <= 31 + 8 * n && bits <= 8 * |buf|
    ensures Code(buf, n) / Pow2(31 + 8 * n - bits) == Num(buf) / Pow2(8 * |buf| - bits)
  {
    var k := 31 + 8 * n - bits;
    var p := Prefix(buf, n + 4);
    DivDiv(p, 2, Pow2(k));
    assert Pow2(k + 1) == 2 * Pow2(k);
    if n + 4 <= |buf| {
      var a := 8 * (|buf| - (n + 4));
      PrefixShift(buf, n + 4);
      DivDiv(Num(buf), Pow2(a), Pow2(k + 1));
      Pow2Add(a, k + 1);
    } else {
      var a := 8 * (n + 4 - |buf|);
      PrefixNum(buf, n + 4);
      Pow2Add(a, 8 * |buf| - bits);
      DivCancel(Num(buf), Pow2(a), Pow2(8 * |buf| - bits));
    }
  }

  lemma QuotientBlock(c: nat, m: nat, w: nat)
    requires m > 0 && c / m == w
    ensures w * m <= c < (w + 1) * m
  {
    assert c == w * m + c % m;
    assert (w + 1) * m == w * m + m;
  }

  /** A packet starting with a safe code word lies in the interval, whatever
      bits follow it. */
  lemma SafeContains(buf: seq<byte>, sp: Span, w: nat, bits: nat)
    requires bits <= 31 + 8 * sp.n && bits <= 8 * |buf|
    requires SafeWord(sp, w, bits) && Num(buf) / Pow2(8 * |buf| - bits) == w
    ensures Contains(buf, sp)
  {
    hide Code, Num, Pow2;
    CodeTop(buf, sp.n, bits);
    var m := Pow2(31 + 8 * sp.n - bits);
    QuotientBlock(Code(buf, sp.n), m, w);
  }

  /** The finished packet carries exactly the steps it was made from. */
  lemma PacketCarries(buf: seq<byte>, ops: seq<Op>)
    requires AllLegal(ops) && Proper(START) && Fits(Run(START, ops), |buf|)
    requires Num(buf) == PacketNum(Run(START, ops), RawOf(ops), |buf|)
    ensures Carries(buf, START, ops)
  {
    hide Run, FlushLen, CodeWord, Num, Pow2, RawOf, RawBits, Contains, Carries;
    var sp := Run(START, ops);
    var d := 8 * |buf| - CodeBits(sp);
    RunRaw(START, ops);
    RawOfBound(ops);
    Pow2Mono(RawBits(ops), d);
    DivUnique(Num(buf), Pow2(d), CodeWord(sp), RawOf(ops));
    FlushSafe(sp);
    SafeContains(buf, sp, CodeWord(sp), CodeBits(sp));
    StartContains(buf);
    Pow2Add(d - sp.nraw, sp.nraw);
    ModMod(Num(buf), Pow2(d - sp.nraw), Pow2(sp.nraw));
    DivUnique(RawOf(ops), Pow2(sp.nraw), 0, RawOf(ops));
    PowZero();
    assert Num(buf) / Pow2(0) == Num(buf);
    CarriesIff(buf, START, ops);
  }

  /** A packet that starts with a safe code word and ends with the run's raw bits
      carries the run, whatever lies between them. */
  lemma SafeCarries(buf: seq<byte>, ops: seq<Op>, w: nat, bits: nat)
    requires AllLegal(ops) && Proper(START) && bits <= 31 + 8 * Run(START, ops).n && bits <= 8 * |buf|
    requires SafeWord(Run(START, ops), w, bits) && Num(buf) / Pow2(8 * |buf| - bits) == w
    requires RawField(buf, 0, RawBits(ops)) == RawOf(ops)
    ensures Carries(buf, START, ops)
  {
    hide Run, Num, Pow2, RawOf, RawBits, Contains, Carries, RawField, SafeWord;
    SafeContains(buf, Run(START, ops), w, bits);
    StartContains(buf);
    CarriesIff(buf, START, ops);
  }

  // ------------------------------------------- a shorter word does not decode

  /** The k bytes that denote x. */
  function Bytes(x: nat, k: nat): (s: seq<byte>)
    ensures |s| == k
  {
    if k == 0 then [] else Bytes(x / 256, k - 1) + [x % 256]
  }

  lemma {:induction false} NumBytes(x: nat, k: nat)
    requires x < Pow2(8 * k)
    ensures Num(Bytes(x, k)) == x
  {
    if k > 0 {
      Pow2Byte(k - 1);
      NumBytes(x / 256, k - 1);
      NumSnoc(Bytes(x / 256, k - 1), x % 256);
    }
  }

  /** A point of the block that lies outside the interval. */
  lemma PointOutside(sp: Span, w: nat, bits: nat) returns (c: nat)
    requires bits <= 31 + 8 * sp.n && !SafeWord(sp, w, bits)
    ensures c / Pow2(31 + 8 * sp.n - bits) == w && !(sp.low <= c < sp.low + sp.rng)
  {
    var m := Pow2(31 + 8 * sp.n - bits);
    MulNat(w, m);
    assert (w + 1) * m == w * m + m;
    c := if sp.low > w * m then w * m else w * m + (m - 1);
    DivUnique(c, m, w, c - w * m);
  }

  /** A packet whose code value is c, with these bytes at its end. */
  lemma CodePacket(c: nat, w: nat, n: nat, bits: nat, tail: seq<byte>) returns (buf: seq<byte>)
    requires bits <= 31 + 8 * n && w < Pow2(bits) && c / Pow2(31 + 8 * n - bits) == w
    ensures |buf| == n + 4 + |tail| && buf[n + 4..] == tail
    ensures Code(buf, n) == c && Num(buf) / Pow2(8 * |buf| - bits) == w
  {
    hide Pow2, Num, Prefix, Bytes;
    var k := 31 + 8 * n - bits;
    QuotientBlock(c, Pow2(k), w);
    Pow2Add(bits, k);
    MulMono(w + 1, Pow2(bits), Pow2(k));
    PowDouble(31 + 8 * n);
    buf := Bytes(2 * c, n + 4) + tail;
    NumBytes(2 * c, n + 4);
    PrefixNum(buf, n + 4);
    assert buf[..n + 4] == Bytes(2 * c, n + 4);
    CodeTop(buf, n, bits);
  }

  /** Bytes at the end of a packet are its raw bits. */
  lemma RawAtEnd(buf: seq<byte>, i: nat, raw: nat, bits: nat)
    requires i <= |buf| && |buf| - i == bits && Num(buf[i..]) == raw < Pow2(bits)
    ensures RawField(buf, 0, bits) == raw
  {
    hide Num, Pow2;
    assert buf == buf[..i] + buf[i..];
    NumConcat(buf[..i], buf[i..]);
    Pow2Add(7 * bits, bits);
    var h := Num(buf[..i]) * Pow2(7 * bits);
    MulNat(Num(buf[..i]), Pow2(7 * bits));
    assert Num(buf) == h * Pow2(bits) + raw;
    DivUnique(Num(buf), Pow2(bits), h, raw);
    PowZero();
    assert Num(buf) / Pow2(0) == Num(buf);
  }

  /** A code word that is not safe has a continuation, raw bits included, whose symbols
      the decoder does not read as this run. */
  lemma UnsafeFails(ops: seq<Op>, w: nat, bits: nat) returns (buf: seq<byte>)
    requires AllLegal(ops) && Proper(START) && bits <= 31 + 8 * Run(START, ops).n && w < Pow2(bits)
    requires !SafeWord(Run(START, ops), w, bits)
    ensures bits <= 8 * |buf| && Num(buf) / Pow2(8 * |buf| - bits) == w
    ensures RawField(buf, 0, RawBits(ops)) == RawOf(ops)
    ensures !Contains(buf, Run(START, ops)) && !Carries(buf, START, ops)
  {
    hide Run, Num, Pow2, RawOf, RawBits, Code, Carries, RawField, SafeWord, Bytes;
    var sp := Run(START, ops);
    var c := PointOutside(sp, w, bits);
    RawOfBound(ops);
    Pow2Mono(RawBits(ops), 8 * RawBits(ops));
    NumBytes(RawOf(ops), RawBits(ops));
    buf := CodePacket(c, w, sp.n, bits, Bytes(RawOf(ops), RawBits(ops)));
    RawAtEnd(buf, sp.n + 4, RawOf(ops), RawBits(ops));
    StartContains(buf);
    CarriesIff(buf, START, ops);
  }

  /** The flush is minimal: no code word with fewer bits is safe, so each has such a
      continuation. */
  lemma ShorterFails(ops: seq<Op>, w: nat, bits: nat) returns (buf: seq<byte>)
    requires AllLegal(ops) && Proper(START) && bits < CodeBits(Run(START, ops)) && w < Pow2(bits)
    ensures bits <= 8 * |buf| && Num(buf) / Pow2(8 * |buf| - bits) == w
    ensures RawField(buf, 0, RawBits(ops)) == RawOf(ops)
    ensures !Contains(buf, Run(START, ops)) && !Carries(buf, START, ops)
  {
    hide *;
    FlushSafe(Run(START, ops));
    FlushMinimal(Run(START, ops), w, bits);
    buf := UnsafeFails(ops, w, bits);
  }

  /** Every packet starts inside the initial interval. */
  lemma StartContains(buf: seq<byte>)
    ensures Contains(buf, START)
  {
    PrefixBound(buf, 4);
    Pow2Values();
  }

  lemma {:induction false} PrefixBound(buf: seq<byte>, i: nat)
    ensures Prefix(buf, i) < Pow2(8 * i)
  {
    if i > 0 {
      PrefixBound(buf, i - 1);
      Pow2Byte(i - 1);
    }
  }
}
