/** Arithmetic of the coder's registers and of the bytes they turn into. */
module Registers {
  import opened Arith
  import opened Interval
  import opened Flush
  import opened Patch

  /** The digits handed over to the output before and after a carry decision:
      the final bytes, the byte awaiting a carry, and the pending 0xFF bytes. */
  ghost function Digits(front: seq<byte>, rem: int, ext: nat, fill: byte): seq<byte>
    requires -1 <= rem <= 255
  {
    front + (if rem >= 0 then [rem as byte] else []) + Fill(ext, fill)
  }

  lemma DigitsValue(front: seq<byte>, rem: int, ext: nat)
    requires -1 <= rem <= 255
    ensures |Digits(front, rem, ext, 255)| == |front| + (if rem >= 0 then 1 else 0) + ext
    ensures var p := Pow2(8 * ext);
            Num(Digits(front, rem, ext, 255)) == (if rem >= 0 then Num(front) * 256 + rem else Num(front)) * p + (p - 1)
    ensures var p := Pow2(8 * ext);
            Num(Digits(front, rem, ext, 0)) == (if rem >= 0 then Num(front) * 256 + rem else Num(front)) * p
  {
    var head := front + (if rem >= 0 then [rem as byte] else []);
    if rem >= 0 { NumSnoc(front, rem); } else { assert head == front; }
    NumConcat(head, Fill(ext, 255));
    NumConcat(head, Fill(ext, 0));
    NumOnes(ext);
    NumZeros(ext);
  }

  /** A carry turns rem, FF, ..., FF into rem + 1, 00, ..., 00: one more. */
  lemma DigitsCarry(front: seq<byte>, rem: int, ext: nat)
    requires 0 <= rem < 255
    ensures Num(Digits(front, rem + 1, ext, 0)) == Num(Digits(front, rem, ext, 255)) + 1
  {
    hide Num, Digits, Pow2;
    var p := Pow2(8 * ext);
    DigitsValue(front, rem, ext);
    DigitsValue(front, rem + 1, ext);
    var x := Num(front) * 256 + rem;
    assert (x + 1) * p == x * p + p;
  }

  lemma Settled(front: seq<byte>)
    ensures Num(Digits(front, 0, 0, 255)) == Num(front) * 256
    ensures Digits(front, -1, 0, 255) == front
  {
    NumSnoc(front, 0);
    assert front + [0] + [] == front + [0];
  }

  /** Resolving the pending bytes with the carry of c, then keeping the low byte
      of c, appends the nine-bit digit c to the number written so far. */
  lemma CarryValue(front: seq<byte>, rem: int, ext: nat, c: nat)
    requires c < 512 && -1 <= rem <= 255
    requires c >= 256 ==> 0 <= rem < 255
    ensures var carry := c / 256;
            var rem' := if rem >= 0 then rem + carry else rem;
            Num(Digits(front, rem', ext, (255 + carry) % 256) + [c % 256]) ==
            Num(Digits(front, rem, ext, 255)) * 256 + c
  {
    if c >= 256 {
      DigitsCarry(front, rem, ext);
      NumSnoc(Digits(front, rem + 1, ext, 0), c - 256);
    } else {
      NumSnoc(Digits(front, rem, ext, 255), c);
    }
  }

  /** Moving the top digit c out of val keeps the denoted low end, and leaves a
      digit 0xFF behind only when no further carry can come. */
  lemma Rescale(num: nat, val: nat, rng: nat)
    requires 0 < rng && val + rng <= 2 * TOP
    ensures var c, val' := val / BOT, val * 256 % TOP;
      && c < 512 && val' < TOP && (rng <= BOT ==> val' + rng * 256 < 2 * TOP)
      && (c >= 256 ==> val + rng > TOP)
      && (c == 511 || (c == 255 && val + rng <= TOP) ==> val' + rng * 256 <= TOP)
      && (num * 256 + c) * TOP + val' == (num * TOP + val) * 256
  {
    var c, r := val / BOT, val % BOT;
    assert val == c * BOT + r;
    DivUnique(val * 256, TOP, c, r * 256);
  }

  /** The registers that the renormalization works on. */
  datatype Register = Register(rem: int, ext: nat, val: nat, rng: nat)

  /** One digit out: 0xFF joins the pending bytes, anything else settles them. */
  function ShiftedOnce(r: Register): Register {
    var c := r.val / BOT;
    Register(if c == 255 then r.rem else c % 256, if c == 255 then r.ext + 1 else 0, r.val * 256 % TOP, r.rng * 256)
  }

  /** The share of a flag's rarer value. */
  lemma FlagShare(rng: nat, logp: nat)
    requires BOT <= rng && 1 <= logp <= 23
    ensures 0 < rng / Pow2(logp) < rng
  {
    BinLegal(logp);
    hide Pow2;
    DivGe(rng, Pow2(logp), 1);
    MulMono(2, Pow2(logp), rng / Pow2(logp));
    assert 2 * (rng / Pow2(logp)) <= rng;
  }

  /** A flag's value narrows the registers to its part. */
  function FlagRegister(r: Register, v: bool, logp: nat): (n: Register)
    requires BOT <= r.rng <= TOP && 1 <= logp <= 23
    ensures 0 < n.rng <= TOP
  {
    FlagShare(r.rng, logp);
    var s := r.rng / Pow2(logp);
    if v then r.(val := r.val + (r.rng - s), rng := s) else r.(rng := r.rng - s)
  }

  /** The registers once the range is large again. */
  function Shifted(r: Register): Register
    requires 0 < r.rng <= TOP
    decreases TOP - r.rng
  {
    if r.rng > BOT then r else Shifted(ShiftedOnce(r))
  }

  /** The raw bits stored at the end of the buffer and in the window. */
  ghost function RawTotal(tail: seq<byte>, window: nat): nat {
    Num(tail) + window * Pow2(8 * |tail|)
  }

  ghost predicate Suffix(a: seq<byte>, b: seq<byte>) {
    |a| <= |b| && b[|b| - |a|..] == a
  }

  lemma SuffixCons(a: seq<byte>, b: seq<byte>, x: byte)
    requires Suffix(a, b)
    ensures Suffix(a, [x] + b)
  {
  }

  /** Moving the low byte of the raw-bit window in front of the tail. */
  lemma TailByte(tail: seq<byte>, window: nat, used: nat)
    requires used >= 8 && window < Pow2(used)
    ensures window / 256 < Pow2(used - 8)
    ensures RawTotal([(window % 256) as byte] + tail, window / 256) == RawTotal(tail, window)
  {
    var b: byte := window % 256;
    var p := Pow2(8 * |tail|);
    Pow2Byte(used - 8);
    Pow2Byte(|tail|);
    NumConcat([b], tail);
    assert Num([b]) == b;
    ByteSplit(window, p);
  }

  lemma ByteSplit(w: nat, p: nat)
    ensures w % 256 * p + w / 256 * (256 * p) == w * p
  {
    assert w == w / 256 * 256 + w % 256;
    assert (w / 256 * 256 + w % 256) * p == w / 256 * (256 * p) + w % 256 * p;
  }

  /** Adding v above the used bits of the window. */
  lemma WindowAdd(window: nat, used: nat, v: nat, bits: nat)
    requires window < Pow2(used) && v < Pow2(bits)
    ensures Or(v * Pow2(used), window) == window + v * Pow2(used) < Pow2(used + bits)
  {
    DivUnique(v * Pow2(used), Pow2(used), v, 0);
    OrDisjoint(v * Pow2(used), window, used);
    Pow2Add(used, bits);
    FieldBound(window, v, Pow2(used), Pow2(bits));
  }

  lemma WindowValue(tail: seq<byte>, w: nat, v: nat, used: nat)
    ensures RawTotal(tail, w + v * Pow2(used)) == RawTotal(tail, w) + v * Pow2(used + 8 * |tail|)
  {
    var p, q := Pow2(used), Pow2(8 * |tail|);
    Pow2Add(used, 8 * |tail|);
    assert (w + v * p) * q == w * q + v * (p * q);
  }

  /** Rounding val up rounds the denoted low end up. */
  lemma Aligned(num: nat, l: nat, val: nat)
    requires l <= 31
    ensures RoundUp(num * TOP + val, Pow2(31 - l)) == num * TOP + RoundUp(val, Pow2(31 - l))
  {
    Pow2Add(l, 31 - l);
    Pow2Values();
    RoundUpShift(num, Pow2(l), val, Pow2(31 - l));
  }

  lemma HalfBlock(k: nat)
    requires k > 0
    ensures Pow2(k) / 2 == Pow2(k - 1) && Pow2(k) == 2 * Pow2(k - 1)
  {
  }

  /** e with `bytes` zero bytes behind it. */
  function Scaled(e: nat, bytes: nat): (r: nat)
    ensures r == e * Pow2(8 * bytes)
  {
    MulNat(e, Pow2(8 * bytes));
    e * Pow2(8 * bytes)
  }

  lemma NextByte(e: nat, bytes: nat)
    ensures Scaled(e, bytes + 1) == Scaled(e, bytes) * 256 && Scaled(e, 0) == e
  {
    Pow2Byte(bytes);
    ShiftByte(e, Pow2(8 * bytes), 0);
    PowZero();
  }

  /** After the last byte of the code word nothing is left in the register. */
  lemma LastDigits(sp: Span, num: nat, low: nat, bytes: nat, spare: nat)
    requires Proper(sp) && FlushLen(sp) + spare == 8 * bytes
    requires num * TOP + low == FlushEnd(sp) * Pow2(8 * bytes)
    requires low < TOP
    ensures num == CodeWord(sp) * Pow2(spare)
  {
    hide FlushLen, FlushEnd, CodeWord, Pow2;
    FlushInside(sp);
    var k := 31 - FlushLen(sp);
    Pow2Add(k, 8 * bytes);
    Pow2Add(31, spare);
    Pow2Values();
    WordShift(CodeWord(sp), Pow2(k), Pow2(8 * bytes), Pow2(spare));
    DivUnique(num * TOP + low, TOP, num, low);
    DivUnique(num * TOP + low, TOP, CodeWord(sp) * Pow2(spare), 0);
  }

  lemma WordShift(w: nat, a: nat, b: nat, c: nat)
    requires a * b == 0x8000_0000 * c
    ensures w * a * b == w * c * 0x8000_0000
  {
    assert w * a * b == w * (a * b);
  }

  /** The packet when the raw bits end in a byte of their own. */
  lemma PackGap(front: seq<byte>, g: nat, w: byte, tail: seq<byte>)
    ensures Num(front + Fill(g, 0) + [w] + tail) ==
            Num(front) * Pow2(8 * (g + 1 + |tail|)) + (Num(tail) + w * Pow2(8 * |tail|))
  {
    hide Num, Fill, Pow2;
    var p := Pow2(8 * |tail|);
    NumConcat(front, Fill(g, 0));
    NumZeros(g);
    NumSnoc(front + Fill(g, 0), w);
    NumConcat(front + Fill(g, 0) + [w], tail);
    Pow2Byte(g);
    Pow2Add(8 * (g + 1), 8 * |tail|);
    PackArith(Num(front), Pow2(8 * g), w, p);
  }

  lemma PackArith(f: nat, q: nat, w: nat, p: nat)
    ensures (f * q * 256 + w) * p == f * (256 * q * p) + w * p
  {
    assert (f * q * 256 + w) * p == f * q * 256 * p + w * p;
    assert f * q * 256 * p == f * (256 * q * p);
  }

  /** The packet without a partial byte of raw bits. */
  lemma PackWhole(front: seq<byte>, g: nat, tail: seq<byte>)
    ensures Num(front + Fill(g, 0) + tail) == Num(front) * Pow2(8 * (g + |tail|)) + Num(tail)
  {
    hide Num, Fill, Pow2;
    NumConcat(front, Fill(g, 0));
    NumZeros(g);
    NumConcat(front + Fill(g, 0), tail);
    Pow2Add(8 * g, 8 * |tail|);
    assert Num(front) * Pow2(8 * g) * Pow2(8 * |tail|) == Num(front) * (Pow2(8 * g) * Pow2(8 * |tail|));
  }

  /** The packet when raw bits share the last byte of the range coder. */
  lemma PackShared(front: seq<byte>, w: nat, tail: seq<byte>, spare: nat)
    requires |front| > 0 && spare <= 8 && w < Pow2(spare) && LowBits(Num(front), spare) == 0
    ensures var k := |front| - 1;
      && Or(front[k], w) == front[k] + w < 256
      && Num(front[..k] + [(front[k] + w) as byte] + tail)
         == Num(front) * Pow2(8 * |tail|) + (Num(tail) + w * Pow2(8 * |tail|))
  {
    hide Num, Or, Pow2;
    var k := |front| - 1;
    var q := Num(front[..k]);
    assert front == front[..k] + [front[k]];
    NumSnoc(front[..k], front[k]);
    Pow2Add(8 - spare, spare);
    Pow2Values();
    ModMod(Num(front), Pow2(8 - spare), Pow2(spare));
    DivUnique(Num(front), 256, q, front[k]);
    OrDisjoint(front[k], w, spare);
    SpareRoom(front[k], w, Pow2(spare), Pow2(8 - spare));
    NumSnoc(front[..k], front[k] + w);
    NumConcat(front[..k] + [(front[k] + w) as byte], tail);
    var p := Pow2(8 * |tail|);
    assert (Num(front) + w) * p == Num(front) * p + w * p;
  }

  lemma PacketTop(w: nat, a: nat, b: nat)
    ensures w * Pow2(a) * Pow2(b) == w * Pow2(a + b)
  {
    Pow2Add(a, b);
  }

  lemma SpareRoom(b: nat, w: nat, m: nat, k: nat)
    requires m > 0 && b < m * k && b % m == 0 && w < m
    ensures b + w < m * k
  {
    var q := b / m;
    assert b == q * m;
    MulCancel(q, k, m);
    MulMono(q + 1, k, m);
    assert (q + 1) * m == q * m + m;
  }

  lemma PointedValue(d: nat, rng: nat, ft: nat)
    requires 0 < ft <= rng && d < rng
    ensures rng / ft >= 1 && PointedAt(d, rng, ft) == ft - Min(d / (rng / ft) + 1, ft)
  {
    DivGe(rng, ft, 1);
  }

  /** The first table entry whose scaled value does not exceed d has width. */
  lemma IcdfFound(d: nat, rng: nat, icdf: seq<nat>, s: nat, ftb: nat)
    requires IcdfTable(icdf, ftb) && BOT < rng && d < rng && s < |icdf|
    requires var r := rng / Pow2(ftb); r * icdf[s] <= d && (s > 0 ==> d < r * icdf[s - 1])
    ensures HasWidth(icdf, s, ftb)
  {
    hide Pow2;
    if s > 0 { LessFactor(rng / Pow2(ftb), icdf[s], icdf[s - 1]); }
  }

  lemma LessFactor(r: nat, a: nat, b: nat)
    requires r * a < r * b
    ensures a < b
  {
    if b <= a { MulMono(b, a, r); }
  }

  /** One more byte from the end of the packet extends the window. */
  lemma WindowTake(data: seq<byte>, from: nat, have: nat, b: nat)
    requires (from + have) % 8 == 0 && b == RawField(data, from + have, 8)
    ensures RawField(data, from, have) < Pow2(have)
    ensures Or(b * Pow2(have), RawField(data, from, have)) == RawField(data, from, have + 8)
  {
    hide Num, Or;
    Pow2Values();
    RawFieldSplit(data, from, have, 8);
    WindowAdd(RawField(data, from, have), have, b, 8);
  }

  lemma RawFieldBound(data: seq<byte>, from: nat, bits: nat)
    ensures RawField(data, from, bits) < Pow2(bits)
  {
  }

  lemma OrLow(s: nat, b: nat, k: nat)
    requires b < Pow2(k)
    ensures Or(s * Pow2(k), b) == s * Pow2(k) + b
  {
    LowBitsNone(s, k);
    OrDisjoint(s * Pow2(k), b, k);
  }

  /** (x & ~mask) | v << shift replaces the top k bits of a byte. */
  lemma OrReplace(x: nat, v: nat, k: nat)
    requires k <= 8 && v < Pow2(k)
    ensures Or(v * Pow2(8 - k), LowBits(x, 8 - k)) == Replace(x, v, k) < 256
  {
    ReplaceBound(x, v, k);
    OrLow(v, LowBits(x, 8 - k), 8 - k);
  }

  /** The first of the digits, when a byte is out and when one is buffered. */
  lemma DigitsHead(front: seq<byte>, rem: int, ext: nat, x: byte)
    requires front != [] && -1 <= rem <= 255
    ensures var w := Digits(front, rem, ext, 255);
      w != [] && w[0] == front[0] && Digits(front[0 := x], rem, ext, 255) == [x] + w[1..]
  {
  }

  lemma DigitsRem(rem: int, ext: nat, x: byte)
    requires 0 <= rem <= 255
    ensures var w := Digits([], rem, ext, 255);
      w != [] && w[0] == rem && Digits([], x, ext, 255) == [x] + w[1..]
  {
  }

  lemma DigitsCount(front: seq<byte>, rem: int, ext: nat)
    requires -1 <= rem <= 255
    ensures |Digits(front, rem, ext, 255)| == |front| + (if rem >= 0 then 1 else 0) + ext
  {
  }

  lemma NumEmpty()
    ensures Num([]) == 0
  {
  }

  lemma OrLowBits(x: nat, v: nat, j: nat)
    ensures Or(v * Pow2(j), LowBits(x, j)) == LowBits(x, j) + v * Pow2(j)
  {
    OrLow(v, LowBits(x, j), j);
  }
}
