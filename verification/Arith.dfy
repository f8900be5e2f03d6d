/** Powers of two, bit lengths, big-endian byte strings and the division facts
    that the coder's shifts and masks stand for. */
module Arith {

  type byte = b: nat | b < 256

  function Min(a: int, b: int): int { if a < b then a else b }

  function Max(a: int, b: int): int { if a > b then a else b }

  function Abs(a: int): nat { if a < 0 then -a else a }

  function Pow2(n: nat): (p: nat)
    ensures p >= 1
  {
    if n == 0 then 1 else 2 * Pow2(n - 1)
  }

  /** EC_ILOG: the number of bits of v, and 0 for 0. */
  function ILog(v: nat): (l: nat)
    ensures v > 0 ==> l >= 1
  {
    if v == 0 then 0 else 1 + ILog(v / 2)
  }

  lemma {:induction false} Pow2Add(a: nat, b: nat)
    ensures Pow2(a + b) == Pow2(a) * Pow2(b)
  {
    if a == 0 {
    } else {
      Pow2Add(a - 1, b);
      assert Pow2(a + b) == 2 * Pow2(a - 1 + b);
      assert 2 * (Pow2(a - 1) * Pow2(b)) == (2 * Pow2(a - 1)) * Pow2(b);
    }
  }

  lemma {:induction false} Pow2Mono(a: nat, b: nat)
    requires a <= b
    ensures Pow2(a) <= Pow2(b)
    decreases b
  {
    if a < b { Pow2Mono(a, b - 1); }
  }

  lemma PowZero()
    ensures Pow2(0) == 1
  {
  }

  lemma Pow2Values()
    ensures Pow2(8) == 0x100 && Pow2(15) == 0x8000 && Pow2(16) == 0x1_0000
    ensures Pow2(23) == 0x80_0000 && Pow2(24) == 0x100_0000
    ensures Pow2(31) == 0x8000_0000 && Pow2(32) == 0x1_0000_0000
  {
    Pow2Add(8, 8);
    Pow2Add(8, 16);
    Pow2Add(16, 16);
    assert Pow2(16) == 2 * Pow2(15) && Pow2(24) == 2 * Pow2(23) && Pow2(32) == 2 * Pow2(31);
  }

  /** Eight more bits are one more byte. */
  lemma Pow2Byte(n: nat)
    ensures Pow2(8 * (n + 1)) == 256 * Pow2(8 * n)
    ensures Pow2(n + 8) == 256 * Pow2(n)
  {
    Pow2Add(8, 8 * n);
    Pow2Add(8, n);
    assert Pow2(8) == 256;
  }

  function Square(x: int): (s: nat)
  {
    SquareSign(x);
    x * x
  }

  lemma SquareSign(x: int)
    ensures x * x >= 0
  {
  }

  /** The eighth power, which compares eighths of a bit with counts. */
  function Pow8(x: nat): nat { Square(Square(Square(x))) }

  lemma Pow8Mono(a: nat, b: nat)
    requires a <= b
    ensures Pow8(a) <= Pow8(b)
  {
    hide Pow8;
    SquareMono(a, b);
    SquareMono(Square(a), Square(b));
    SquareMono(Square(Square(a)), Square(Square(b)));
    Pow8Is(a);
    Pow8Is(b);
  }

  lemma Pow8Is(a: nat)
    ensures Pow8(a) == Square(Square(Square(a)))
  {
  }

  lemma SquareMono(a: nat, b: nat)
    requires a <= b
    ensures Square(a) <= Square(b)
  {
    MulMono(a, b, a);
    MulMono(a, b, b);
  }

  lemma SquareMul(a: nat, b: nat)
    ensures Square(a * b) == Square(a) * Square(b)
  {
    assert (a * b) * (a * b) == (a * a) * (b * b);
  }

  lemma Pow8Mul(a: nat, b: nat)
    ensures Pow8(a * b) == Pow8(a) * Pow8(b)
  {
    SquareMul(a, b);
    SquareMul(Square(a), Square(b));
    SquareMul(Square(Square(a)), Square(Square(b)));
  }

  lemma Pow8Pow2(k: nat)
    ensures Pow8(Pow2(k)) == Pow2(8 * k)
  {
    SquarePow2(k);
    SquarePow2(2 * k);
    SquarePow2(4 * k);
  }

  lemma SquarePow2(k: nat)
    ensures Square(Pow2(k)) == Pow2(2 * k)
  {
    hide *;
    Pow2Add(k, k);
    SquareIs(Pow2(k));
  }

  lemma SquareIs(x: int)
    ensures Square(x) == x * x
  {
  }

  lemma DivUnique(x: int, d: int, q: int, r: int)
    requires 0 <= r < d && x == q * d + r
    ensures x / d == q && x % d == r
  {
    var q', r' := x / d, x % d;
    assert x == q' * d + r';
    assert (q - q') * d == r' - r;
    MulCancel(q - q', 1, d);
    MulCancel(-1, q - q', d);
  }

  lemma MulMono(a: int, b: int, c: int)
    requires a <= b && 0 <= c
    ensures a * c <= b * c
  {
  }

  lemma MulNat(a: int, b: int)
    requires 0 <= a && 0 <= b
    ensures 0 <= a * b
  {
  }

  lemma MulCancel(a: int, b: int, c: int)
    requires a * c < b * c && 0 < c
    ensures a < b
  {
    if a >= b { MulMono(b, a, c); }
  }

  /** x div d is at least q exactly when x reaches q multiples of d. */
  lemma DivGe(x: int, d: int, q: int)
    requires 0 < d
    ensures x / d >= q <==> x >= q * d
  {
    var k, r := x / d, x % d;
    assert x == k * d + r;
    if k >= q { MulMono(q, k, d); }
    if k < q { MulMono(k + 1, q, d); assert (k + 1) * d == k * d + d; }
  }

  lemma DivMono(x: int, y: int, d: int)
    requires x <= y && 0 < d
    ensures x / d <= y / d
  {
    DivGe(x, d, x / d);
    DivGe(y, d, x / d);
  }

  lemma DivDiv(x: nat, a: nat, b: nat)
    requires a > 0 && b > 0
    ensures a * b > 0
    ensures x / a / b == x / (a * b)
  {
    var q, r := x / a, x % a;
    var q2, r2 := q / b, q % b;
    assert x == q * a + r;
    assert q == q2 * b + r2;
    assert q * a == q2 * (a * b) + r2 * a by { assert q * a == (q2 * b + r2) * a; assert (q2 * b) * a == q2 * (a * b); }
    assert r2 * a + r < a * b by { MulMono(r2, b - 1, a); assert (b - 1) * a == a * b - a; }
    assert 0 <= r2 * a;
    DivUnique(x, a * b, q2, r2 * a + r);
  }

  /** Shifting out zeros that were shifted in. */
  lemma DivCancel(x: nat, a: nat, b: nat)
    requires a > 0 && b > 0
    ensures a * b > 0
    ensures (x * a) / (a * b) == x / b
  {
    DivDiv(x * a, a, b);
    DivUnique(x * a, a, x, 0);
  }

  /** Reducing first by a multiple of b does not change the residue by b. */
  lemma ModMod(x: nat, a: nat, b: nat)
    requires a > 0 && b > 0
    ensures a * b > 0
    ensures x % (a * b) % b == x % b
    ensures x % (a * b) / b == x / b % a
  {
    var q, r := x / b, x % b;
    var q2, r2 := q / a, q % a;
    assert x == q * b + r && q == q2 * a + r2;
    assert q * b == q2 * (a * b) + r2 * b by { assert q * b == (q2 * a + r2) * b; assert (q2 * a) * b == q2 * (a * b); }
    assert r2 * b + r < a * b by { MulMono(r2, a - 1, b); assert (a - 1) * b == a * b - b; }
    assert 0 <= r2 * b;
    DivUnique(x, a * b, q2, r2 * b + r);
    DivUnique(r2 * b + r, b, r2, r);
  }

  lemma {:induction false} ILogBounds(v: nat)
    requires v > 0
    ensures Pow2(ILog(v) - 1) <= v < Pow2(ILog(v))
  {
    if v == 1 {
      assert ILog(1) == 1 && Pow2(1) == 2;
    } else {
      LogHalf(v);
      hide ILog, Pow2;
      ILogBounds(v / 2);
      PowDouble(ILog(v / 2));
      PowDouble(ILog(v / 2) - 1);
    }
  }

  lemma {:induction false} ILogUnique(v: nat, l: nat)
    requires l > 0 && Pow2(l - 1) <= v < Pow2(l)
    ensures ILog(v) == l
  {
    if l > 1 {
      ILogUnique(v / 2, l - 1);
    }
  }

  lemma {:induction false} ILogMono(a: nat, b: nat)
    requires a <= b
    ensures ILog(a) <= ILog(b)
  {
    if a > 0 { ILogMono(a / 2, b / 2); }
  }

  lemma Double(v: nat, p: nat)
    requires v > 0 && p > 0
    ensures v * (2 * p) > 0 && v * (2 * p) / 2 == v * p
  {
    MulMono(1, v, p);
    assert v * (2 * p) == (v * p) * 2;
  }

  /** Multiplying by 2^k adds k bits. */
  lemma {:induction false} ILogShift(v: nat, k: nat)
    requires v > 0
    ensures ILog(v * Pow2(k)) == ILog(v) + k
  {
    if k == 0 {
    } else {
      ILogShift(v, k - 1);
      Double(v, Pow2(k - 1));
    }
  }

  /** Dropping k low bits removes k from the bit length. */
  lemma {:induction false} ILogDrop(v: nat, k: nat)
    requires k < ILog(v)
    ensures ILog(v / Pow2(k)) == ILog(v) - k
  {
    hide ILog, Pow2;
    if k == 0 {
      PowZero();
    } else {
      LogHalf(v);
      PowDouble(k - 1);
      ILogDrop(v / 2, k - 1);
      DivDiv(v, 2, Pow2(k - 1));
    }
  }

  lemma LogHalf(v: nat)
    ensures ILog(v) == if v > 0 then ILog(v / 2) + 1 else 0
  {
  }

  lemma PowDouble(k: nat)
    ensures Pow2(k + 1) == 2 * Pow2(k)
  {
  }

  // ---------------------------------------------------------------- bytes

  /** The number a byte string denotes, most significant byte first. */
  function Num(s: seq<byte>): nat
  {
    if |s| == 0 then 0 else Num(s[..|s| - 1]) * 256 + s[|s| - 1]
  }

  lemma NumSnoc(s: seq<byte>, b: byte)
    ensures Num(s + [b]) == Num(s) * 256 + b
  {
    assert (s + [b])[..|s|] == s;
  }

  lemma ShiftByte(x: nat, p: nat, y: nat)
    ensures (x * p + y) * 256 == x * (256 * p) + y * 256
  {
  }

  lemma {:induction false} NumConcat(a: seq<byte>, b: seq<byte>)
    ensures Num(a + b) == Num(a) * Pow2(8 * |b|) + Num(b)
  {
    if |b| == 0 {
      assert a + b == a;
    } else {
      var b' := b[..|b| - 1];
      assert (a + b)[..|a + b| - 1] == a + b';
      NumConcat(a, b');
      Pow2Byte(|b'|);
      ShiftByte(Num(a), Pow2(8 * |b'|), Num(b'));
    }
  }

  lemma {:induction false} NumBound(s: seq<byte>)
    ensures Num(s) < Pow2(8 * |s|)
  {
    if |s| > 0 {
      NumBound(s[..|s| - 1]);
      Pow2Byte(|s| - 1);
    }
  }

  /** Byte strings of equal length are equal when they denote the same number. */
  lemma {:induction false} NumInjective(a: seq<byte>, b: seq<byte>)
    requires |a| == |b| && Num(a) == Num(b)
    ensures a == b
  {
    if |a| > 0 {
      var n := |a| - 1;
      NumInjective(a[..n], b[..n]);
      assert a == a[..n] + [a[n]] && b == b[..n] + [b[n]];
    }
  }

  function Fill(n: nat, b: byte): (s: seq<byte>)
    ensures |s| == n
  {
    if n == 0 then [] else Fill(n - 1, b) + [b]
  }

  lemma FillNone(b: byte)
    ensures Fill(0, b) == []
  {
  }

  lemma FillMore(n: nat, b: byte)
    ensures Fill(n + 1, b) == Fill(n, b) + [b]
  {
  }

  lemma {:induction false} FillZeros(n: nat)
    ensures forall i :: 0 <= i < n ==> Fill(n, 0)[i] == 0
  {
    if n > 0 { FillZeros(n - 1); }
  }

  lemma {:induction false} NumZeros(n: nat)
    ensures Num(Fill(n, 0)) == 0
  {
    if n > 0 {
      NumZeros(n - 1);
      NumSnoc(Fill(n - 1, 0), 0);
    }
  }

  /** A run of n bytes 0xFF is one short of 256^n. */
  lemma {:induction false} NumOnes(n: nat)
    ensures Num(Fill(n, 255)) == Pow2(8 * n) - 1
  {
    if n > 0 {
      NumOnes(n - 1);
      NumSnoc(Fill(n - 1, 255), 255);
      Pow2Byte(n - 1);
    }
  }

  /** x & ((1 << k) - 1) */
  function LowBits(x: nat, k: nat): nat
  {
    x % Pow2(k)
  }

  lemma LowBitsNone(w: nat, k: nat)
    ensures LowBits(w * Pow2(k), k) == 0
  {
    DivUnique(w * Pow2(k), Pow2(k), w, 0);
  }

  /** Bitwise or of two naturals. */
  function Or(a: nat, b: nat): nat
    decreases a + b
  {
    if a == 0 then b
    else if b == 0 then a
    else Max(a % 2, b % 2) + 2 * Or(a / 2, b / 2)
  }

  /** A value cast to 16 bits. */
  function ToInt16(x: int): int { (x + 0x8000) % 0x1_0000 - 0x8000 }

  /** Or-ing in a bit that is clear adds it. */
  lemma {:induction false} OrBit(r: nat, k: nat)
    requires r / Pow2(k) % 2 == 0
    ensures Or(r, Pow2(k)) == r + Pow2(k) && Or(r, 0) == r
    decreases k
  {
    if k > 0 {
      DivDiv(r, 2, Pow2(k - 1));
      OrBit(r / 2, k - 1);
    }
  }

  /** Or of values with no bit in common is their sum. */
  lemma {:induction false} OrDisjoint(a: nat, b: nat, k: nat)
    requires a % Pow2(k) == 0 && b < Pow2(k)
    ensures Or(a, b) == a + b
    decreases k
  {
    if k > 0 && a > 0 && b > 0 {
      var p := Pow2(k - 1);
      ModMod(a, p, 2);
      assert p * 2 == Pow2(k);
      assert a % 2 == 0 && (a / 2) % p == 0;
      OrDisjoint(a / 2, b / 2, k - 1);
    }
  }
}
