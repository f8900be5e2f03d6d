/** Enumeration of the pyramid codebook: the integer vectors of n elements whose
    absolute values sum to k, numbered from 0 to V(n, k) - 1. */
module Pvq {
  import opened Arith
  import opened Interval
  import opened EntCode

  const WORD := 0x1_0000_0000

  /** The number of such vectors with a negative first element. */
  function U(n: nat, k: nat): nat
    decreases n, k
  {
    if n == 0 then (if k == 0 then 1 else 0)
    else if k == 0 then 0
    else U(n - 1, k) + U(n, k - 1) + U(n - 1, k - 1)
  }

  function V(n: nat, k: nat): nat { U(n, k) + U(n, k + 1) }

  /** Two neighbours in a row differ by a whole smaller codebook. */
  lemma Neighbours(n: nat, k: nat)
    requires n > 0
    ensures U(n, k + 1) == U(n, k) + V(n - 1, k)
  {
  }

  lemma {:induction false} Symmetric(n: nat, k: nat)
    ensures U(n, k) == U(k, n)
    decreases n, k
  {
    if n > 0 && k > 0 {
      Symmetric(n - 1, k);
      Symmetric(n, k - 1);
      Symmetric(n - 1, k - 1);
    }
  }

  lemma {:induction false} RowGrows(n: nat, j: nat, k: nat)
    requires n > 0 && j <= k
    ensures U(n, j) <= U(n, k)
    decreases k
  {
    hide U;
    if j < k {
      RowGrows(n, j, k - 1);
      Neighbours(n, k - 1);
    }
  }

  /** Entries only grow along rows and columns. */
  lemma Grows(m: nat, j: nat, n: nat, k: nat)
    requires 0 < m <= n && 0 < j <= k
    ensures U(m, j) <= U(n, k)
  {
    hide U;
    RowGrows(m, j, k);
    Symmetric(m, k);
    RowGrows(k, m, n);
    Symmetric(n, k);
  }

  lemma FirstRow(k: nat)
    ensures U(1, k) == (if k == 0 then 0 else 1)
  {
    if k > 1 { FirstRow(k - 1); }
  }

  lemma SecondRow(k: nat)
    ensures U(2, k) == (if k == 0 then 0 else 2 * k - 1)
  {
    hide U;
    if k == 0 {
      Symmetric(2, 0);
      ZeroRow(2);
    } else {
      SecondRow(k - 1);
      Neighbours(2, k - 1);
      FirstRow(k - 1);
      FirstRow(k);
    }
  }

  lemma ZeroRow(k: nat)
    ensures U(0, k) == (if k == 0 then 1 else 0) && U(k, 0) == U(0, k)
  {
  }

  // ------------------------------------------------------- the numbering

  function SumAbs(y: seq<int>): nat {
    if |y| == 0 then 0 else Abs(y[0]) + SumAbs(y[1..])
  }

  function SumSquares(y: seq<int>): int {
    if |y| == 0 then 0 else y[0] * y[0] + SumSquares(y[1..])
  }

  /** The index of a vector.  Vectors with the same number of pulses after the
      first element are neighbours; negative first elements come last. */
  function Index(y: seq<int>): nat {
    if |y| == 0 then 0
    else
      Index(y[1..]) + U(|y|, SumAbs(y[1..])) + if y[0] < 0 then U(|y|, SumAbs(y) + 1) else 0
  }

  /** The largest j <= k with U(n, j) <= i. */
  function Pulses(n: nat, k: nat, i: nat): (j: nat)
    requires n > 0
    ensures j <= k && U(n, j) <= i && (j < k ==> i < U(n, j + 1))
  {
    if U(n, k) <= i || k == 0 then k else Pulses(n, k - 1, i)
  }

  function Vector(n: nat, k: nat, i: nat): (y: seq<int>)
    ensures |y| == n
  {
    if n == 0 then []
    else
      var p := U(n, k + 1);
      var i' := if i >= p then i - p else i;
      var j := Pulses(n, k, i');
      [if i >= p then j - k else k - j] + Vector(n - 1, j, i' - U(n, j))
  }

  lemma PulsesUnique(n: nat, k: nat, i: nat, j: nat)
    requires n > 0 && j <= k && U(n, j) <= i && (j < k ==> i < U(n, j + 1))
    ensures Pulses(n, k, i) == j
  {
    hide U;
    var p := Pulses(n, k, i);
    if p < j { RowGrows(n, p + 1, j); }
    if j < p { RowGrows(n, j + 1, p); }
  }

  /** Every vector has an index inside the codebook of its pulse count. */
  lemma {:induction false} IndexRange(y: seq<int>)
    ensures Index(y) < V(|y|, SumAbs(y))
  {
    hide U;
    if |y| == 0 {
      ZeroRow(0);
      ZeroRow(1);
    } else {
      var n, j, k := |y|, SumAbs(y[1..]), SumAbs(y);
      IndexRange(y[1..]);
      Neighbours(n, j);
      RowGrows(n, j + 1, k + 1);
      if y[0] < 0 { RowGrows(n, j + 1, k); }
    }
  }

  /** Decoding the index of a vector gives the vector back. */
  lemma {:induction false} VectorOfIndex(y: seq<int>)
    ensures Vector(|y|, SumAbs(y), Index(y)) == y
  {
    hide U, Pulses;
    if |y| > 0 {
      var n, j, k := |y|, SumAbs(y[1..]), SumAbs(y);
      IndexRange(y[1..]);
      Neighbours(n, j);
      RowGrows(n, j + 1, k + 1);
      var i := Index(y[1..]) + U(n, j);
      PulsesUnique(n, k, i, j);
      VectorOfIndex(y[1..]);
      assert y == [y[0]] + y[1..];
    }
  }

  /** First elements in the order of the numbering: from the largest down to zero, then from
      the most negative up. */
  predicate Sooner(a: int, b: int) { a >= 0 > b || a > b >= 0 || a < b < 0 }

  predicate Precedes(y: seq<int>, z: seq<int>)
    requires |y| == |z|
  {
    |y| > 0 && (Sooner(y[0], z[0]) || (y[0] == z[0] && Precedes(y[1..], z[1..])))
  }

  /** Where the vectors with a given first element are. */
  lemma FirstElement(y: seq<int>)
    requires |y| > 0
    ensures var n, j, k := |y|, SumAbs(y[1..]), SumAbs(y);
      && (y[0] >= 0 ==> U(n, j) <= Index(y) < U(n, j + 1) && j + 1 <= k + 1)
      && (y[0] < 0 ==> U(n, j) <= Index(y) - U(n, k + 1) < U(n, j + 1))
  {
    hide *;
    IndexParts(y);
    IndexRange(y[1..]);
    Neighbours(|y|, SumAbs(y[1..]));
  }

  lemma IndexParts(y: seq<int>)
    requires |y| > 0
    ensures Index(y) == Index(y[1..]) + U(|y|, SumAbs(y[1..])) + if y[0] < 0 then U(|y|, SumAbs(y) + 1) else 0
    ensures |y[1..]| == |y| - 1 && SumAbs(y[1..]) <= SumAbs(y)
  {
    hide U;
  }

  /** The index is the vector's rank in this order. */
  lemma {:induction false} IndexOrder(y: seq<int>, z: seq<int>)
    requires |y| == |z| && SumAbs(y) == SumAbs(z)
    ensures Index(y) < Index(z) <==> Precedes(y, z)
  {
    hide U;
    if |y| > 0 {
      if y[0] == z[0] {
        IndexOrder(y[1..], z[1..]);
      } else if Sooner(y[0], z[0]) {
        SoonerIndex(y, z);
      } else {
        SoonerIndex(z, y);
      }
    }
  }

  lemma SoonerIndex(y: seq<int>, z: seq<int>)
    requires |y| == |z| > 0 && SumAbs(y) == SumAbs(z) && Sooner(y[0], z[0])
    ensures Index(y) < Index(z)
  {
    hide U, Index;
    var n, j, j', k := |y|, SumAbs(y[1..]), SumAbs(z[1..]), SumAbs(y);
    FirstElement(y);
    FirstElement(z);
    if y[0] >= 0 > z[0] { RowGrows(n, j + 1, k + 1); } else { RowGrows(n, j + 1, j'); }
  }

  lemma NoElements(k: nat, i: nat)
    requires i < V(0, k)
    ensures k == 0 && i == 0 && Vector(0, k, i) == [] && SumAbs([]) == 0 && Index([]) == 0
  {
    ZeroRow(k);
    ZeroRow(k + 1);
  }

  /** Every index below V(n, k) is decoded to a vector of k pulses with that index. */
  lemma {:induction false} IndexOfVector(n: nat, k: nat, i: nat)
    requires i < V(n, k)
    ensures SumAbs(Vector(n, k, i)) == k && Index(Vector(n, k, i)) == i
  {
    hide U, Pulses, Index, SumAbs, Vector;
    if n == 0 {
      NoElements(k, i);
    } else {
      var p := U(n, k + 1);
      var i' := if i >= p then i - p else i;
      var j := Pulses(n, k, i');
      Neighbours(n, j);
      VectorIs(n, k, i);
      IndexOfVector(n - 1, j, i' - U(n, j));
      IndexCons(if i >= p then j - k else k - j, Vector(n - 1, j, i' - U(n, j)));
    }
  }

  lemma VectorIs(n: nat, k: nat, i: nat)
    requires n > 0
    ensures var p := U(n, k + 1); var i' := if i >= p then i - p else i; var j := Pulses(n, k, i');
      && |Vector(n - 1, j, i' - U(n, j))| == n - 1
      && Vector(n, k, i) == [if i >= p then j - k else k - j] + Vector(n - 1, j, i' - U(n, j))
  {
    hide U, Pulses;
  }

  /** The numbering is a bijection onto [0, V(n, k)). */
  lemma Bijection(y: seq<int>, z: seq<int>)
    requires |y| == |z| && SumAbs(y) == SumAbs(z)
    ensures Index(y) == Index(z) <==> y == z
  {
    hide *;
    VectorOfIndex(y);
    VectorOfIndex(z);
  }

  lemma {:induction false} SquaresBound(y: seq<int>)
    ensures 0 <= SumSquares(y) <= SumAbs(y) * SumAbs(y)
  {
    if |y| > 0 {
      hide U;
      SquaresBound(y[1..]);
      SquareSum(y[0], SumAbs(y[1..]));
    }
  }

  lemma SquareSum(a: int, s: nat)
    ensures 0 <= a * a && a * a + s * s <= (Abs(a) + s) * (Abs(a) + s)
  {
    MulNat(Abs(a), s);
    assert (Abs(a) + s) * (Abs(a) + s) == Abs(a) * Abs(a) + 2 * (Abs(a) * s) + s * s;
  }

  // -------------------------------------------------- the table-driven code

  /** CELT_PVQ_U_ROW[r][c]: rows start at the diagonal, entries are words. */
  function Row(r: nat, c: nat): (u: nat)
    requires r <= c && U(r, c) < WORD
    ensures u < WORD
  {
    U(r, c)
  }

  /** CELT_PVQ_U */
  function Entry(n: nat, k: nat): (u: nat)
    requires U(n, k) < WORD
    ensures u == U(n, k)
  {
    Symmetric(n, k);
    Row(Min(n, k), Max(n, k))
  }

  /** Every entry the coder touches for a codebook of word size is a word. */
  lemma EntryFits(m: nat, j: nat, n: nat, k: nat)
    requires 0 < n && m <= n && j <= k + 1 && V(n, k) < WORD
    ensures U(m, j) < WORD && U(j, m) < WORD
  {
    hide U;
    ZeroRow(j);
    ZeroRow(m);
    Symmetric(m, j);
    if m > 0 && j > 0 { Grows(m, j, n, k + 1); }
  }

  lemma CodebookShrinks(m: nat, j: nat, n: nat, k: nat)
    requires m <= n && j <= k && 0 < n
    ensures V(m, j) <= V(n, k)
  {
    hide U;
    ZeroRow(j);
    ZeroRow(j + 1);
    ZeroRow(m);
    FirstRow(1);
    Grows(1, 1, n, k + 1);
    if m > 0 {
      Grows(m, j + 1, n, k + 1);
      if j > 0 { Grows(m, j, n, k); }
    }
  }

  lemma CodebookNonempty(n: nat, k: nat)
    requires n > 0
    ensures V(n, k) >= 1 && (k > 0 ==> V(n, k) >= 2)
  {
    hide U;
    FirstRow(1);
    Grows(1, 1, n, k + 1);
    if k > 0 { Grows(1, 1, n, k); }
  }

  lemma {:induction false} SuffixPulses(y: seq<int>, j: nat)
    requires j <= |y|
    ensures SumAbs(y[j..]) <= SumAbs(y)
  {
    if j > 0 {
      SuffixPulses(y[1..], j - 1);
      assert y[1..][j - 1..] == y[j..];
    } else {
      assert y[0..] == y;
    }
  }

  lemma IndexOne(v: int)
    ensures Index([v]) == (if v < 0 then 1 else 0) && SumAbs([v]) == Abs(v)
  {
    ZeroRow(1);
    FirstRow(Abs(v) + 1);
    assert [v][1..] == [];
  }

  lemma IndexCons(v: int, y: seq<int>)
    ensures SumAbs([v] + y) == Abs(v) + SumAbs(y)
    ensures Index([v] + y) ==
      Index(y) + U(|y| + 1, SumAbs(y)) + if v < 0 then U(|y| + 1, Abs(v) + SumAbs(y) + 1) else 0
  {
    hide U, Index, SumAbs;
    UnfoldIndex(v, y, [v] + y);
  }

  lemma UnfoldIndex(v: int, y: seq<int>, z: seq<int>)
    requires |z| == |y| + 1 && z[0] == v && z[1..] == y
    ensures SumAbs(z) == Abs(v) + SumAbs(y)
    ensures Index(z) == Index(y) + U(|y| + 1, SumAbs(y)) + if v < 0 then U(|y| + 1, Abs(v) + SumAbs(y) + 1) else 0
  {
    hide U;
  }

  /** icwrs */
  method Icwrs(n: nat, y: array<int>) returns (i: nat)
    requires 2 <= n <= y.Length && V(n, SumAbs(y[..n])) < WORD
    ensures i == Index(y[..n])
  {
    hide U, Index, SumAbs;
    ghost var all := y[..n];
    var j := n - 1;
    i := if y[j] < 0 then 1 else 0;
    var k := Abs(y[j]);
    IndexOne(y[j]);
    assert all[j..] == [y[j]];
    while j > 0
      invariant 0 <= j < n && i == Index(all[j..]) && k == SumAbs(all[j..])
    {
      j := j - 1;
      assert all[j..] == [y[j]] + all[j + 1..];
      IndexCons(y[j], all[j + 1..]);
      SuffixPulses(all, j);
      EntryFits(n - j, k, n, SumAbs(all));
      i := i + Entry(n - j, k);
      k := k + Abs(y[j]);
      EntryFits(n - j, k + 1, n, SumAbs(all));
      if y[j] < 0 { i := i + Entry(n - j, k + 1); }
      IndexRange(all[j..]);
      CodebookShrinks(n - j, k, n, SumAbs(all));
      assert i < WORD;
    }
    assert all[0..] == all;
  }

  /** (d + s) ^ s for s = -1 or 0 */
  function Signed(d: int, negative: bool): int { if negative then -d else d }

  /** The three results of decoding one element. */
  ghost predicate Element(n: nat, k: nat, i: nat, val: int, k': nat, i': nat) {
    n > 0 &&
    var p := U(n, k + 1);
    var rest := if i >= p then i - p else i;
    && k' == Pulses(n, k, rest) && i' == rest - U(n, k')
    && val == if i >= p then k' - k else k - k'
  }

  /** A decoded element leaves an index into the smaller codebook. */
  lemma ElementRange(n: nat, k: nat, i: nat, val: int, k': nat, i': nat)
    requires Element(n, k, i, val, k', i') && i < V(n, k)
    ensures k' <= k && i' < V(n - 1, k') && Abs(val) == k - k'
    ensures Vector(n, k, i) == [val] + Vector(n - 1, k', i')
  {
    hide U, Pulses;
    Neighbours(n, k');
    if k' == k { RowGrows(n, k, k + 1); }
  }

  /** Lots of pulses: the row of n holds every count from n up. */
  method ManyPulses(n: nat, k0: nat, i0: nat) returns (k: nat, i: nat, negative: bool)
    requires 2 < n <= k0 && i0 < V(n, k0) < WORD
    ensures Element(n, k0, i0, Signed(k0 - k, negative), k, i)
  {
    hide U, Pulses;
    i, k := i0, k0;
    EntryFits(n, k + 1, n, k0);
    var p := Row(n, k + 1);
    negative := i >= p;
    if negative { i := i - p; }
    ghost var rest := i;
    RowGrows(n, k0, k0 + 1);
    EntryFits(n, n, n, k0);
    var q := Row(n, n);
    if q > i {
      assert p > q by {
        RowGrows(n, n, k0);
        Neighbours(n, k0);
        CodebookNonempty(n - 1, k0);
      }
      EntryFits(n - 1, n, n, k0);
      Symmetric(n - 1, n);
      k := n - 1;
      p := Row(k, n);
      while p > i
        invariant k < n && p == U(n, k) && i < U(n, k + 1)
        decreases k
      {
        if k == 0 { ZeroRow(n); }
        k := k - 1;
        EntryFits(k, n, n, k0);
        Symmetric(k, n);
        p := Row(k, n);
      }
    } else {
      EntryFits(n, k, n, k0);
      p := Row(n, k);
      while p > i
        invariant n <= k <= k0 && p == U(n, k) && (k < k0 ==> i < U(n, k + 1))
        decreases k
      {
        k := k - 1;
        EntryFits(n, k, n, k0);
        p := Row(n, k);
      }
    }
    PulsesUnique(n, k0, i, k);
    i := i - p;
  }

  /** Lots of dimensions: fewer pulses than elements, mostly zeros. */
  method ManyDimensions(n: nat, k0: nat, i0: nat) returns (k: nat, i: nat, negative: bool)
    requires 2 < n && k0 < n && i0 < V(n, k0) < WORD
    ensures Element(n, k0, i0, Signed(k0 - k, negative), k, i)
  {
    hide U, Pulses;
    i, k, negative := i0, k0, false;
    EntryFits(n, k0, n, k0);
    EntryFits(n, k0 + 1, n, k0);
    Symmetric(n, k0);
    Symmetric(n, k0 + 1);
    var p := Row(k, n);
    var q := Row(k + 1, n);
    if p <= i < q {
      PulsesUnique(n, k0, i, k0);
      i := i - p;
    } else {
      negative := i >= q;
      if negative { i := i - q; }
      ghost var rest := i;
      if k == 0 { ZeroRow(n); }
      k := k - 1;
      EntryFits(n, k, n, k0);
      Symmetric(k, n);
      p := Row(k, n);
      while p > i
        invariant k < k0 && p == U(n, k) && i < U(n, k + 1)
        decreases k
      {
        if k == 0 { ZeroRow(n); }
        k := k - 1;
        EntryFits(n, k, n, k0);
        Symmetric(k, n);
        p := Row(k, n);
      }
      PulsesUnique(n, k0, i, k);
      i := i - p;
    }
  }

  /** The unrolled step for two elements. */
  method TwoLeft(k0: nat, i0: nat) returns (k: nat, i: nat, negative: bool)
    requires i0 < V(2, k0)
    ensures Element(2, k0, i0, Signed(k0 - k, negative), k, i)
  {
    hide U, Pulses;
    SecondRow(k0);
    SecondRow(k0 + 1);
    var p := 2 * k0 + 1;
    negative := i0 >= p;
    i := if negative then i0 - p else i0;
    k := (i + 1) / 2;
    SecondRow(k);
    SecondRow(k + 1);
    PulsesUnique(2, k0, i, k);
    if k != 0 { i := i - (2 * k - 1); }
  }

  /** The unrolled step for the last element. */
  lemma OneLeft(k: nat, i: nat)
    requires i < V(1, k)
    ensures i <= 1 && Vector(1, k, i) == [Signed(k, i == 1)]
  {
    FirstRow(k);
    FirstRow(k + 1);
    FirstRow(1);
    hide U;
    ZeroRow(1);
    var i' := if i >= 1 then i - 1 else i;
    PulsesUnique(1, k, i', 0);
  }

  lemma SquaresSnoc(y: seq<int>, v: int)
    ensures SumSquares(y + [v]) == SumSquares(y) + v * v
    ensures SumAbs(y + [v]) == SumAbs(y) + Abs(v)
  {
    if |y| == 0 {
      assert y + [v] == [v] && [v][1..] == [];
    } else {
      SquaresSnoc(y[1..], v);
      assert (y + [v])[1..] == y[1..] + [v];
    }
  }

  /** One decoded element is stored and its square added. */
  method Store(y: array<int>, at: nat, val: int, yy: int) returns (sum: int)
    requires at < y.Length && Abs(val) < 0x8000
    modifies y
    ensures y[..at + 1] == old(y[..at]) + [val] && y[at + 1..] == old(y[at + 1..])
    ensures yy == old(SumSquares(y[..at])) ==> sum == SumSquares(y[..at + 1])
  {
    SquaresSnoc(y[..at], val);
    y[at] := ToInt16(val);
    sum := yy + val * val;
    assert y[..at + 1] == old(y[..at]) + [val];
  }

  lemma NoSquares()
    ensures SumSquares([]) == 0
  {
  }

  /** The step for the first of more than two elements. */
  method NextElement(n: nat, k0: nat, i0: nat) returns (val: int, k: nat, i: nat)
    requires 2 < n && k0 < 0x8000 && i0 < V(n, k0) < WORD
    ensures k <= k0 && i < V(n - 1, k) < WORD && Abs(val) < 0x8000
    ensures Vector(n, k0, i0) == [val] + Vector(n - 1, k, i)
  {
    hide U, V, Pulses, Vector, Element;
    var negative;
    if k0 >= n {
      k, i, negative := ManyPulses(n, k0, i0);
    } else {
      k, i, negative := ManyDimensions(n, k0, i0);
    }
    val := Signed(k0 - k, negative);
    ElementRange(n, k0, i0, val, k, i);
    CodebookShrinks(n - 1, k, n, k0);
  }

  /** The two unrolled steps at the end. */
  method LastTwo(y: array<int>, at: nat, k0: nat, i0: nat, yy0: int) returns (yy: int)
    requires at + 2 <= y.Length && k0 < 0x8000 && i0 < V(2, k0) && yy0 == SumSquares(y[..at])
    modifies y
    ensures y[..at + 2] == old(y[..at]) + Vector(2, k0, i0) && y[at + 2..] == old(y[at + 2..])
    ensures yy == SumSquares(y[..at + 2])
  {
    hide U, V, Pulses, Vector, Element, SumSquares;
    var k, i, negative := TwoLeft(k0, i0);
    ElementRange(2, k0, i0, Signed(k0 - k, negative), k, i);
    yy := Store(y, at, Signed(k0 - k, negative), yy0);
    OneLeft(k, i);
    yy := Store(y, at + 1, Signed(k, i == 1), yy);
    assert y[..at + 2] == old(y[..at]) + ([Signed(k0 - k, negative)] + [Signed(k, i == 1)]);
  }

  /** cwrsi with the table. */
  method CwrsiTable(n0: nat, k0: nat, i0: nat, y: array<int>) returns (yy: int)
    requires 2 <= n0 <= y.Length && 0 < k0 < 0x8000 && i0 < V(n0, k0) < WORD
    modifies y
    ensures y[..n0] == Vector(n0, k0, i0) && y[n0..] == old(y[n0..])
    ensures yy == SumSquares(y[..n0]) < 0x4000_0000
  {
    hide U, Pulses, Vector, Element, SumSquares, V;
    ghost var all := Vector(n0, k0, i0);
    var n: nat, k: nat, i: nat, at := n0, k0, i0, 0;
    yy := 0;
    assert y[..0] == [];
    NoSquares();
    while n > 2
      invariant 2 <= n <= n0 && at == n0 - n && k <= k0 && i < V(n, k) < WORD
      invariant y[..at] + Vector(n, k, i) == all && y[n0..] == old(y[n0..])
      invariant yy == SumSquares(y[..at])
    {
      var val;
      val, k, i := NextElement(n, k, i);
      yy := Store(y, at, val, yy);
      at := at + 1;
      n := n - 1;
    }
    yy := LastTwo(y, at, k, i, yy);
    IndexOfVector(n0, k0, i0);
    SquaresBound(all);
    SquareFits(k0);
  }

  lemma SquareFits(k: nat)
    requires k < 0x8000
    ensures k * k < 0x4000_0000
  {
    MulMono(k, 0x7FFF, k);
    MulMono(k, 0x7FFF, 0x7FFF);
  }

  // --------------------------------------------------------- on the wire

  /** The coder steps that stand for a pulse vector. */
  ghost function PulseOps(y: seq<int>): (ops: seq<Op>)
    requires |y| > 0 && SumAbs(y) > 0 && V(|y|, SumAbs(y)) < WORD
    ensures AllLegal(ops)
  {
    IndexRange(y);
    CodebookNonempty(|y|, SumAbs(y));
    UintOps(Index(y), V(|y|, SumAbs(y)))
  }

  /** encode_pulses */
  method EncodePulses(y: array<int>, n: nat, k: nat, enc: EcCtx)
    requires 2 <= n <= y.Length && k > 0 && SumAbs(y[..n]) == k && V(n, k) < WORD
    requires enc.ValidEnc()
    modifies enc, enc.buf
    ensures enc.ValidEnc() && enc.ops == old(enc.ops) + PulseOps(old(y[..n])) && enc.storage == old(enc.storage)
  {
    hide U, V, Index, SumAbs, EcCtx.ValidEnc, UintOps;
    var i := Icwrs(n, y);
    IndexRange(y[..n]);
    CodebookNonempty(n, k);
    EntryFits(n, k, n, k);
    EntryFits(n, k + 1, n, k);
    var ft := TotalOf(n, k);
    enc.EncUint(i, ft);
  }

  /** CELT_PVQ_V */
  function TotalOf(n: nat, k: nat): (v: nat)
    requires n > 0 && V(n, k) < WORD
    ensures v == V(n, k)
  {
    EntryFits(n, k, n, k);
    EntryFits(n, k + 1, n, k);
    Entry(n, k) + Entry(n, k + 1)
  }

  /** decode_pulses: always some vector of k pulses; the one sent, if one was. */
  method DecodePulses(y: array<int>, n: nat, k: nat, dec: EcCtx) returns (yy: int)
    requires 2 <= n <= y.Length && 0 < k < 0x8000 && V(n, k) < WORD
    requires dec.ValidDec()
    modifies y, dec
    ensures dec.ValidDec() && dec.data == old(dec.data)
    ensures SumAbs(y[..n]) == k && yy == SumSquares(y[..n]) && y[n..] == old(y[n..])
    ensures forall z: seq<int> | |z| == n && SumAbs(z) == k && Carries(dec.data, old(dec.pos), PulseOps(z)) ::
              y[..n] == z && dec.pos == Run(old(dec.pos), PulseOps(z))
  {
    hide U, V, Index, SumAbs, SumSquares, Vector, EcCtx.ValidDec, UintOps, Run, Carries;
    ghost var sp, data := dec.pos, dec.data;
    dec.DecState();
    CodebookNonempty(n, k);
    var ft := TotalOf(n, k);
    var i := dec.DecUint(ft);
    ghost var reached := dec.pos;
    forall z: seq<int> | |z| == n && SumAbs(z) == k && Carries(data, sp, PulseOps(z))
      ensures Vector(n, k, i) == z && reached == Run(sp, PulseOps(z))
    {
      IndexRange(z);
      PulseOnce(data, sp, z, i);
      VectorOfIndex(z);
    }
    IndexOfVector(n, k, i);
    yy := CwrsiTable(n, k, i, y);
  }

  lemma PulseOnce(buf: seq<byte>, sp: Span, z: seq<int>, i: nat)
    requires |z| > 0 && SumAbs(z) > 0 && i < V(|z|, SumAbs(z)) < WORD && Proper(sp)
    requires Carries(buf, sp, PulseOps(z))
    requires 2 <= V(|z|, SumAbs(z))
    requires var ft := V(|z|, SumAbs(z));
      Carries(buf, sp, UintOps(i, ft)) || forall v: nat | v < ft :: !Carries(buf, sp, UintOps(v, ft))
    ensures Index(z) == i && PulseOps(z) == UintOps(i, V(|z|, SumAbs(z)))
  {
    hide U, V, Index, SumAbs, UintOps, Carries;
    IndexRange(z);
    UintOnce(buf, sp, i, Index(z), V(|z|, SumAbs(z)));
  }
}
