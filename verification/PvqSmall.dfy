/** The small-footprint form of the pyramid codebook: one row of U is kept in an
    array and stepped forwards or backwards. */
module PvqSmall {
  import opened Arith
  import opened EntCode
  import opened Interval
  import opened Pvq

  /** Word subtraction and addition, wrapping. */
  function Wrap(x: int): (w: int)
    ensures 0 <= w < WORD
  {
    x % WORD
  }

  predicate Words(u: seq<int>) { forall j :: 0 <= j < |u| ==> 0 <= u[j] < WORD }

  /** The row after u, given its first entry. */
  function NextRow(u: seq<int>, base: int): (r: seq<int>)
    ensures |r| == |u|
  {
    var m := |u| - 1;
    if m < 0 then [] else if m == 0 then [base]
    else
      var r := NextRow(u[..m], base);
      r + [Wrap(u[m] + u[m - 1] + r[m - 1])]
  }

  /** The row before u, given its first entry. */
  function PrevRow(u: seq<int>, base: int): (r: seq<int>)
    ensures |r| == |u|
  {
    var m := |u| - 1;
    if m < 0 then [] else if m == 0 then [base]
    else
      var r := PrevRow(u[..m], base);
      r + [Wrap(u[m] - u[m - 1] - r[m - 1])]
  }

  /** One wrapping step forwards and one backwards cancel. */
  lemma WrapBack(a: int, b: int)
    requires 0 <= a < WORD
    ensures Wrap(Wrap(a + b) - b) == a
  {
    var q := (a + b) / WORD;
    assert Wrap(a + b) - b == -q * WORD + a;
    DivUnique(Wrap(a + b) - b, WORD, -q, a);
  }

  /** uprev undoes unext ... */
  lemma {:induction false} PrevUndoesNext(u: seq<int>, base: int)
    requires |u| > 0 && Words(u)
    ensures PrevRow(NextRow(u, base), u[0]) == u
  {
    hide Wrap, NextRow, PrevRow;
    var m := |u| - 1;
    if m == 0 {
      RowOne(u, base);
      RowOne(NextRow(u, base), u[0]);
    } else {
      PrevUndoesNext(u[..m], base);
      assert u[..m + 1] == u;
      NextPrefix(u, base, m);
      var r := NextRow(u, base);
      assert r[..m] == NextRow(u[..m], base) && r[..m + 1] == r;
      PrevRowPrefix(r, u[0], m);
      WrapBack(u[m], u[m - 1] + r[m - 1]);
      Undone(r[m], r[m - 1], u[m - 1]);
      assert u == u[..m] + [u[m]];
    }
  }

  lemma Undone(a: int, b: int, c: int)
    ensures a - (c + b) == a - b - c && a + (c + b) == a + b + c
  {
  }

  /** ... and unext undoes uprev, whatever wraps on the way. */
  lemma {:induction false} NextUndoesPrev(u: seq<int>, base: int)
    requires |u| > 0 && Words(u)
    ensures NextRow(PrevRow(u, base), u[0]) == u
  {
    hide Wrap, NextRow, PrevRow;
    var m := |u| - 1;
    if m == 0 {
      RowOne(u, base);
      RowOne(PrevRow(u, base), u[0]);
    } else {
      NextUndoesPrev(u[..m], base);
      assert u[..m + 1] == u;
      PrevRowPrefix(u, base, m);
      var r := PrevRow(u, base);
      assert r[..m] == PrevRow(u[..m], base) && r[..m + 1] == r;
      NextPrefix(r, u[0], m);
      WrapBack(u[m], -u[m - 1] - r[m - 1]);
      Undone(u[m], r[m - 1], u[m - 1]);
      assert u == u[..m] + [u[m]];
    }
  }

  /** Entries `from`, `from` + 1, ... of row n. */
  ghost function RowOf(n: nat, from: nat, len: nat): (r: seq<int>)
    ensures |r| == len && forall j :: 0 <= j < len ==> r[j] == U(n, from + j)
  {
    seq(len, (j: nat) => U(n, from + j))
  }

  lemma {:induction false} NextIsNext(n: nat, from: nat, len: nat)
    requires len > 0 && Words(RowOf(n + 1, from, len))
    ensures NextRow(RowOf(n, from, len), U(n + 1, from)) == RowOf(n + 1, from, len)
  {
    hide U;
    var m := len - 1;
    if m > 0 {
      assert RowOf(n + 1, from, m) == RowOf(n + 1, from, len)[..m];
      NextIsNext(n, from, m);
      assert RowOf(n, from, len)[..m] == RowOf(n, from, m);
      assert RowOf(n + 1, from, len)[m] == U(n + 1, from + m) < WORD;
      Neighbours(n + 1, from + m - 1);
    }
  }

  lemma {:induction false} PrevIsPrev(n: nat, from: nat, len: nat)
    requires len > 0 && Words(RowOf(n, from, len))
    ensures PrevRow(RowOf(n + 1, from, len), U(n, from)) == RowOf(n, from, len)
  {
    hide U;
    var m := len - 1;
    if m > 0 {
      assert RowOf(n, from, m) == RowOf(n, from, len)[..m];
      PrevIsPrev(n, from, m);
      assert RowOf(n + 1, from, len)[..m] == RowOf(n + 1, from, m);
      assert RowOf(n, from, len)[m] == U(n, from + m) < WORD;
      Neighbours(n + 1, from + m - 1);
    }
  }

  lemma NextPrefix(u: seq<int>, base: int, j: nat)
    requires 0 < j < |u|
    ensures NextRow(u[..j + 1], base)
            == NextRow(u[..j], base) + [Wrap(u[j] + u[j - 1] + NextRow(u[..j], base)[j - 1])]
  {
    assert u[..j + 1][..j] == u[..j];
  }

  lemma PrevRowPrefix(u: seq<int>, base: int, j: nat)
    requires 0 < j < |u|
    ensures PrevRow(u[..j + 1], base)
            == PrevRow(u[..j], base) + [Wrap(u[j] - u[j - 1] - PrevRow(u[..j], base)[j - 1])]
  {
    assert u[..j + 1][..j] == u[..j];
  }

  lemma RowOne(u: seq<int>, base: int)
    requires |u| == 1
    ensures NextRow(u, base) == [base] && PrevRow(u, base) == [base]
  {
  }

  lemma WrapTwice(a: int, b: int)
    ensures Wrap(Wrap(a) + b) == Wrap(a + b)
  {
    var q := a / WORD;
    assert a + b == Wrap(a) + b + q * WORD;
    var x := Wrap(a) + b;
    DivUnique(a + b, WORD, x / WORD + q, x % WORD);
  }

  /** unext on the len entries from `at` on; it needs at least two. */
  method Unext(u: array<int>, at: nat, len: nat, base: int)
    requires 2 <= len && at + len <= u.Length
    modifies u
    ensures u[at..at + len] == NextRow(old(u[at..at + len]), base)
    ensures u[..at] == old(u[..at]) && u[at + len..] == old(u[at + len..])
  {
    hide NextRow, Wrap;
    ghost var was := u[at..at + len];
    var ui0 := base;
    RowOne(was[..1], base);
    var j := 1;
    while j < len
      invariant 1 <= j <= len
      invariant var r := NextRow(was[..j], base); u[at..at + j - 1] == r[..j - 1] && ui0 == r[j - 1]
      invariant u[at + j - 1..at + len] == was[j - 1..]
      invariant u[..at] == old(u[..at]) && u[at + len..] == old(u[at + len..])
    {
      NextPrefix(was, base, j);
      SliceAt(u[..], was, at, j, len);
      WrapTwice(u[at + j] + u[at + j - 1], ui0);
      var ui1 := Wrap(Wrap(u[at + j] + u[at + j - 1]) + ui0);
      u[at + j - 1] := ui0;
      assert u[at..at + j] == u[at..at + j - 1] + [ui0] == NextRow(was[..j], base);
      ui0 := ui1;
      j := j + 1;
    }
    assert was[..len] == was;
    u[at + j - 1] := ui0;
  }

  lemma SliceAt(now: seq<int>, was: seq<int>, at: nat, j: nat, len: nat)
    requires 1 <= j < len == |was| && at + len <= |now| && now[at + j - 1..at + len] == was[j - 1..]
    ensures now[at + j - 1] == was[j - 1] && now[at + j] == was[j] && now[at + j..at + len] == was[j..]
  {
    assert now[at + j - 1..at + len][0] == was[j - 1..][0] && now[at + j - 1..at + len][1] == was[j - 1..][1];
    assert now[at + j..at + len] == now[at + j - 1..at + len][1..] && was[j..] == was[j - 1..][1..];
  }

  /** uprev on the first len entries; it needs at least two. */
  method Uprev(u: array<int>, len: nat, base: int)
    requires 2 <= len <= u.Length
    modifies u
    ensures u[..len] == PrevRow(old(u[..len]), base) && u[len..] == old(u[len..])
  {
    hide PrevRow, Wrap;
    ghost var was := u[..len];
    var ui0 := base;
    RowOne(was[..1], base);
    var j := 1;
    while j < len
      invariant 1 <= j <= len
      invariant var r := PrevRow(was[..j], base); u[..j - 1] == r[..j - 1] && ui0 == r[j - 1]
      invariant u[j - 1..len] == was[j - 1..] && u[len..] == old(u[len..])
    {
      PrevRowPrefix(was, base, j);
      SliceAt(u[..], was, 0, j, len);
      WrapTwice(u[j] - u[j - 1], -ui0);
      var ui1 := Wrap(Wrap(u[j] - u[j - 1]) - ui0);
      u[j - 1] := ui0;
      assert u[..j] == u[..j - 1] + [ui0] == PrevRow(was[..j], base);
      ui0 := ui1;
      j := j + 1;
    }
    assert was[..len] == was;
    u[j - 1] := ui0;
  }

  /** ncwrs_urow: the row U(n, 0..k+1) and the codebook size. */
  method NcwrsUrow(n: nat, k: nat, u: array<int>) returns (v: int)
    requires 2 <= n && 0 < k && k + 2 <= u.Length && V(n, k) < WORD
    modifies u
    ensures u[..k + 2] == RowOf(n, 0, k + 2) && v == V(n, k)
  {
    hide U, V, NextRow, Wrap;
    var len := k + 2;
    u[0] := 0;
    u[1] := 1;
    SecondRow(0);
    SecondRow(1);
    var j := 2;
    while j < len
      invariant 2 <= j <= len && forall i :: 0 <= i < j ==> u[i] == U(2, i)
    {
      SecondRow(j);
      u[j] := 2 * j - 1;
      j := j + 1;
    }
    assert u[..len] == RowOf(2, 0, len);
    for m := 2 to n
      invariant u[..len] == RowOf(m, 0, len)
    {
      StepForward(m, 1, k + 1, n, k);
      assert u[1..1 + (k + 1)] == RowOf(m, 1, k + 1) by { assert u[1..len] == u[..len][1..]; }
      Unext(u, 1, k + 1, 1);
      ZeroEnds(m);
      assert u[..len][1..] == u[1..1 + (k + 1)] && u[..len][0] == u[..1][0];
      RowTail(u[..len], m + 1, len);
    }
    assert u[k] == u[..len][k] && u[k + 1] == u[..len][k + 1];
    SizeOf(n, k);
    v := Wrap(u[k] + u[k + 1]);
  }

  lemma SizeOf(n: nat, k: nat)
    requires V(n, k) < WORD
    ensures V(n, k) == Wrap(U(n, k) + U(n, k + 1))
  {
    hide U;
  }

  lemma ZeroEnds(m: nat)
    ensures m > 0 ==> U(m, 0) == 0 && U(m, 1) == 1
  {
    hide U;
    ZeroRow(m);
    if m > 0 {
      Symmetric(m, 1);
      FirstRow(m);
    }
  }

  lemma RowTail(u: seq<int>, m: nat, len: nat)
    requires m > 0 && len == |u| >= 1 && u[0] == 0 && u[1..] == RowOf(m, 1, len - 1)
    ensures u == RowOf(m, 0, len)
  {
    hide U;
    ZeroRow(m);
    forall j | 0 <= j < len ensures u[j] == U(m, j) {
      if j > 0 { assert u[j] == u[1..][j - 1]; }
    }
  }

  lemma RowFits(m: nat, from: nat, len: nat, n: nat, k: nat)
    requires 0 < m <= n && from + len <= k + 2 && V(n, k) < WORD
    ensures Words(RowOf(m, from, len))
  {
    hide U, V;
    var r := RowOf(m, from, len);
    forall j | 0 <= j < len ensures r[j] < WORD { EntryFits(m, from + j, n, k); }
  }

  /** Stepping from row m to row m + 1 <= n stays in words. */
  lemma StepForward(m: nat, from: nat, len: nat, n: nat, k: nat)
    requires 0 < m < n && 0 < len && from + len <= k + 2 && V(n, k) < WORD
    ensures NextRow(RowOf(m, from, len), U(m + 1, from)) == RowOf(m + 1, from, len)
    ensures from == 0 ==> U(m + 1, from) == 0
    ensures from == 1 ==> U(m + 1, from) == 1
  {
    hide U, V, NextRow;
    ZeroEnds(m + 1);
    RowFits(m + 1, from, len, n, k);
    NextIsNext(m, from, len);
  }

  lemma StepBack(m: nat, len: nat, n: nat, k: nat)
    requires 0 < m < n && 0 < len <= k + 2 && V(n, k) < WORD
    ensures PrevRow(RowOf(m + 1, 0, len), 0) == RowOf(m, 0, len)
  {
    hide U, V, PrevRow;
    ZeroEnds(m);
    RowFits(m, 0, len, n, k);
    PrevIsPrev(m, 0, len);
  }

  /** cwrsi on a row that is stepped backwards. */
  method CwrsiSmall(n: nat, k0: nat, i0: nat, y: array<int>, u: array<int>) returns (yy: int)
    requires 2 <= n <= y.Length && 0 < k0 < 0x8000 && i0 < V(n, k0) < WORD && y != u
    requires k0 + 2 <= u.Length && u[..k0 + 2] == RowOf(n, 0, k0 + 2)
    modifies y, u
    ensures y[..n] == Vector(n, k0, i0) && y[n..] == old(y[n..])
    ensures yy == SumSquares(y[..n]) < 0x4000_0000
  {
    hide U, V, Pulses, Vector, Element, SumSquares, PrevRow, SumAbs;
    ghost var all := Vector(n, k0, i0);
    assert y[..0] == [] && SumSquares([]) == 0 by { NoSquares(); }
    yy := 0;
    var j, k: nat, i: nat := 0, k0, i0;
    while j < n
      invariant 0 <= j <= n && k <= k0 && i < V(n - j, k) < WORD
      invariant y[..j] + Vector(n - j, k, i) == all && y[n..] == old(y[n..])
      invariant yy == SumSquares(y[..j])
      invariant j < n ==> u[..k + 2] == RowOf(n - j, 0, k + 2)
    {
      var was := k;
      ghost var ii := i;
      var negative;
      k, i, negative := RowPulses(n - j, k, i, u);
      ElementRange(n - j, was, ii, Signed(was - k, negative), k, i);
      CodebookShrinks(n - j - 1, k, n, k0);
      yy := Store(y, j, Signed(was - k, negative), yy);
      assert u[..k + 2] == RowOf(n - j, 0, k + 2) by { assert u[..was + 2][..k + 2] == u[..k + 2]; }
      Uprev(u, k + 2, 0);
      j := j + 1;
      if j < n { StepBack(n - j, k + 2, n, k0); }
    }
    NoneLeft(k, i);
    IndexOfVector(n, k0, i0);
    SquaresBound(all);
    SquareFits(k0);
  }

  lemma NoneLeft(k: nat, i: nat)
    ensures Vector(0, k, i) == []
  {
  }

  /** One element from the row of n. */
  method RowPulses(n: nat, k0: nat, i0: nat, u: array<int>) returns (k: nat, i: nat, negative: bool)
    requires 0 < n && i0 < V(n, k0) && k0 + 2 <= u.Length && u[..k0 + 2] == RowOf(n, 0, k0 + 2)
    ensures Element(n, k0, i0, Signed(k0 - k, negative), k, i)
  {
    hide U, Pulses;
    ghost var row := u[..k0 + 2];
    i, k := i0, k0;
    assert u[k + 1] == row[k + 1];
    var p := u[k + 1];
    negative := i >= p;
    if negative { i := i - p; }
    assert u[k] == row[k];
    p := u[k];
    while p > i
      invariant k <= k0 && p == U(n, k) && (k < k0 ==> i < U(n, k + 1))
      decreases k
    {
      if k == 0 { ZeroRow(n); }
      k := k - 1;
      assert u[k] == row[k];
      p := u[k];
    }
    PulsesUnique(n, k0, i, k);
    i := i - p;
  }

  /** icwrs on a row that is stepped forwards; also the codebook size. */
  method IcwrsSmall(n: nat, kk: nat, y: array<int>, u: array<int>) returns (i: int, nc: int)
    requires 2 <= n <= y.Length && SumAbs(y[..n]) == kk > 0 && V(n, kk) < WORD && y != u
    requires kk + 2 <= u.Length
    modifies u
    ensures i == Index(y[..n]) && nc == V(n, kk)
  {
    hide U, V, Index, SumAbs, NextRow, Wrap;
    ghost var all := y[..n];
    u[0] := 0;
    SecondRow(0);
    for k := 1 to kk + 2
      invariant forall m :: 0 <= m < k ==> u[m] == U(2, m)
    {
      SecondRow(k);
      u[k] := 2 * k - 1;
    }
    assert u[..kk + 2] == RowOf(2, 0, kk + 2);
    i := if y[n - 1] < 0 then 1 else 0;
    var k := Abs(y[n - 1]);
    IndexOne(y[n - 1]);
    assert all[n - 1..] == [y[n - 1]];
    SuffixPulses(all, n - 1);
    var j := n - 2;
    i, k := AddElement(n, kk, j, i, k, y, u, all);
    while j > 0
      invariant 0 <= j <= n - 2 && i == Index(all[j..]) && k == SumAbs(all[j..]) <= kk
      invariant u[..kk + 2] == RowOf(n - j, 0, kk + 2)
      invariant y[..n] == all
    {
      StepForward(n - j, 0, kk + 2, n, kk);
      assert u[0..0 + (kk + 2)] == u[..kk + 2];
      Unext(u, 0, kk + 2, 0);
      j := j - 1;
      assert u[0..0 + (kk + 2)] == u[..kk + 2];
      i, k := AddElement(n, kk, j, i, k, y, u, all);
    }
    assert all[0..] == all;
    assert u[k] == u[..kk + 2][k] && u[k + 1] == u[..kk + 2][k + 1];
    SizeOf(n, k);
    nc := Wrap(u[k] + u[k + 1]);
  }

  /** Element j joins the index of the elements after it. */
  method AddElement(n: nat, kk: nat, j: nat, i0: int, k0: nat, y: array<int>, u: array<int>, ghost all: seq<int>)
    returns (i: int, k: nat)
    requires j < n <= y.Length && y[..n] == all && SumAbs(all) == kk && V(n, kk) < WORD
    requires kk + 2 <= u.Length && u[..kk + 2] == RowOf(n - j, 0, kk + 2)
    requires i0 == Index(all[j + 1..]) && k0 == SumAbs(all[j + 1..])
    ensures i == Index(all[j..]) < WORD && k == SumAbs(all[j..]) <= kk
  {
    hide U, V, Index, SumAbs;
    assert all[j..] == [y[j]] + all[j + 1..];
    IndexCons(y[j], all[j + 1..]);
    SuffixPulses(all, j);
    i := i0 + u[..kk + 2][k0];
    k := k0 + Abs(y[j]);
    if y[j] < 0 { i := i + u[..kk + 2][k + 1]; }
    IndexRange(all[j..]);
    CodebookShrinks(n - j, k, n, kk);
  }
}
