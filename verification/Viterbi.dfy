/** The encoder's search for the time-frequency flags: a two-state Viterbi pass
    for each tf_select, then the path of the chosen one. */
module Viterbi {
  import opened Arith
  import opened Tf

  /** The search problem for one value of tf_select. */
  datatype Problem = Problem(metric: seq<int>, importance: seq<int>, lambda: int, transient: bool, lm: nat, sel: bool)

  predicate ValidProblem(p: Problem) { |p.metric| == |p.importance| >= 1 && p.lm <= 3 }

  /** How far the flag puts band i from what it prefers. */
  function Weight(p: Problem, i: nat, b: bool): int
    requires ValidProblem(p) && i < |p.metric|
  {
    p.importance[i] * Abs(p.metric[i] - 2 * Change(p.lm, p.transient, p.sel, b))
  }

  function Start(p: Problem, b: bool): int { if b && !p.transient then p.lambda else 0 }

  /** The cost of a whole sequence of flags: every band, and every change. */
  function Cost(p: Problem, s: seq<bool>): int
    requires ValidProblem(p) && 1 <= |s| <= |p.metric|
  {
    var n := |s| - 1;
    if n == 0 then Weight(p, 0, s[0]) + Start(p, s[0])
    else Cost(p, s[..n]) + (if s[n] != s[n - 1] then p.lambda else 0) + Weight(p, n, s[n])
  }

  function Weights(p: Problem, s: seq<bool>): int
    requires ValidProblem(p) && |s| <= |p.metric|
  {
    if |s| == 0 then 0 else Weights(p, s[..|s| - 1]) + Weight(p, |s| - 1, s[|s| - 1])
  }

  /** How often the flag changes; outside transients a first flag that is set is a change. */
  function Changes(s: seq<bool>, transient: bool): nat {
    if |s| == 0 then 0
    else if |s| == 1 then (if s[0] && !transient then 1 else 0)
    else Changes(s[..|s| - 1], transient) + if s[|s| - 1] != s[|s| - 2] then 1 else 0
  }

  /** The cost is that of the bands and lambda for every change: what tf_encode pays for. */
  lemma {:induction false} CostParts(p: Problem, s: seq<bool>)
    requires ValidProblem(p) && 1 <= |s| <= |p.metric|
    ensures Cost(p, s) == Weights(p, s) + p.lambda * Changes(s, p.transient)
  {
    hide Weight;
    var n := |s| - 1;
    if n > 0 {
      CostParts(p, s[..n]);
      MoreLambda(p.lambda, Changes(s[..n], p.transient), s[n] != s[n - 1]);
    } else {
      assert s[..0] == [];
    }
  }

  lemma MoreLambda(lambda: int, n: nat, more: bool)
    ensures lambda * (n + if more then 1 else 0) == lambda * n + if more then lambda else 0
  {
  }

  /** A sequence costs nothing exactly when it never changes, is free to start as it does and
      gives every band the resolution it prefers; the metric counts half steps. */
  predicate Perfect(p: Problem, s: seq<bool>)
    requires ValidProblem(p) && |s| <= |p.metric|
  {
    && (forall i :: 0 < i < |s| ==> s[i] == s[i - 1]) && (|s| > 0 && s[0] ==> p.transient)
    && forall i :: 0 <= i < |s| ==> p.metric[i] == 2 * Change(p.lm, p.transient, p.sel, s[i])
  }

  lemma {:induction false} CostZero(p: Problem, s: seq<bool>)
    requires ValidProblem(p) && 1 <= |s| <= |p.metric| && p.lambda > 0
    requires forall i :: 0 <= i < |p.importance| ==> p.importance[i] > 0
    ensures Cost(p, s) >= 0 && (Cost(p, s) == 0 <==> Perfect(p, s))
  {
    hide Weight, Change, Perfect;
    var n := |s| - 1;
    WeightZero(p, n, s[n]);
    if n > 0 {
      CostZero(p, s[..n]);
      PerfectNext(p, s, n);
    } else {
      PerfectFirst(p, s);
    }
  }

  lemma PerfectNext(p: Problem, s: seq<bool>, n: nat)
    requires ValidProblem(p) && 1 <= n == |s| - 1 < |p.metric|
    ensures Perfect(p, s) <==>
            Perfect(p, s[..n]) && s[n] == s[n - 1] && p.metric[n] == 2 * Change(p.lm, p.transient, p.sel, s[n])
  {
    hide Change;
    var t := s[..n];
    if Perfect(p, t) && s[n] == s[n - 1] && p.metric[n] == 2 * Change(p.lm, p.transient, p.sel, s[n]) {
      forall i | 0 <= i < |s| ensures p.metric[i] == 2 * Change(p.lm, p.transient, p.sel, s[i]) {
        if i < n { assert s[i] == t[i]; }
      }
      forall i | 0 < i < |s| ensures s[i] == s[i - 1] { if i < n { assert s[i] == t[i] && s[i - 1] == t[i - 1]; } }
    }
  }

  lemma PerfectFirst(p: Problem, s: seq<bool>)
    requires ValidProblem(p) && |s| == 1
    ensures Perfect(p, s) <==> (s[0] ==> p.transient) && p.metric[0] == 2 * Change(p.lm, p.transient, p.sel, s[0])
  {
    hide Change;
  }

  lemma WeightZero(p: Problem, i: nat, b: bool)
    requires ValidProblem(p) && i < |p.metric| && p.importance[i] > 0
    ensures Weight(p, i, b) >= 0
    ensures Weight(p, i, b) == 0 <==> p.metric[i] == 2 * Change(p.lm, p.transient, p.sel, b)
  {
    var d := Abs(p.metric[i] - 2 * Change(p.lm, p.transient, p.sel, b));
    hide Change;
    if d > 0 { MulMono(1, d, p.importance[i]); assert d * p.importance[i] == p.importance[i] * d; }
  }

  /** The running costs of the search: the best way to end band i with flag b. */
  function Best(p: Problem, i: nat, b: bool): int
    requires ValidProblem(p) && i < |p.metric|
  {
    if i == 0 then Weight(p, 0, b) + Start(p, b)
    else Min(Best(p, i - 1, b), Best(p, i - 1, !b) + p.lambda) + Weight(p, i, b)
  }

  function Least(p: Problem): int
    requires ValidProblem(p)
  {
    Min(Best(p, |p.metric| - 1, false), Best(p, |p.metric| - 1, true))
  }

  /** The flag before, on the best way to end band i with flag b. */
  function Before(p: Problem, i: nat, b: bool): bool
    requires ValidProblem(p) && 1 <= i < |p.metric|
  {
    !(Best(p, i - 1, false) + (if b then p.lambda else 0) < Best(p, i - 1, true) + (if b then 0 else p.lambda))
  }

  /** The flags found by following the path back from band i. */
  function PathFrom(p: Problem, i: nat, b: bool): (s: seq<bool>)
    requires ValidProblem(p) && i < |p.metric|
    ensures |s| == i + 1 && s[i] == b
  {
    if i == 0 then [b] else PathFrom(p, i - 1, Before(p, i, b)) + [b]
  }

  /** No sequence of flags costs less than the running cost of its last flag. */
  lemma {:induction false} NoneBetter(p: Problem, s: seq<bool>)
    requires ValidProblem(p) && 1 <= |s| <= |p.metric|
    ensures Best(p, |s| - 1, s[|s| - 1]) <= Cost(p, s)
  {
    hide Weight;
    var n := |s| - 1;
    if n > 0 {
      NoneBetter(p, s[..n]);
      assert s[..n][n - 1] == s[n - 1];
    }
  }

  /** The path followed back costs exactly the running cost. */
  lemma {:induction false} TraceCost(p: Problem, i: nat, b: bool)
    requires ValidProblem(p) && i < |p.metric|
    ensures Cost(p, PathFrom(p, i, b)) == Best(p, i, b)
  {
    hide Weight, Cost, PathFrom;
    if i > 0 {
      var b' := Before(p, i, b);
      TraceCost(p, i - 1, b');
      TraceNext(p, i, b);
      CostSnoc(p, PathFrom(p, i - 1, b'), b);
    } else {
      FirstCost(p, b);
    }
  }

  lemma FirstCost(p: Problem, b: bool)
    requires ValidProblem(p)
    ensures PathFrom(p, 0, b) == [b] && Cost(p, [b]) == Weight(p, 0, b) + Start(p, b)
  {
    hide Weight;
  }

  lemma CostSnoc(p: Problem, s: seq<bool>, b: bool)
    requires ValidProblem(p) && 1 <= |s| < |p.metric|
    ensures Cost(p, s + [b]) == Cost(p, s) + (if b != s[|s| - 1] then p.lambda else 0) + Weight(p, |s|, b)
  {
    hide Weight;
    assert (s + [b])[..|s|] == s;
  }

  /** Optimality: the flags the search ends with cost least of all sequences. */
  lemma TraceOptimal(p: Problem, b: bool, s: seq<bool>)
    requires ValidProblem(p) && |s| == |p.metric|
    requires Best(p, |p.metric| - 1, b) == Least(p)
    ensures Cost(p, PathFrom(p, |p.metric| - 1, b)) == Least(p) <= Cost(p, s)
  {
    hide Cost, Best, PathFrom;
    NoneBetter(p, s);
    TraceCost(p, |p.metric| - 1, b);
  }

  function BandCost(metric: int, importance: int, lm: nat, transient: bool, sel: bool, b: bool): int
    requires lm <= 3
  {
    importance * Abs(metric - 2 * Change(lm, transient, sel, b))
  }

  ghost function Posed(metric: array<int>, importance: array<int>, lambda: int, transient: bool, lm: nat,
                       sel: bool): Problem
    reads metric, importance
  {
    Problem(metric[..], importance[..], lambda, transient, lm, sel)
  }

  lemma BestFirst(p: Problem, b: bool)
    requires ValidProblem(p)
    ensures Best(p, 0, b) == BandCost(p.metric[0], p.importance[0], p.lm, p.transient, p.sel, b) + Start(p, b)
  {
  }

  lemma BestNext(p: Problem, i: nat, b: bool)
    requires ValidProblem(p) && 1 <= i < |p.metric|
    ensures Best(p, i, b) == Min(Best(p, i - 1, b), Best(p, i - 1, !b) + p.lambda) +
                             BandCost(p.metric[i], p.importance[i], p.lm, p.transient, p.sel, b)
  {
  }

  /** The first pass: the least cost under one value of tf_select. */
  method LeastCost(metric: array<int>, importance: array<int>, lambda: int, transient: bool, lm: nat, sel: bool)
    returns (cost0: int)
    requires metric.Length == importance.Length >= 1 && lm <= 3
    ensures cost0 == Least(Posed(metric, importance, lambda, transient, lm, sel))
  {
    ghost var p := Posed(metric, importance, lambda, transient, lm, sel);
    hide Best, BandCost;
    BestFirst(p, false);
    BestFirst(p, true);
    cost0 := BandCost(metric[0], importance[0], lm, transient, sel, false);
    var cost1 := BandCost(metric[0], importance[0], lm, transient, sel, true) + if transient then 0 else lambda;
    for i := 1 to metric.Length
      invariant cost0 == Best(p, i - 1, false) && cost1 == Best(p, i - 1, true)
    {
      BestNext(p, i, false);
      BestNext(p, i, true);
      var curr0 := Min(cost0, cost1 + lambda);
      var curr1 := Min(cost0 + lambda, cost1);
      cost0 := curr0 + BandCost(metric[i], importance[i], lm, transient, sel, false);
      cost1 := curr1 + BandCost(metric[i], importance[i], lm, transient, sel, true);
    }
    cost0 := Min(cost0, cost1);
  }

  ghost predicate Paths(p: Problem, path0: array<int>, path1: array<int>, n: nat)
    reads path0, path1
    requires ValidProblem(p) && n <= |p.metric|
  {
    && path0.Length == path1.Length == |p.metric|
    && forall i :: 1 <= i < n ==> path0[i] == Bit(Before(p, i, false)) && path1[i] == Bit(Before(p, i, true))
  }

  /** The forward pass, remembering where each running cost came from. */
  method Forward(metric: array<int>, importance: array<int>, lambda: int, transient: bool, lm: nat, sel: bool,
                 path0: array<int>, path1: array<int>) returns (cost0: int, cost1: int)
    requires metric.Length == importance.Length == path0.Length == path1.Length >= 1 && lm <= 3
    requires path0 != path1 && path0 != metric && path0 != importance && path1 != metric && path1 != importance
    modifies path0, path1
    ensures var p := Posed(metric, importance, lambda, transient, lm, sel);
      && cost0 == Best(p, |p.metric| - 1, false) && cost1 == Best(p, |p.metric| - 1, true)
      && Paths(p, path0, path1, |p.metric|)
  {
    ghost var p := Posed(metric, importance, lambda, transient, lm, sel);
    hide Best, BandCost;
    BestFirst(p, false);
    BestFirst(p, true);
    cost0 := BandCost(metric[0], importance[0], lm, transient, sel, false);
    cost1 := BandCost(metric[0], importance[0], lm, transient, sel, true) + if transient then 0 else lambda;
    for i := 1 to metric.Length
      invariant p == Posed(metric, importance, lambda, transient, lm, sel)
      invariant cost0 == Best(p, i - 1, false) && cost1 == Best(p, i - 1, true)
      invariant Paths(p, path0, path1, i)
    {
      BestNext(p, i, false);
      BestNext(p, i, true);
      var curr0, curr1;
      var from0 := cost0;
      var from1 := cost1 + lambda;
      if from0 < from1 {
        curr0 := from0;
        path0[i] := 0;
      } else {
        curr0 := from1;
        path0[i] := 1;
      }
      from0 := cost0 + lambda;
      from1 := cost1;
      if from0 < from1 {
        curr1 := from0;
        path1[i] := 0;
      } else {
        curr1 := from1;
        path1[i] := 1;
      }
      cost0 := curr0 + BandCost(metric[i], importance[i], lm, transient, sel, false);
      cost1 := curr1 + BandCost(metric[i], importance[i], lm, transient, sel, true);
    }
  }

  lemma TraceNext(p: Problem, i: nat, b: bool)
    requires ValidProblem(p) && 1 <= i < |p.metric|
    ensures PathFrom(p, i, b) == PathFrom(p, i - 1, Before(p, i, b)) + [b]
  {
  }

  /** The backward pass. */
  method Backward(ghost p: Problem, b: bool, path0: array<int>, path1: array<int>, tfRes: array<int>)
    requires ValidProblem(p) && Paths(p, path0, path1, |p.metric|) && tfRes.Length == |p.metric|
    requires tfRes != path0 && tfRes != path1
    modifies tfRes
    ensures HoldsFlags(tfRes, 0, PathFrom(p, |p.metric| - 1, b))
  {
    hide Best, PathFrom, Before;
    ghost var t := PathFrom(p, |p.metric| - 1, b);
    ghost var cur := t;
    var i: int := tfRes.Length - 1;
    tfRes[i] := Bit(b);
    while i > 0
      invariant 0 <= i < tfRes.Length && cur == t[..i + 1] && cur == PathFrom(p, i, cur[i])
      invariant forall j :: i <= j < tfRes.Length ==> tfRes[j] == Bit(t[j])
      invariant Paths(p, path0, path1, |p.metric|)
    {
      TraceNext(p, i, cur[i]);
      i := i - 1;
      assert cur[i] == t[i] == Before(p, i + 1, t[i + 1]) && cur[i + 1] == t[i + 1];
      assert tfRes[i + 1] == Bit(t[i + 1]);
      if tfRes[i + 1] == 1 {
        tfRes[i] := path1[i + 1];
      } else {
        tfRes[i] := path0[i + 1];
      }
      cur := cur[..i + 1];
    }
  }

  /** The last part of tf_analysis: the flags, and tf_select. */
  method TfSearch(metric: array<int>, importance: array<int>, lambda: int, transient: bool, lm: nat, tfRes: array<int>)
    returns (tfSelect: bool, ghost flags: seq<bool>)
    requires metric.Length == importance.Length == tfRes.Length >= 1 && lm <= 3
    requires tfRes != metric && tfRes != importance
    modifies tfRes
    ensures var p0 := Posed(metric, importance, lambda, transient, lm, false);
      var p1 := p0.(sel := true); var p := p0.(sel := tfSelect);
      && (tfSelect <==> transient && Least(p1) < Least(p0))
      && |flags| == tfRes.Length && HoldsFlags(tfRes, 0, flags)
      && Cost(p, flags) == Least(p)
      && forall s: seq<bool> | |s| == |flags| :: Cost(p, flags) <= Cost(p, s)
  {
    hide Cost, Best, PathFrom, Start, BandCost;
    var selcost0 := LeastCost(metric, importance, lambda, transient, lm, false);
    var selcost1 := LeastCost(metric, importance, lambda, transient, lm, true);
    tfSelect := selcost1 < selcost0 && transient;
    ghost var p := Posed(metric, importance, lambda, transient, lm, tfSelect);
    var path0, path1 := new int[metric.Length], new int[metric.Length];
    var cost0, cost1 := Forward(metric, importance, lambda, transient, lm, tfSelect, path0, path1);
    var last := !(cost0 < cost1);
    Backward(p, last, path0, path1, tfRes);
    flags := PathFrom(p, |p.metric| - 1, last);
    forall s: seq<bool> | |s| == |flags| ensures Cost(p, flags) == Least(p) <= Cost(p, s) {
      TraceOptimal(p, last, s);
    }
    TraceOptimal(p, last, flags);
  }
}
