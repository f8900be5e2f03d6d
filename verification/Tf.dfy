/** Coding of the time-frequency resolution flags under a bit budget. */
module Tf {
  import opened Arith
  import opened Interval
  import opened EntCode
  import opened Duplex

  const TF_SELECT_TABLE: seq<seq<int>> := [
    [0, -1, 0, -1, 0, -1, 0, -1],
    [0, -1, 0, -2, 1, 0, 1, -1],
    [0, -2, 0, -3, 2, 0, 1, -1],
    [0, -2, 0, -3, 3, 0, 1, -1]]

  /** The change of resolution for a flag under a table row. */
  function Change(lm: nat, transient: bool, sel: bool, flag: bool): int
    requires lm <= 3
  {
    TF_SELECT_TABLE[lm][(if transient then 4 else 0) + (if sel then 2 else 0) + (if flag then 1 else 0)]
  }

  /** Without a flag a long frame keeps its resolution, and a flag never raises it; a transient
      frame can regain at most the resolution that its short transforms gave up. */
  lemma ChangeRange(lm: nat, transient: bool, sel: bool)
    requires lm <= 3
    ensures -3 <= Change(lm, transient, sel, true) < Change(lm, transient, sel, false) <= lm
    ensures !transient ==> Change(lm, transient, sel, false) == 0
    ensures transient && !sel ==> Change(lm, transient, sel, false) == lm
    ensures transient && sel && lm > 0 ==> Change(lm, transient, sel, false) == 1
    ensures transient && sel ==> Change(lm, transient, sel, true) == -1
    ensures transient && !sel && lm > 0 ==> Change(lm, transient, sel, true) == 0
  {
  }

  /** The model of flag i. */
  function Logp(transient: bool, i: nat): (logp: nat)
    ensures 2 <= logp <= 5
  {
    if i == 0 then (if transient then 2 else 4) else if transient then 4 else 5
  }

  /** The setting of one frame: the span before the first flag and the whole budget. */
  datatype FlagSetting = FlagSetting(sp: Span, budget: int, transient: bool, lm: nat)

  predicate ValidFlagSetting(f: FlagSetting) { Proper(f.sp) && f.lm <= 3 }

  /** A bit is kept for tf_select when there is room for it and a flag. */
  predicate Reserved(f: FlagSetting) { f.lm > 0 && Tell(f.sp) + Logp(f.transient, 0) + 1 <= f.budget }

  function FlagBudget(f: FlagSetting): int { f.budget - if Reserved(f) then 1 else 0 }

  /** What has been coded after some flags, and the flags both sides then have. */
  datatype State = State(ops: seq<Op>, got: seq<bool>, changed: bool)

  function Curr(s: State): bool { |s.got| > 0 && s.got[|s.got| - 1] }

  /** After the first i wanted flags: each is coded as a change while it fits, and
      repeats the one before when it does not. */
  function After(f: FlagSetting, want: seq<bool>, i: nat): (s: State)
    requires ValidFlagSetting(f) && i <= |want|
    ensures AllLegal(s.ops) && |s.got| == i
  {
    if i == 0 then State([], [], false)
    else
      var s, logp := After(f, want, i - 1), Logp(f.transient, i - 1);
      if Tell(Run(f.sp, s.ops)) + logp <= FlagBudget(f) then
        State(s.ops + [BitOp(want[i - 1] != Curr(s), logp)], s.got + [want[i - 1]], s.changed || want[i - 1])
      else
        State(s.ops, s.got + [Curr(s)], s.changed)
  }

  /** tf_select is coded only where it makes a difference. */
  predicate SelectCoded(f: FlagSetting, changed: bool)
    requires ValidFlagSetting(f)
  {
    Reserved(f) && Change(f.lm, f.transient, false, changed) != Change(f.lm, f.transient, true, changed)
  }

  function TfOps(f: FlagSetting, want: seq<bool>, sel: bool): (ops: seq<Op>)
    requires ValidFlagSetting(f)
    ensures AllLegal(ops)
  {
    var s := After(f, want, |want|);
    s.ops + if SelectCoded(f, s.changed) then [BitOp(sel, 1)] else []
  }

  /** tf_res[] as both sides end up with it. */
  function Resolutions(f: FlagSetting, want: seq<bool>, sel: bool): (r: seq<int>)
    requires ValidFlagSetting(f)
    ensures |r| == |want|
  {
    var s := After(f, want, |want|);
    seq(|want|, i requires 0 <= i < |want| => Change(f.lm, f.transient, sel && SelectCoded(f, s.changed), s.got[i]))
  }

  // --------------------------------------------------------------- the budget

  lemma {:induction false} FlagsFit(f: FlagSetting, want: seq<bool>, i: nat)
    requires ValidFlagSetting(f) && i <= |want|
    ensures Tell(f.sp) <= Tell(Run(f.sp, After(f, want, i).ops)) <= Max(Tell(f.sp), FlagBudget(f))
  {
    hide Tell, Run, After, Logp, FlagBudget, BitOp;
    if i == 0 {
      AfterNone(f, want);
      RunNone(f.sp);
    } else {
      FlagsFit(f, want, i - 1);
      var s, logp := After(f, want, i - 1), Logp(f.transient, i - 1);
      var op := BitOp(want[i - 1] != Curr(s), logp);
      AfterNext(f, want, i - 1);
      RunSnoc(f.sp, s.ops, op);
      StepTell(Run(f.sp, s.ops), op, logp);
    }
  }

  /** With five bits a flag to spend every flag wanted is had. */
  lemma {:induction false} AllHad(f: FlagSetting, want: seq<bool>, i: nat)
    requires ValidFlagSetting(f) && i <= |want| && Tell(f.sp) + 5 * i <= FlagBudget(f)
    ensures After(f, want, i).got == want[..i] && Tell(Run(f.sp, After(f, want, i).ops)) <= Tell(f.sp) + 5 * i
    ensures After(f, want, i).changed == (exists k :: 0 <= k < i && want[k])
  {
    hide Tell, Run, After, FlagBudget, BitOp;
    if i == 0 {
      AfterNone(f, want);
      RunNone(f.sp);
    } else {
      AllHad(f, want, i - 1);
      var s, logp := After(f, want, i - 1), Logp(f.transient, i - 1);
      var op := BitOp(want[i - 1] != Curr(s), logp);
      AfterNext(f, want, i - 1);
      RunSnoc(f.sp, s.ops, op);
      StepTell(Run(f.sp, s.ops), op, logp);
    }
  }

  /** Whatever the flags, the bit count stays within the budget. */
  lemma FlagsWithinBudget(f: FlagSetting, want: seq<bool>, sel: bool)
    requires ValidFlagSetting(f)
    ensures Tell(Run(f.sp, TfOps(f, want, sel))) <= Max(Tell(f.sp), f.budget)
  {
    var s := After(f, want, |want|);
    FlagsFit(f, want, |want|);
    hide Tell, Run, After;
    if SelectCoded(f, s.changed) {
      RunSnoc(f.sp, s.ops, BitOp(sel, 1));
      assert Pow2(1) == 2;
      StepTell(Run(f.sp, s.ops), BitOp(sel, 1), 1);
    } else {
      assert s.ops + [] == s.ops;
    }
  }

  /** With seven bits to spare after the flags, they do not depend on the budget. */
  lemma {:induction false} AmpleFlags(f: FlagSetting, g: FlagSetting, want: seq<bool>, i: nat)
    requires ValidFlagSetting(f) && g == f.(budget := g.budget) && i <= |want|
    requires Tell(Run(f.sp, After(f, want, i).ops)) + 6 <= FlagBudget(f)
    requires Tell(Run(f.sp, After(f, want, i).ops)) + 6 <= FlagBudget(g)
    ensures After(g, want, i) == After(f, want, i)
  {
    hide Tell, Run, FlagBudget, BitOp, After;
    if i > 0 {
      var s, logp := After(f, want, i - 1), Logp(f.transient, i - 1);
      var op := BitOp(want[i - 1] != Curr(s), logp);
      AfterNext(f, want, i - 1);
      AfterNext(g, want, i - 1);
      RunSnoc(f.sp, s.ops, op);
      StepTellMono(Run(f.sp, s.ops), op);
      AmpleFlags(f, g, want, i - 1);
    } else {
      AfterNone(f, want);
      AfterNone(g, want);
    }
  }

  lemma AmpleSame(f: FlagSetting, g: FlagSetting, want: seq<bool>, sel: bool)
    requires ValidFlagSetting(f) && g == f.(budget := g.budget)
    requires Tell(Run(f.sp, TfOps(f, want, sel))) + 7 <= f.budget
    requires Tell(Run(f.sp, TfOps(f, want, sel))) + 7 <= g.budget
    ensures TfOps(g, want, sel) == TfOps(f, want, sel) && Resolutions(g, want, sel) == Resolutions(f, want, sel)
  {
    var s := After(f, want, |want|);
    SelectGrows(f, want, sel);
    RunTellMono(f.sp, s.ops);
    hide Tell, Run, After, BitOp;
    AmpleFlags(f, g, want, |want|);
  }

  lemma SelectGrows(f: FlagSetting, want: seq<bool>, sel: bool)
    requires ValidFlagSetting(f)
    ensures Tell(Run(f.sp, After(f, want, |want|).ops)) <= Tell(Run(f.sp, TfOps(f, want, sel)))
  {
    var s := After(f, want, |want|);
    hide Tell, Run, After;
    if SelectCoded(f, s.changed) {
      RunSnoc(f.sp, s.ops, BitOp(sel, 1));
      StepTellMono(Run(f.sp, s.ops), BitOp(sel, 1));
    } else {
      assert s.ops + [] == s.ops;
    }
  }

  // ----------------------------------------------------------------- lockstep

  lemma AfterCarried(buf: seq<byte>, f: FlagSetting, want: seq<bool>, i: nat)
    requires ValidFlagSetting(f) && i < |want| && Carries(buf, f.sp, After(f, want, i + 1).ops)
    ensures Carries(buf, f.sp, After(f, want, i).ops)
    ensures var s, logp := After(f, want, i), Logp(f.transient, i);
      Tell(Run(f.sp, s.ops)) + logp <= FlagBudget(f) ==>
        ReadsOp(buf, Run(f.sp, s.ops), BitOp(want[i] != Curr(s), logp))
  {
    var s, logp := After(f, want, i), Logp(f.transient, i);
    hide Carries, Tell, ReadsOp;
    CarriesSnoc(buf, f.sp, s.ops, BitOp(want[i] != Curr(s), logp));
  }

  lemma {:induction false} FlagsOnce(buf: seq<byte>, f: FlagSetting, v: seq<bool>, w: seq<bool>, i: nat)
    requires ValidFlagSetting(f) && i <= |v| && i <= |w|
    requires Carries(buf, f.sp, After(f, v, i).ops) && Carries(buf, f.sp, After(f, w, i).ops)
    ensures After(f, v, i) == After(f, w, i)
  {
    hide Carries, Tell, ReadsOp, Run;
    if i > 0 {
      AfterCarried(buf, f, v, i - 1);
      AfterCarried(buf, f, w, i - 1);
      FlagsOnce(buf, f, v, w, i - 1);
      var s, logp := After(f, v, i - 1), Logp(f.transient, i - 1);
      if Tell(Run(f.sp, s.ops)) + logp <= FlagBudget(f) {
        BitOnce(buf, Run(f.sp, s.ops), v[i - 1] != Curr(s), w[i - 1] != Curr(s), logp);
      }
    }
  }

  /** A packet supports one set of flags: what the encoder ends up with is what a
      decoder reads, whatever either wanted. */
  lemma TfOnce(buf: seq<byte>, f: FlagSetting, v: seq<bool>, selv: bool, w: seq<bool>, selw: bool)
    requires ValidFlagSetting(f) && |v| == |w|
    requires Carries(buf, f.sp, TfOps(f, v, selv)) && Carries(buf, f.sp, TfOps(f, w, selw))
    ensures Resolutions(f, v, selv) == Resolutions(f, w, selw) && TfOps(f, v, selv) == TfOps(f, w, selw)
  {
    SelectCarried(buf, f, v, selv);
    SelectCarried(buf, f, w, selw);
    FlagsOnce(buf, f, v, w, |v|);
    var s := After(f, v, |v|);
    hide Carries, Run, After, ReadsOp;
    if SelectCoded(f, s.changed) { BitOnce(buf, Run(f.sp, s.ops), selv, selw, 1); }
  }

  lemma SelectCarried(buf: seq<byte>, f: FlagSetting, v: seq<bool>, sel: bool)
    requires ValidFlagSetting(f) && Carries(buf, f.sp, TfOps(f, v, sel))
    ensures var s := After(f, v, |v|);
      && Carries(buf, f.sp, s.ops)
      && (SelectCoded(f, s.changed) ==> ReadsOp(buf, Run(f.sp, s.ops), BitOp(sel, 1)))
  {
    var s := After(f, v, |v|);
    hide Carries, Run, After, ReadsOp;
    CarriesSnoc(buf, f.sp, s.ops, BitOp(sel, 1));
    assert s.ops + [] == s.ops;
  }

  // ------------------------------------------------------------- the routines

  function Flag(x: int): bool { x != 0 }

  function Bit(b: bool): int { if b then 1 else 0 }

  ghost predicate HoldsFlags(a: array<int>, start: nat, s: seq<bool>)
    reads a
  {
    start + |s| <= a.Length && forall i :: 0 <= i < |s| ==> a[start + i] == Bit(s[i])
  }

  lemma ApplyFacts(a: array<int>, start: nat, f: FlagSetting, want: seq<bool>, coded: bool, sel: bool)
    requires ValidFlagSetting(f) && HoldsFlags(a, start, After(f, want, |want|).got)
    requires coded == (sel && SelectCoded(f, After(f, want, |want|).changed))
    ensures var got := After(f, want, |want|).got;
      && |got| == |want| == |Resolutions(f, want, sel)| && start + |got| <= a.Length
      && (forall j :: start <= j < start + |got| ==> a[j] == Bit(got[j - start]))
      && (forall j :: 0 <= j < |got| ==> Resolutions(f, want, sel)[j] == Change(f.lm, f.transient, coded, got[j]))
  {
    var got := After(f, want, |want|).got;
    hide SelectCoded, Change, After;
    forall j | start <= j < start + |got| ensures a[j] == Bit(got[j - start]) {
      assert a[start + (j - start)] == Bit(got[j - start]);
    }
  }

  /** The last loop of both routines: flags become changes of resolution. */
  method Apply(tfRes: array<int>, start: nat, end: nat, lm: nat, transient: bool, coded: bool,
               ghost f: FlagSetting, ghost want: seq<bool>, ghost sel: bool)
    requires ValidFlagSetting(f) && f.lm == lm && f.transient == transient && start <= end <= tfRes.Length
    requires |want| == end - start
    requires HoldsFlags(tfRes, start, After(f, want, |want|).got)
    requires coded == (sel && SelectCoded(f, After(f, want, |want|).changed))
    modifies tfRes
    ensures tfRes[start..end] == Resolutions(f, want, sel)
  {
    hide *;
    ApplyFacts(tfRes, start, f, want, coded, sel);
    ghost var got, out := After(f, want, |want|).got, Resolutions(f, want, sel);
    ValidLm(f);
    ApplyAll(tfRes, start, end, lm, transient, coded, got, out);
  }

  method ApplyAll(tfRes: array<int>, start: nat, end: nat, lm: nat, transient: bool, coded: bool,
                  ghost got: seq<bool>, ghost out: seq<int>)
    requires lm <= 3 && start <= end <= tfRes.Length && |got| == |out| == end - start
    requires forall j :: start <= j < end ==> tfRes[j] == Bit(got[j - start])
    requires forall j :: 0 <= j < end - start ==> out[j] == Change(lm, transient, coded, got[j])
    modifies tfRes
    ensures tfRes[start..end] == out
  {
    hide *;
    for i := start to end
      invariant forall j :: start <= j < i ==> tfRes[j] == out[j - start]
      invariant forall j :: i <= j < end ==> tfRes[j] == Bit(got[j - start])
    {
      FlagBit(got[i - start]);
      tfRes[i] := Change(lm, transient, coded, Flag(tfRes[i]));
    }
  }

  lemma ValidLm(f: FlagSetting)
    requires ValidFlagSetting(f)
    ensures f.lm <= 3
  {
  }

  lemma FlagBit(b: bool)
    ensures Flag(Bit(b)) == b
  {
  }

  lemma AfterNext(f: FlagSetting, want: seq<bool>, i: nat)
    requires ValidFlagSetting(f) && i < |want|
    ensures After(f, want, i + 1) == (
      var s, logp := After(f, want, i), Logp(f.transient, i);
      if Tell(Run(f.sp, s.ops)) + logp <= FlagBudget(f) then
        State(s.ops + [BitOp(want[i] != Curr(s), logp)], s.got + [want[i]], s.changed || want[i])
      else State(s.ops, s.got + [Curr(s)], s.changed))
  {
    hide Tell, Run;
  }

  lemma {:induction false} AfterPrefix(f: FlagSetting, want: seq<bool>, x: bool, i: nat)
    requires ValidFlagSetting(f) && i <= |want|
    ensures After(f, want + [x], i) == After(f, want, i)
  {
    hide Tell, Run, After;
    if i > 0 {
      AfterPrefix(f, want, x, i - 1);
      AfterNext(f, want, i - 1);
      AfterNext(f, want + [x], i - 1);
    } else {
      AfterNone(f, want);
      AfterNone(f, want + [x]);
    }
  }

  lemma AfterNone(f: FlagSetting, want: seq<bool>)
    requires ValidFlagSetting(f)
    ensures After(f, want, 0) == State([], [], false)
  {
  }

  /** The span after `s` more steps than `steps`. */
  lemma TellAfter(ec: EcCtx, encode: bool, from: Origin, steps: seq<Op>, sp: Span, ops: seq<Op>)
    requires Proper(from.sp) && AllLegal(steps) && AllLegal(ops) && sp == Run(from.sp, steps)
    requires At(ec, encode, from, steps + ops)
    ensures ec.EcTell() == Tell(Run(sp, ops))
  {
    hide Run, Tell, At;
    RunConcat(from.sp, steps, ops);
    TellAt(ec, encode, from, steps + ops);
  }

  /** Coder and locals after some flags. */
  ghost predicate FlagsDone(ec: EcCtx, encode: bool, from: Origin, steps: seq<Op>, f: FlagSetting, s: State, tell: int,
                         curr: bool, changed: bool)
    reads ec, ec.buf
  {
    && Proper(from.sp) && AllLegal(steps) && AllLegal(s.ops) && ValidFlagSetting(f) && f.sp == Run(from.sp, steps)
    && At(ec, encode, from, steps + s.ops) && tell == Tell(Run(f.sp, s.ops))
    && curr == Curr(s) && changed == s.changed
  }

  lemma CodingStart(ec: EcCtx, encode: bool, from: Origin, steps: seq<Op>, f: FlagSetting, want: seq<bool>)
    requires At(ec, encode, from, steps) && f.lm <= 3 && f.sp == Run(from.sp, steps)
    ensures Proper(f.sp)
    ensures FlagsDone(ec, encode, from, steps, f, After(f, want, 0), ec.EcTell(), false, false)
    ensures ec.EcTell() == Tell(f.sp)
  {
    TellAt(ec, encode, from, steps);
    assert steps + [] == steps;
    AfterNone(f, want);
    hide Tell, At;
  }

  /** One flag of either routine; the decoder ignores `v`. */
  method CodeFlag(ec: EcCtx, encode: bool, v: bool, logp: nat, tell0: int, curr0: bool, changed0: bool,
                  ghost from: Origin, ghost steps: seq<Op>, ghost f: FlagSetting, ghost s: State)
    returns (tell: int, curr: bool, changed: bool)
    requires FlagsDone(ec, encode, from, steps, f, s, tell0, curr0, changed0) && 2 <= logp <= 5
    modifies ec, ec.buf
    ensures FlagsDone(ec, encode, from, steps, f,
                   State(s.ops + [BitOp(curr != curr0, logp)], s.got + [curr], s.changed || curr), tell, curr, changed)
    ensures (encode ==> curr == v) && ec.storage == old(ec.storage)
  {
    hide Run, Tell, At;
    var r := CodeBit(ec, encode, v != curr0, logp, from, steps + s.ops);
    OpsAssoc(steps, s.ops, [BitOp(r, logp)]);
    curr := curr0 != r;
    changed := changed0 || curr;
    TellAfter(ec, encode, from, steps, f.sp, s.ops + [BitOp(r, logp)]);
    tell := ec.EcTell();
  }

  /** tf_select, coded or read if it is kept and makes a difference. */
  method CodeSelect(ec: EcCtx, encode: bool, v: bool, rsv: bool, lm: nat, transient: bool, tell: int, curr: bool,
                    changed: bool, ghost from: Origin, ghost steps: seq<Op>, ghost f: FlagSetting,
                      ghost want: seq<bool>)
    returns (sel: bool, ghost chosen: bool)
    requires Proper(f.sp) && lm == f.lm <= 3 && transient == f.transient && rsv == Reserved(f)
    requires FlagsDone(ec, encode, from, steps, f, After(f, want, |want|), tell, curr, changed)
    modifies ec, ec.buf
    ensures At(ec, encode, from, steps + TfOps(f, want, chosen)) && (encode ==> chosen == v)
    ensures sel == (chosen && SelectCoded(f, After(f, want, |want|).changed))
    ensures ec.storage == old(ec.storage)
  {
    hide Run, Tell, At, After, Change, Reserved;
    ghost var s := After(f, want, |want|);
    sel, chosen := false, v;
    if rsv && Change(lm, transient, false, changed) != Change(lm, transient, true, changed) {
      sel := CodeBit(ec, encode, v, 1, from, steps + s.ops);
      OpsAssoc(steps, s.ops, [BitOp(sel, 1)]);
      chosen := sel;
    } else {
      assert s.ops + [] == s.ops;
    }
  }

  lemma CodingIs(ec: EcCtx, encode: bool, from: Origin, steps: seq<Op>, f: FlagSetting, s: State, tell: int, curr: bool,
                 changed: bool)
    requires FlagsDone(ec, encode, from, steps, f, s, tell, curr, changed)
    ensures ValidFlagSetting(f) && AllLegal(s.ops) && tell == Tell(Run(f.sp, s.ops)) && curr == Curr(s)
  {
  }

  lemma CodingRepeats(ec: EcCtx, encode: bool, from: Origin, steps: seq<Op>, f: FlagSetting, s: State, tell: int,
                      curr: bool, changed: bool)
    requires FlagsDone(ec, encode, from, steps, f, s, tell, curr, changed)
    ensures FlagsDone(ec, encode, from, steps, f, State(s.ops, s.got + [Curr(s)], s.changed), tell, curr, changed)
  {
    hide Run, Tell, At;
  }

  /** The flags the encoder has not reached yet. */
  ghost predicate Wanted(a: array<int>, start: nat, want: seq<bool>, i: nat)
    reads a
  {
    start + |want| <= a.Length && forall j :: i <= j < |want| ==> a[start + j] == Bit(want[j])
  }

  lemma WantedHead(a: array<int>, start: nat, want: seq<bool>, i: nat, got: seq<bool>)
    requires Wanted(a, start, want, i) && i < |want| && HoldsFlags(a, start, got) && |got| == i
    ensures a[start + i] == Bit(want[i]) && Wanted(a, start, want, i + 1) && HoldsFlags(a, start, got + [want[i]])
  {
  }

  method PutFlag(a: array<int>, start: nat, i: nat, b: bool, ghost want: seq<bool>, ghost got: seq<bool>)
    requires HoldsFlags(a, start, got) && start + |got| == i < a.Length
    modifies a
    ensures HoldsFlags(a, start, got + [b])
    ensures old(Wanted(a, start, want, |got|)) ==> Wanted(a, start, want, |got| + 1)
  {
    a[i] := Bit(b);
  }

  /** One turn of tf_encode's loop. */
  method EncodeFlag(start: nat, i: nat, tfRes: array<int>, logp: nat, budget: int, enc: EcCtx, tell0: int, curr0: bool,
                    changed0: bool, ghost want: seq<bool>, ghost from: Origin, ghost steps: seq<Op>,
                      ghost f: FlagSetting)
    returns (tell: int, curr: bool, changed: bool)
    requires start <= i < start + |want| && Proper(f.sp) && f.lm <= 3 && budget == FlagBudget(f)
    requires logp == Logp(f.transient, i - start)
    requires FlagsDone(enc, true, from, steps, f, After(f, want, i - start), tell0, curr0, changed0)
    requires HoldsFlags(tfRes, start, After(f, want, i - start).got) && Wanted(tfRes, start, want, i - start)
    modifies tfRes, enc, enc.buf
    ensures FlagsDone(enc, true, from, steps, f, After(f, want, i - start + 1), tell, curr, changed)
    ensures HoldsFlags(tfRes, start, After(f, want, i - start + 1).got) && Wanted(tfRes, start, want, i - start + 1)
    ensures enc.storage == old(enc.storage)
  {
    hide Run, Tell, At, After, FlagsDone, HoldsFlags, Wanted, Reserved;
    ghost var s := After(f, want, i - start);
    AfterNext(f, want, i - start);
    CodingIs(enc, true, from, steps, f, s, tell0, curr0, changed0);
    WantedHead(tfRes, start, want, i - start, s.got);
    if tell0 + logp <= budget {
      tell, curr, changed := CodeFlag(enc, true, Flag(tfRes[i]), logp, tell0, curr0, changed0, from, steps, f, s);
    } else {
      tell, curr, changed := tell0, curr0, changed0;
      CodingRepeats(enc, true, from, steps, f, s, tell, curr, changed);
      PutFlag(tfRes, start, i, curr, want, s.got);
    }
  }

  /** What both routines work out first. */
  method Reserve(ec: EcCtx, encode: bool, transient: bool, lm: nat, ghost from: Origin, ghost steps: seq<Op>,
                 ghost f: FlagSetting)
    returns (budget: int, tell: int, rsv: bool)
    requires At(ec, encode, from, steps) && lm <= 3
    requires f == FlagSetting(Run(from.sp, steps), 8 * ec.storage, transient, lm)
    ensures Proper(f.sp) && FlagsDone(ec, encode, from, steps, f, After(f, [], 0), tell, false, false)
    ensures tell == ec.EcTell() == Tell(f.sp) && rsv == Reserved(f) && budget == FlagBudget(f)
  {
    CodingStart(ec, encode, from, steps, f, []);
    hide Run, Tell, At, After, FlagsDone;
    budget := 8 * ec.storage;
    tell := ec.EcTell();
    var logp := if transient then 2 else 4;
    rsv := lm > 0 && tell + logp + 1 <= budget;
    budget := budget - if rsv then 1 else 0;
  }

  /** tf_encode */
  method TfEncode(start: nat, end: nat, transient: bool, tfRes: array<int>, lm: nat, tfSelect: bool, enc: EcCtx,
                  ghost want: seq<bool>, ghost from: Origin, ghost steps: seq<Op>, ghost f: FlagSetting)
    requires start <= end && |want| == end - start && HoldsFlags(tfRes, start, want) && At(enc, true, from, steps)
    requires lm <= 3 && f == FlagSetting(Run(from.sp, steps), 8 * enc.storage, transient, lm)
    modifies tfRes, enc, enc.buf
    ensures At(enc, true, from, steps + TfOps(f, want, tfSelect))
    ensures tfRes[start..end] == Resolutions(f, want, tfSelect)
    ensures enc.storage == old(enc.storage)
  {
    hide *;
    FlagsStart(tfRes, start, want);
    Logps(transient);
    var budget, tell, rsv := Reserve(enc, true, transient, lm, from, steps, f);
    var logp := if transient then 2 else 4;
    var curr, changed := false, false;
    ValidIs(f);
    AfterNone(f, []);
    AfterNone(f, want);
    for i := start to end
      invariant FlagsDone(enc, true, from, steps, f, After(f, want, i - start), tell, curr, changed)
      invariant HoldsFlags(tfRes, start, After(f, want, i - start).got) && Wanted(tfRes, start, want, i - start)
      invariant logp == Logp(transient, i - start) && enc.storage == old(enc.storage)
    {
      tell, curr, changed := EncodeFlag(start, i, tfRes, logp, budget, enc, tell, curr, changed, want, from, steps, f);
      logp := if transient then 4 else 5;
    }
    FlagsLength(tfRes, start, want, |want|);
    var sel;
    ghost var chosen;
    sel, chosen := CodeSelect(enc, true, tfSelect, rsv, lm, transient, tell, curr, changed, from, steps, f, want);
    Apply(tfRes, start, end, lm, transient, sel, f, want, chosen);
  }

  lemma AtPlaced(ec: EcCtx, encode: bool, from: Origin, steps: seq<Op>)
    requires At(ec, encode, from, steps)
    ensures Proper(from.sp) && AllLegal(steps)
  {
    hide Carries, EcCtx.ValidEnc, EcCtx.ValidDec, Run;
  }

  lemma LegalHead(a: seq<Op>, b: seq<Op>)
    requires AllLegal(a + b)
    ensures AllLegal(a)
  {
    forall i | 0 <= i < |a| ensures Legal(a[i]) { assert (a + b)[i] == a[i]; }
  }

  lemma NoFlags(a: array<int>, start: nat)
    requires start <= a.Length
    ensures HoldsFlags(a, start, [])
  {
  }

  lemma Logps(transient: bool)
    ensures Logp(transient, 0) == if transient then 2 else 4
    ensures forall i :: i > 0 ==> Logp(transient, i) == if transient then 4 else 5
  {
  }

  lemma ValidIs(f: FlagSetting)
    requires Proper(f.sp) && f.lm <= 3
    ensures ValidFlagSetting(f)
  {
  }

  lemma FlagsStart(a: array<int>, start: nat, want: seq<bool>)
    requires HoldsFlags(a, start, want)
    ensures Wanted(a, start, want, 0) && HoldsFlags(a, start, [])
  {
  }

  lemma FlagsLength(a: array<int>, start: nat, want: seq<bool>, i: nat)
    requires Wanted(a, start, want, i)
    ensures start + |want| <= a.Length
  {
  }

  /** One turn of tf_decode's loop. */
  method DecodeFlag(start: nat, i: nat, tfRes: array<int>, logp: nat, budget: int, dec: EcCtx, tell0: int, curr0: bool,
                    changed0: bool, ghost want0: seq<bool>, ghost from: Origin, ghost steps: seq<Op>,
                      ghost f: FlagSetting)
    returns (tell: int, curr: bool, changed: bool, ghost want: seq<bool>)
    requires i == start + |want0| < tfRes.Length && Proper(f.sp) && f.lm <= 3 && budget == FlagBudget(f)
    requires logp == Logp(f.transient, |want0|)
    requires FlagsDone(dec, false, from, steps, f, After(f, want0, |want0|), tell0, curr0, changed0)
    requires HoldsFlags(tfRes, start, After(f, want0, |want0|).got)
    modifies tfRes, dec, dec.buf
    ensures |want| == |want0| + 1
    ensures FlagsDone(dec, false, from, steps, f, After(f, want, |want|), tell, curr, changed)
    ensures HoldsFlags(tfRes, start, After(f, want, |want|).got) && dec.storage == old(dec.storage)
  {
    hide Run, Tell, At, After, FlagsDone, HoldsFlags, Reserved;
    ghost var s, n := After(f, want0, |want0|), |want0|;
    CodingIs(dec, false, from, steps, f, s, tell0, curr0, changed0);
    tell, curr, changed := tell0, curr0, changed0;
    if tell + logp <= budget {
      tell, curr, changed := CodeFlag(dec, false, false, logp, tell, curr, changed, from, steps, f, s);
    } else {
      CodingRepeats(dec, false, from, steps, f, s, tell, curr, changed);
    }
    want := want0 + [curr];
    AfterPrefix(f, want0, curr, n);
    AfterNext(f, want, n);
    PutFlag(tfRes, start, i, curr, [], s.got);
  }

  /** tf_decode: `want` and `chosen` are what it read. */
  method TfDecode(start: nat, end: nat, transient: bool, tfRes: array<int>, lm: nat, dec: EcCtx,
                  ghost from: Origin, ghost steps: seq<Op>, ghost f: FlagSetting)
                    returns (ghost want: seq<bool>, ghost chosen: bool)
    requires start <= end <= tfRes.Length && At(dec, false, from, steps)
    requires lm <= 3 && f == FlagSetting(Run(from.sp, steps), 8 * dec.storage, transient, lm)
    modifies tfRes, dec, dec.buf
    ensures |want| == end - start && At(dec, false, from, steps + TfOps(f, want, chosen))
    ensures tfRes[start..end] == Resolutions(f, want, chosen)
    ensures dec.storage == old(dec.storage)
    ensures dec.EcTell() <= Max(old(dec.EcTell()), 8 * dec.storage)
  {
    hide *;
    NoFlags(tfRes, start);
    Logps(transient);
    var budget, tell, rsv := Reserve(dec, false, transient, lm, from, steps, f);
    var logp := if transient then 2 else 4;
    var curr, changed := false, false;
    want := [];
    ValidIs(f);
    AfterNone(f, []);
    for i := start to end
      invariant |want| == i - start
      invariant FlagsDone(dec, false, from, steps, f, After(f, want, |want|), tell, curr, changed)
      invariant HoldsFlags(tfRes, start, After(f, want, |want|).got)
      invariant logp == Logp(transient, i - start) && dec.storage == old(dec.storage)
    {
      tell, curr, changed, want := DecodeFlag(start, i, tfRes, logp, budget, dec, tell, curr, changed, want, from,
                                              steps, f);
      logp := if transient then 4 else 5;
    }
    var sel;
    sel, chosen := CodeSelect(dec, false, false, rsv, lm, transient, tell, curr, changed, from, steps, f, want);
    FlagsWithinBudget(f, want, chosen);
    AtPlaced(dec, false, from, steps + TfOps(f, want, chosen));
    LegalHead(steps, TfOps(f, want, chosen));
    TellAfter(dec, false, from, steps, f.sp, TfOps(f, want, chosen));
    Apply(tfRes, start, end, lm, transient, sel, f, want, chosen);
  }
}
