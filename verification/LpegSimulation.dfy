/** Runs of one code replayed by another: the facts behind the peephole rewrites. */
module LpegSimulation {
  import opened LpegMachine
  import opened LpegCombinators

  // ---------- runs that stay above an index ----------

  predicate StackFrom(stk: Stack, k: int) {
    match stk
    case Empty => true
    case Push(f, below) => f.pc >= k && StackFrom(below, k)
  }

  predicate StateFrom(st: State, k: int) { st.Run? ==> st.pc >= k && StackFrom(st.stack, k) }

  /** No instruction from index k on leads below k. */
  predicate ClearFrom(c: Code, k: int) {
    forall i :: 0 <= i < |c| && k <= i && HasTarget(c[i]) ==> Dest(c, i) >= k
  }

  lemma BacktrackFrom(stk: Stack, caps: seq<Capture>, k: int)
    requires StackFrom(stk, k)
    ensures StateFrom(Backtrack(stk, caps), k)
    ensures stk.Push? ==> StackFrom(stk.below, k) && stk.top.pc >= k && StateFrom(Backtrack(stk.below, caps), k)
  {
    if stk.Push? && stk.below.Push? {
      assert StackFrom(stk.below.below, k);
    }
  }

  lemma StepFrom(c: Code, subj: Subject, st: State, k: int)
    requires ClearFrom(c, k) && StateFrom(st, k)
    ensures StateFrom(Step(c, subj, st), k)
  {
    if !Halted(c, st) {
      BacktrackFrom(st.stack, st.caps, k);
      if HasTarget(c[st.pc]) {
        assert Dest(c, st.pc) >= k;
      }
    }
  }

  /** Two codes that agree from index k on run alike from there. */
  lemma {:induction false} AgreeFrom(c: Code, d: Code, k: int, subj: Subject, st: State, n: nat)
    requires |c| == |d| && 0 <= k <= |c| && c[k..] == d[k..]
    requires ClearFrom(c, k) && StateFrom(st, k)
    ensures RunN(c, subj, st, n) == RunN(d, subj, st, n)
    decreases n
  {
    if n > 0 {
      if !Halted(c, st) {
        assert c[st.pc] == c[k..][st.pc - k] == d[k..][st.pc - k] == d[st.pc];
      }
      assert Step(c, subj, st) == Step(d, subj, st);
      StepFrom(c, subj, st, k);
      AgreeFrom(c, d, k, subj, Step(c, subj, st), n - 1);
    }
  }

  lemma AgreeReach(c: Code, d: Code, k: int, subj: Subject, a: State, b: State)
    requires |c| == |d| && 0 <= k <= |c| && c[k..] == d[k..]
    requires ClearFrom(c, k) && StateFrom(a, k)
    requires Reaches(c, subj, a, b)
    ensures Reaches(d, subj, a, b)
  {
    var n: nat :| RunN(c, subj, a, n) == b;
    AgreeFrom(c, d, k, subj, a, n);
  }

  // ---------- the rest of a code run on its own ----------

  function ShiftStack(stk: Stack, off: int): Stack {
    match stk
    case Empty => Empty
    case Push(f, below) => Push(Frame(off + f.pc, f.s, f.caplevel), ShiftStack(below, off))
  }

  function Shift(st: State, off: int): State {
    match st
    case Run(pc, s, stk, caps) => Run(off + pc, s, ShiftStack(stk, off), caps)
    case _ => st
  }

  lemma SuffixClear(c: Code, off: nat)
    requires off <= |c| && ClearFrom(c, off)
    ensures ClearFrom(c[off..], 0)
  {
    forall i | 0 <= i < |c[off..]| && HasTarget(c[off..][i])
      ensures Dest(c[off..], i) >= 0
    {
      assert c[off..][i] == c[off + i];
      assert Dest(c, off + i) >= off;
    }
  }

  lemma ShiftBacktrack(stk: Stack, caps: seq<Capture>, off: int)
    ensures Backtrack(ShiftStack(stk, off), caps) == Shift(Backtrack(stk, caps), off)
  {
  }

  lemma SuffixStep(c: Code, off: nat, subj: Subject, a: State)
    requires off <= |c| && StateFrom(a, 0)
    ensures Step(c, subj, Shift(a, off)) == Shift(Step(c[off..], subj, a), off)
  {
    hide Perform;
    if a.Run? && a.pc < |c[off..]| {
      assert c[off..][a.pc] == c[off + a.pc];
      PerformShifted(c[off + a.pc], a.pc, off, subj, a.s, a.stack, a.caps);
    }
  }

  lemma PerformShifted(i: Inst, pc: int, off: int, subj: Subject, s: int, stk: Stack, caps: seq<Capture>)
    ensures Perform(i, off + pc, off + pc + 1, subj, s, ShiftStack(stk, off), caps) == Shift(Perform(i, pc, pc + 1, subj, s, stk, caps), off)
  {
    hide Perform, Shift, ShiftStack;
    if i.FullCapture? || IsMovable(i) {
      CapturePerformed(i, pc, off, subj, s, stk, caps);
    } else if IsCheckOp(i) {
      CheckPerformed(i, pc, off, subj, s, stk, caps);
    } else {
      OtherPerformed(i, pc, off, subj, s, stk, caps);
    }
  }

  lemma CapturePerformed(i: Inst, pc: int, off: int, subj: Subject, s: int, stk: Stack, caps: seq<Capture>)
    requires i.FullCapture? || IsMovable(i)
    ensures Perform(i, off + pc, off + pc + 1, subj, s, ShiftStack(stk, off), caps) == Shift(Perform(i, pc, pc + 1, subj, s, stk, caps), off)
  {
    hide Backtrack, CaptureStep, SpanEnd, Passes, ShiftStack;
    CaptureShifted(i, s, off, stk, caps);
  }

  lemma CheckPerformed(i: Inst, pc: int, off: int, subj: Subject, s: int, stk: Stack, caps: seq<Capture>)
    requires IsCheckOp(i)
    ensures Perform(i, off + pc, off + pc + 1, subj, s, ShiftStack(stk, off), caps) == Shift(Perform(i, pc, pc + 1, subj, s, stk, caps), off)
  {
    hide Backtrack, CaptureStep, SpanEnd, Passes, ShiftStack;
    ShiftBacktrack(stk, caps, off);
  }

  lemma OtherPerformed(i: Inst, pc: int, off: int, subj: Subject, s: int, stk: Stack, caps: seq<Capture>)
    requires !(i.FullCapture? || IsMovable(i)) && !IsCheckOp(i)
    ensures Perform(i, off + pc, off + pc + 1, subj, s, ShiftStack(stk, off), caps) == Shift(Perform(i, pc, pc + 1, subj, s, stk, caps), off)
  {
    hide Backtrack, CaptureStep, SpanEnd, Passes;
    ShiftBacktrack(stk, caps, off);
    if stk.Push? { ShiftBacktrack(stk.below, caps, off); }
  }

  lemma CaptureShifted(i: Inst, s: int, off: int, stk: Stack, caps: seq<Capture>)
    requires i.FullCapture? || IsMovable(i)
    ensures CaptureStep(i, s, ShiftStack(stk, off), caps) == CaptureStep(i, s, stk, caps)
  {
  }

  lemma {:induction false} SuffixRun(c: Code, off: nat, subj: Subject, a: State, n: nat)
    requires off <= |c| && ClearFrom(c, off) && StateFrom(a, 0)
    ensures RunN(c, subj, Shift(a, off), n) == Shift(RunN(c[off..], subj, a, n), off)
    decreases n
  {
    if n > 0 {
      SuffixStep(c, off, subj, a);
      SuffixClear(c, off);
      StepFrom(c[off..], subj, a, 0);
      SuffixRun(c, off, subj, Step(c[off..], subj, a), n - 1);
    }
  }

  lemma AfterFirstStep(c: Code, subj: Subject, s: int, r: Outcome)
    requires c != [] && Exec(c, subj, s, r)
    ensures Reaches(c, subj, Step(c, subj, Start(s)), Final(c, r))
  {
    var n: nat :| RunN(c, subj, Start(s), n) == Final(c, r);
    assert n > 0;
    assert RunN(c, subj, Step(c, subj, Start(s)), n - 1) == Final(c, r);
  }

  lemma CheckFails(c: Code, subj: Subject, s: int, r: Outcome)
    requires StartsWithCheck(c) && Exec(c, subj, s, r) && !Passes(c[0], subj, s)
    ensures r == NoMatch
  {
    AfterFirstStep(c, subj, s, r);
    ReachRefl(c, subj, Failed);
    ReachUnique(c, subj, Failed, Failed, Final(c, r));
  }

  lemma CheckPasses(c: Code, subj: Subject, s: int, r: Outcome)
    requires StartsWithCheck(c) && ClearFrom(c, 1) && Exec(c, subj, s, r) && Passes(c[0], subj, s)
    ensures Exec(c[1..], subj, s + OpStep(c[0]), r)
  {
    AfterFirstStep(c, subj, s, r);
    var t := Start(s + OpStep(c[0]));
    assert Step(c, subj, Start(s)) == Shift(t, 1);
    var n: nat :| RunN(c, subj, Shift(t, 1), n) == Final(c, r);
    SuffixRun(c, 1, subj, t, n);
    var b := RunN(c[1..], subj, t, n);
    assert Shift(b, 1) == Final(c, r);
    assert b == Final(c[1..], r);
  }

  /** When the check that starts a code passes, the rest of the code gives the outcome. */
  lemma TailExec(c: Code, subj: Subject, s: int, r: Outcome)
    requires StartsWithCheck(c) && ClearFrom(c, 1) && Exec(c, subj, s, r)
    ensures !Passes(c[0], subj, s) ==> r == NoMatch
    ensures Passes(c[0], subj, s) ==> Exec(c[1..], subj, s + OpStep(c[0]), r)
  {
    if Passes(c[0], subj, s) { CheckPasses(c, subj, s, r); } else { CheckFails(c, subj, s, r); }
  }

  // ---------- code that cannot fail ----------

  lemma {:induction false} NoFailRun(c: Code, subj: Subject, a: State, n: nat)
    requires AllNoFail(c)
    requires a.Run? && a.stack.Empty?
    ensures !RunN(c, subj, a, n).Failed?
    decreases n
  {
    if n > 0 {
      var a1 := Step(c, subj, a);
      if a1 == Stuck {
        StuckStays(c, subj, n - 1);
      } else {
        NoFailRun(c, subj, a1, n - 1);
      }
    }
  }

  lemma NoFailExec(c: Code, subj: Subject, s: int, r: Outcome)
    requires AllNoFail(c) && Exec(c, subj, s, r)
    ensures r.Match?
  {
    var n: nat :| RunN(c, subj, Start(s), n) == Final(c, r);
    NoFailRun(c, subj, Start(s), n);
  }

  /** A head-fail code fails exactly when its first check does. */
  lemma HeadFailExec(c: Code, subj: Subject, s: int, r: Outcome)
    requires IsHeadFail(c) && ClearFrom(c, 1) && Exec(c, subj, s, r)
    ensures r.Match? <==> Passes(c[0], subj, s)
  {
    TailExec(c, subj, s, r);
    if Passes(c[0], subj, s) {
      NoFailExec(c[1..], subj, s + OpStep(c[0]), r);
    }
  }

  // ---------- captures moved over checks ----------

  predicate OutsidePc(pc: int, start: int, end: int) { !(start < pc <= end) }

  predicate StackOutside(stk: Stack, start: int, end: int) {
    match stk
    case Empty => true
    case Push(f, below) => OutsidePc(f.pc, start, end) && StackOutside(below, start, end)
  }

  /** Pending choices count in no more captures than there are, older ones no more than younger. */
  predicate LevelsOk(stk: Stack, m: nat) {
    match stk
    case Empty => true
    case Push(f, below) => f.caplevel <= m && LevelsOk(below, f.caplevel)
  }

  predicate SliceState(st: State, start: int, end: int) {
    st.Run? ==> OutsidePc(st.pc, start, end) && StackOutside(st.stack, start, end) && LevelsOk(st.stack, |st.caps|)
  }

  function TotalStep(checks: Code): nat {
    if checks == [] then 0 else OpStep(checks[0]) + TotalStep(checks[1..])
  }

  /** Captures at start..i and checks at i+1..end that take n bytes. */
  predicate SliceShape(c: Code, start: nat, i: nat, end: nat, n: nat) {
    && start <= i < end < |c|
    && (forall j :: start <= j <= i ==> IsMovable(c[j]))
    && (forall j :: i < j <= end ==> IsCheck(c[j]))
    && n == TotalStep(c[i + 1..end + 1])
  }

  /** Such a slice with nothing leading between its instructions. */
  predicate IsSlice(c: Code, start: nat, i: nat, end: nat, n: nat) {
    && SliceShape(c, start, i, end, n)
    && (forall j :: 0 <= j < |c| && HasTarget(c[j]) ==> OutsidePc(Dest(c, j), start, end))
  }

  lemma {:induction false} LevelsWeaken(stk: Stack, m: nat, k: nat)
    requires LevelsOk(stk, m) && m <= k
    ensures LevelsOk(stk, k)
  {
  }

  lemma CaptureKeeps(i: Inst, s: int, stk: Stack, caps: seq<Capture>)
    requires i.FullCapture? || IsMovable(i)
    requires LevelsOk(stk, |caps|)
    ensures CaptureStep(i, s, stk, caps).Caps? ==>
      var k := CaptureStep(i, s, stk, caps).caps;
      && |k| >= |caps| && LevelsOk(stk, |k|)
      && (stk.Push? ==> k[..stk.top.caplevel] == caps[..stk.top.caplevel])
  {
  }

  lemma BacktrackOutside(stk: Stack, caps: seq<Capture>, start: int, end: int)
    requires StackOutside(stk, start, end) && LevelsOk(stk, |caps|)
    ensures SliceState(Backtrack(stk, caps), start, end)
    ensures stk.Push? ==>
      && StackOutside(stk.below, start, end) && OutsidePc(stk.top.pc, start, end)
      && LevelsOk(stk.below, |caps|) && SliceState(Backtrack(stk.below, caps), start, end)
  {
    if stk.Push? {
      LevelsWeaken(stk.below, stk.top.caplevel, |caps|);
      if stk.below.Push? {
        assert StackOutside(stk.below.below, start, end);
        assert LevelsOk(stk.below.below, stk.below.top.caplevel);
      }
    }
  }

  lemma SliceStep(c: Code, start: nat, end: nat, subj: Subject, st: State)
    requires SliceState(st, start, end) && (st.Run? ==> st.pc != start)
    requires forall j :: 0 <= j < |c| && HasTarget(c[j]) ==> OutsidePc(Dest(c, j), start, end)
    ensures SliceState(Step(c, subj, st), start, end)
  {
    if !Halted(c, st) {
      var Run(pc, s, stk, caps) := st;
      if HasTarget(c[pc]) { assert OutsidePc(Dest(c, pc), start, end); }
      BacktrackOutside(stk, caps, start, end);
      if c[pc].FullCapture? || IsMovable(c[pc]) { CaptureKeeps(c[pc], s, stk, caps); }
    }
  }

  /** The capture list after a run of capture instructions at one subject position. */
  function CaptureAll(group: Code, s: int, stk: Stack, caps: seq<Capture>): CapResult
    requires forall j :: 0 <= j < |group| ==> IsMovable(group[j])
  {
    if group == [] then Caps(caps)
    else
      match CaptureStep(group[0], s, stk, caps)
      case Broken => Broken
      case Caps(k) => CaptureAll(group[1..], s, stk, k)
  }

  lemma {:induction false} CaptureAllKeeps(group: Code, s: int, stk: Stack, caps: seq<Capture>)
    requires forall j :: 0 <= j < |group| ==> IsMovable(group[j])
    requires LevelsOk(stk, |caps|)
    ensures CaptureAll(group, s, stk, caps).Caps? ==>
      var k := CaptureAll(group, s, stk, caps).caps;
      LevelsOk(stk, |k|) && Backtrack(stk, k) == Backtrack(stk, caps)
    decreases |group|
  {
    if group != [] {
      CaptureKeeps(group[0], s, stk, caps);
      if CaptureStep(group[0], s, stk, caps).Caps? {
        CaptureAllKeeps(group[1..], s, stk, CaptureStep(group[0], s, stk, caps).caps);
      }
    }
  }

  lemma {:induction false} CaptureAllDelayed(group: Code, n: nat, s: int, stk: Stack, caps: seq<Capture>)
    requires forall j :: 0 <= j < |group| ==> IsMovable(group[j])
    ensures CaptureAll(DelayAll(group, n), s + n, stk, caps) == CaptureAll(group, s, stk, caps)
    decreases |group|
  {
    if group != [] {
      var d := DelayAll(group, n);
      assert d[1..] == DelayAll(group[1..], n);
      assert CaptureStep(d[0], s + n, stk, caps) == CaptureStep(group[0], s, stk, caps);
      if CaptureStep(group[0], s, stk, caps).Caps? {
        CaptureAllDelayed(group[1..], n, s, stk, CaptureStep(group[0], s, stk, caps).caps);
      }
    }
  }

  lemma {:induction false} CapturesRun(c: Code, at: nat, group: Code, subj: Subject, s: int, stk: Stack, caps: seq<Capture>)
    requires At(c, at, group) && forall j :: 0 <= j < |group| ==> IsMovable(group[j])
    ensures RunN(c, subj, Run(at, s, stk, caps), |group|)
         == match CaptureAll(group, s, stk, caps)
            case Broken => Stuck
            case Caps(k) => Run(at + |group|, s, stk, k)
    decreases |group|
  {
    if group != [] {
      assert c[at] == c[at..at + |group|][0] == group[0];
      assert c[at + 1..at + 1 + |group[1..]|] == c[at..at + |group|][1..];
      match CaptureStep(group[0], s, stk, caps)
      case Broken => StuckStays(c, subj, |group| - 1);
      case Caps(k) => CapturesRun(c, at + 1, group[1..], subj, s, stk, k);
    }
  }

  predicate AllPass(checks: Code, subj: Subject, s: int)
    requires forall j :: 0 <= j < |checks| ==> IsCheck(checks[j])
  {
    checks == [] || (assert IsCheck(checks[0]); Passes(checks[0], subj, s) && AllPass(checks[1..], subj, s + OpStep(checks[0])))
  }

  /** A run of checks either consumes its bytes or backtracks, in k > 0 steps. */
  lemma {:induction false} ChecksRun(c: Code, at: nat, checks: Code, subj: Subject, s: int, stk: Stack, caps: seq<Capture>)
    returns (k: nat)
    requires At(c, at, checks) && forall j :: 0 <= j < |checks| ==> IsCheck(checks[j])
    ensures k <= |checks| && (checks != [] ==> k > 0)
    ensures RunN(c, subj, Run(at, s, stk, caps), k)
         == if AllPass(checks, subj, s) then Run(at + |checks|, s + TotalStep(checks), stk, caps)
            else Backtrack(stk, caps)
    decreases |checks|
  {
    if checks == [] {
      k := 0;
    } else {
      assert c[at] == c[at..at + |checks|][0] == checks[0];
      if Passes(checks[0], subj, s) {
        assert c[at + 1..at + 1 + |checks[1..]|] == c[at..at + |checks|][1..];
        var k1 := ChecksRun(c, at + 1, checks[1..], subj, s + OpStep(checks[0]), stk, caps);
        k := k1 + 1;
      } else {
        k := 1;
        assert Step(c, subj, Run(at, s, stk, caps)) == Backtrack(stk, caps);
        assert RunN(c, subj, Backtrack(stk, caps), 0) == Backtrack(stk, caps);
      }
    }
  }

  /** If a run has come to b1 after k steps and its end is b, then b lies at or after b1. */
  lemma FromHere(c: Code, subj: Subject, a: State, k: nat, b1: State, m: nat, b: State)
    returns (m1: nat)
    requires RunN(c, subj, a, k) == b1
    requires RunN(c, subj, a, m) == b && Halted(c, b)
    ensures RunN(c, subj, b1, m1) == b
    ensures m1 == if k <= m then m - k else 0
  {
    if k <= m {
      m1 := m - k;
      RunNAdd(c, subj, a, k, m - k);
    } else {
      m1 := 0;
      RunNAdd(c, subj, a, m, k - m);
      RunNHalted(c, subj, b, k - m);
    }
  }

  /** The original code from the start of a slice: the captures, then the checks. */
  lemma SliceBefore(c: Code, start: nat, i: nat, end: nat, n: nat, subj: Subject, s: int, stk: Stack, caps: seq<Capture>)
    returns (k: nat)
    requires SliceShape(c, start, i, end, n)
    ensures k > 0
    ensures RunN(c, subj, Run(start, s, stk, caps), k)
         == match CaptureAll(c[start..i + 1], s, stk, caps)
            case Broken => Stuck
            case Caps(caps1) =>
              if AllPass(c[i + 1..end + 1], subj, s) then Run(end + 1, s + n, stk, caps1) else Backtrack(stk, caps1)
  {
    var group, checks := c[start..i + 1], c[i + 1..end + 1];
    CapturesRun(c, start, group, subj, s, stk, caps);
    match CaptureAll(group, s, stk, caps)
    case Broken => k := |group|;
    case Caps(caps1) =>
      var k2 := ChecksRun(c, i + 1, checks, subj, s, stk, caps1);
      k := |group| + k2;
      RunNAdd(c, subj, Run(start, s, stk, caps), |group|, k2);
  }

  lemma MovedParts(c: Code, start: nat, i: nat, end: nat, n: nat)
    requires SliceShape(c, start, i, end, n)
    ensures var d := MoveSlice(c, start, i, end, n);
      && At(d, start, c[i + 1..end + 1]) && At(d, start + (end - i), DelayAll(c[start..i + 1], n))
  {
    var d := MoveSlice(c, start, i, end, n);
    var checks, moved := c[i + 1..end + 1], DelayAll(c[start..i + 1], n);
    assert d == (c[..start] + checks) + moved + c[end + 1..];
    assert d[start..start + |checks|] == checks;
    assert d[start + |checks|..start + |checks| + |moved|] == moved;
  }

  /** The moved captures, run n bytes later, record what the group recorded. */
  lemma MovedGroupRun(d: Code, from: nat, group: Code, n: nat, subj: Subject, s: int, stk: Stack, caps: seq<Capture>)
    requires forall j :: 0 <= j < |group| ==> IsMovable(group[j])
    requires CaptureAll(group, s, stk, caps).Caps?
    requires At(d, from, DelayAll(group, n))
    ensures RunN(d, subj, Run(from, s + n, stk, caps), |group|)
         == Run(from + |group|, s + n, stk, CaptureAll(group, s, stk, caps).caps)
  {
    var moved := DelayAll(group, n);
    CaptureAllDelayed(group, n, s, stk, caps);
    CapturesRun(d, from, moved, subj, s + n, stk, caps);
  }

  /** The rewritten code from the same place: the checks, then the captures. */
  lemma SliceAfter(c: Code, start: nat, i: nat, end: nat, n: nat, subj: Subject, s: int, stk: Stack, caps: seq<Capture>)
    returns (k: nat)
    requires SliceShape(c, start, i, end, n)
    requires CaptureAll(c[start..i + 1], s, stk, caps).Caps?
    ensures RunN(MoveSlice(c, start, i, end, n), subj, Run(start, s, stk, caps), k)
         == if AllPass(c[i + 1..end + 1], subj, s)
            then Run(end + 1, s + n, stk, CaptureAll(c[start..i + 1], s, stk, caps).caps)
            else Backtrack(stk, caps)
  {
    hide MoveSlice, CaptureStep, Perform, AllPass, RunN;
    var d := MoveSlice(c, start, i, end, n);
    var group, checks := c[start..i + 1], c[i + 1..end + 1];
    var moved := DelayAll(group, n);
    MovedParts(c, start, i, end, n);
    k := ChecksRun(d, start, checks, subj, s, stk, caps);
    if AllPass(checks, subj, s) {
      MovedGroupRun(d, start + |checks|, group, n, subj, s, stk, caps);
      RunNAdd(d, subj, Run(start, s, stk, caps), k, |moved|);
      k := k + |moved|;
    }
  }

  /** What a slice does, before and after the move: from its start both codes come to the same
      state, the original in k > 0 steps. */
  lemma SliceRun(c: Code, start: nat, i: nat, end: nat, n: nat, subj: Subject, a: State)
    returns (k: nat, b1: State)
    requires IsSlice(c, start, i, end, n)
    requires a.Run? && a.pc == start && SliceState(a, start, end)
    ensures k > 0 && RunN(c, subj, a, k) == b1
    ensures b1 != Stuck ==>
      SliceState(b1, start, end) && Reaches(MoveSlice(c, start, i, end, n), subj, a, b1)
  {
    var Run(_, s, stk, caps) := a;
    k := SliceBefore(c, start, i, end, n, subj, s, stk, caps);
    b1 := RunN(c, subj, a, k);
    var group := c[start..i + 1];
    if CaptureAll(group, s, stk, caps).Caps? {
      var k3 := SliceAfter(c, start, i, end, n, subj, s, stk, caps);
      CaptureAllKeeps(group, s, stk, caps);
      BacktrackOutside(stk, caps, start, end);
      assert RunN(MoveSlice(c, start, i, end, n), subj, a, k3) == b1;
    }
  }

  /** Moving captures over the checks that follow them changes no run that starts outside the slice. */
  lemma {:induction false} MoveSliceRun(c: Code, start: nat, i: nat, end: nat, n: nat, subj: Subject, a: State, m: nat, b: State)
    requires IsSlice(c, start, i, end, n)
    requires SliceState(a, start, end)
    requires RunN(c, subj, a, m) == b && Halted(c, b) && b != Stuck
    ensures Reaches(MoveSlice(c, start, i, end, n), subj, a, b)
    decreases m
  {
    var d := MoveSlice(c, start, i, end, n);
    if Halted(c, a) {
      RunNHalted(c, subj, a, m);
      ReachRefl(d, subj, a);
    } else if a.pc != start {
      assert m > 0;
      assert d[a.pc] == c[a.pc];
      assert Step(d, subj, a) == Step(c, subj, a);
      SliceStep(c, start, end, subj, a);
      MoveSliceRun(c, start, i, end, n, subj, Step(c, subj, a), m - 1, b);
      ReachCons(d, subj, a, b);
    } else {
      assert m > 0;
      var k, b1 := SliceRun(c, start, i, end, n, subj, a);
      var m1 := FromHere(c, subj, a, k, b1, m, b);
      if b1 == Stuck { StuckStays(c, subj, m1); }
      MoveSliceRun(c, start, i, end, n, subj, b1, m1, b);
      ReachTrans(d, subj, a, b1, b);
    }
  }

  /** Moving captures over checks is invisible: same failures, same end, same captures. */
  lemma MoveSliceExec(c: Code, start: nat, i: nat, end: nat, n: nat, subj: Subject, s: int, r: Outcome)
    requires IsSlice(c, start, i, end, n)
    requires Exec(c, subj, s, r)
    ensures Exec(MoveSlice(c, start, i, end, n), subj, s, r)
  {
    var m: nat :| RunN(c, subj, Start(s), m) == Final(c, r);
    MoveSliceRun(c, start, i, end, n, subj, Start(s), m, Final(c, r));
  }

  // ---------- a jump to a jump ----------

  /** pc x of the original code corresponds to pc y once a jump to d goes straight on to d2. */
  predicate SamePc(x: int, y: int, d: int, d2: int) { x == y || (x == d && y == d2) }

  predicate SameStack(a: Stack, b: Stack, d: int, d2: int) {
    match (a, b)
    case (Empty, Empty) => true
    case (Push(f, p), Push(g, q)) =>
      SamePc(f.pc, g.pc, d, d2) && f.s == g.s && f.caplevel == g.caplevel && SameStack(p, q, d, d2)
    case _ => false
  }

  predicate SameState(a: State, b: State, d: int, d2: int) {
    match (a, b)
    case (Run(p, s, stk, k), Run(q, t, stk', k')) => SamePc(p, q, d, d2) && s == t && k == k' && SameStack(stk, stk', d, d2)
    case _ => a == b
  }

  /** Instruction i leads to the jump at d. */
  predicate LeadsToJump(c: Code, i: nat, d: nat) {
    i < |c| && d < |c| && i != d && IsJmp(c[i]) && Dest(c, i) == d && c[d].Jmp?
  }

  function Shortcut(c: Code, i: nat, d: nat): (r: Code)
    requires LeadsToJump(c, i, d)
    ensures |r| == |c|
  {
    c[i := SetOffset(c[i], Dest(c, d) - i)]
  }

  lemma SameBacktrack(a: Stack, b: Stack, caps: seq<Capture>, d: int, d2: int)
    requires SameStack(a, b, d, d2)
    ensures a.Push? == b.Push?
    ensures SameState(Backtrack(a, caps), Backtrack(b, caps), d, d2)
    ensures a.Push? ==> SameStack(a.below, b.below, d, d2) && SameState(Backtrack(a.below, caps), Backtrack(b.below, caps), d, d2)
  {
    if a.Push? && a.below.Push? {
      assert SameStack(a.below.below, b.below.below, d, d2);
    }
  }

  lemma ShortcutStep(c: Code, i: nat, d: nat, subj: Subject, a: State, a': State)
    requires LeadsToJump(c, i, d) && SameState(a, a', d, Dest(c, d))
    requires a.Run? && a.pc == a'.pc && !Halted(c, a) && Step(c, subj, a) != Stuck
    ensures SameState(Step(c, subj, a), Step(Shortcut(c, i, d), subj, a'), d, Dest(c, d))
  {
    var e := Shortcut(c, i, d);
    var Run(pc, s, stk, caps) := a;
    if pc != i { assert e[pc] == c[pc]; }
    SameBacktrack(stk, a'.stack, caps, d, Dest(c, d));
    if c[pc].FullCapture? || IsMovable(c[pc]) {
      assert CaptureStep(c[pc], s, stk, caps) == CaptureStep(c[pc], s, a'.stack, caps);
    }
  }

  lemma {:induction false} ShortcutRun(c: Code, i: nat, d: nat, subj: Subject, a: State, a': State, m: nat, b: State)
    requires LeadsToJump(c, i, d) && SameState(a, a', d, Dest(c, d))
    requires RunN(c, subj, a, m) == b && Halted(c, b) && (b.Failed? || (b.Run? && b.stack.Empty?))
    ensures Reaches(Shortcut(c, i, d), subj, a', b)
    decreases m
  {
    var e := Shortcut(c, i, d);
    if Halted(c, a) {
      RunNHalted(c, subj, a, m);
      ReachRefl(e, subj, a');
    } else if a.pc != a'.pc {
      assert m > 0;
      ShortcutRun(c, i, d, subj, Step(c, subj, a), a', m - 1, b);
    } else {
      assert m > 0;
      if Step(c, subj, a) == Stuck { StuckStays(c, subj, m - 1); }
      ShortcutStep(c, i, d, subj, a, a');
      ShortcutRun(c, i, d, subj, Step(c, subj, a), Step(e, subj, a'), m - 1, b);
      ReachCons(e, subj, a', b);
    }
  }

  lemma ShortcutExec(c: Code, i: nat, d: nat, subj: Subject, s: int, r: Outcome)
    requires LeadsToJump(c, i, d) && Exec(c, subj, s, r)
    ensures Exec(Shortcut(c, i, d), subj, s, r)
  {
    var m: nat :| RunN(c, subj, Start(s), m) == Final(c, r);
    ShortcutRun(c, i, d, subj, Start(s), Start(s), m, Final(c, r));
  }
}
