/** LPeg's virtual machine: its instructions, and the step that the loop of `match` performs.

    A pattern is compiled to a sequence of instructions (the trailing IEnd is left to the
    caller: a run that reaches index |c| has run off the end of the pattern).  Jump offsets are
    relative, as in the source, but count instructions; LpegCells has them in cells.

    The machine is stated for a code fragment on its own ("local" machine): the fragment starts
    with no pending choice and no capture, and it fails when it backtracks with no choice left. */
module LpegMachine {

  type Byte = b: nat | b < 256

  datatype CapKind =
    | Cclose | Cposition | Cconst | Cbackref | Carg | Csimple | Ctable | Cfunction
    | Cquery | Cstring | Csubst | Cfold | Cgroup

  datatype Inst =
    | Any(n: nat, offset: int)
    | Char(c: Byte, offset: int)
    | Set(cs: set<Byte>, offset: int)
    | Span(cs: set<Byte>)
    | Choice(offset: int, aux: nat)
    | Jmp(offset: int)
    | Commit(offset: int)
    | PartialCommit(offset: int)
    | BackCommit(offset: int)
    | FailTwice
    | Fail
    | FullCapture(idx: int, kind: CapKind, off: nat)
    | EmptyCapture(idx: int, kind: CapKind, off: nat)
    | OpenCapture(idx: int, kind: CapKind, off: nat)
    | CloseCapture(idx: int, kind: CapKind, off: nat)

  type Code = seq<Inst>
  type Subject = seq<Byte>

  /** One entry of the capture list; siz is 0 for an entry still open, else length + 1. */
  datatype Capture = Capture(pos: int, idx: int, kind: CapKind, siz: nat)

  const UCHAR_MAX: nat := 255
  const MAXOFF: nat := 15

  /** A pending choice: where to resume, with which subject position and how many captures. */
  datatype Frame = Frame(pc: int, s: int, caplevel: nat)

  datatype Stack = Empty | Push(top: Frame, below: Stack)

  /** Stuck stands for a run that breaks one of the machine's own assertions: a commit without
      a pending choice, a close without a capture, or a close that would alter a capture counted
      in by a pending choice.  Correct code never gets there. */
  datatype State =
    | Run(pc: int, s: int, stack: Stack, caps: seq<Capture>)
    | Failed
    | Stuck

  predicate IsCheckOp(i: Inst) { i.Any? || i.Char? || i.Set? }

  predicate IsCheck(i: Inst) { IsCheckOp(i) && i.offset == 0 }

  predicate IsTest(i: Inst) { IsCheckOp(i) && i.offset != 0 }

  predicate IsJmp(i: Inst) { i.Choice? || i.Jmp? || i.Commit? || i.PartialCommit? || i.BackCommit? }

  predicate IsNoFail(i: Inst) {
    i.Span? || i.Jmp? || i.FullCapture? || i.EmptyCapture? || i.OpenCapture? || i.CloseCapture?
  }

  /** Is the instruction followed by the charset it holds? */
  predicate HasCharset(i: Inst) { i.Set? || i.Span? }

  predicate IsMovable(i: Inst) { i.EmptyCapture? || i.OpenCapture? || i.CloseCapture? }

  /** Number of bytes a check consumes when it succeeds. */
  function OpStep(i: Inst): nat { if i.Any? then i.n else 1 }

  /** Does a check or test accept the subject at s? */
  predicate Passes(i: Inst, subj: Subject, s: int)
    requires IsCheckOp(i)
  {
    match i
    case Any(n, _) => n <= |subj| - s
    case Char(c, _) => 0 <= s < |subj| && subj[s] == c
    case Set(cs, _) => 0 <= s < |subj| && subj[s] in cs
  }

  /** Resume the youngest pending choice. */
  function Backtrack(stack: Stack, caps: seq<Capture>): State {
    match stack
    case Empty => Failed
    case Push(f, below) =>
      if f.caplevel <= |caps| then Run(f.pc, f.s, below, caps[..f.caplevel]) else Stuck
  }

  /** End of the run of bytes from cs that starts at s. */
  function SpanEnd(cs: set<Byte>, subj: Subject, s: int): int
    decreases |subj| - s
  {
    if 0 <= s < |subj| && subj[s] in cs then SpanEnd(cs, subj, s + 1) else s
  }

  /** May the open capture at the end of the list be closed in place? */
  predicate ClosesInPlace(caps: seq<Capture>, pos: int)
    requires caps != []
  {
    caps[|caps| - 1].siz == 0 && pos - caps[|caps| - 1].pos < UCHAR_MAX
  }

  /** Effect of a capture instruction on the capture list; None when an assertion breaks. */
  datatype CapResult = Broken | Caps(caps: seq<Capture>)

  function CaptureStep(i: Inst, s: int, stack: Stack, caps: seq<Capture>): CapResult
    requires i.FullCapture? || IsMovable(i)
  {
    var pos := s - i.off;
    match i
    case FullCapture(idx, kind, off) => Caps(caps + [Capture(pos, idx, kind, off + 1)])
    case EmptyCapture(idx, kind, _) => Caps(caps + [Capture(pos, idx, kind, 1)])
    case OpenCapture(idx, kind, _) => Caps(caps + [Capture(pos, idx, kind, 0)])
    case CloseCapture(idx, kind, _) =>
      if caps == [] then Broken
      else if ClosesInPlace(caps, pos) then
        var last := caps[|caps| - 1];
        if pos < last.pos || (stack.Push? && |caps| <= stack.top.caplevel) then Broken
        else Caps(caps[|caps| - 1 := last.(siz := pos - last.pos + 1)])
      else Caps(caps + [Capture(pos, idx, kind, 1)])
  }

  predicate Halted(c: Code, st: State) { !st.Run? || !(0 <= st.pc < |c|) }

  /** What instruction i, at index pc and followed by the one at index next, does. */
  function Perform(i: Inst, pc: int, next: int, subj: Subject, s: int, stack: Stack, caps: seq<Capture>): State {
    match i
    case Any(n, off) =>
      if Passes(i, subj, s) then Run(next, s + n, stack, caps)
      else if off != 0 then Run(pc + off, s, stack, caps) else Backtrack(stack, caps)
    case Char(_, off) =>
      if Passes(i, subj, s) then Run(next, s + 1, stack, caps)
      else if off != 0 then Run(pc + off, s, stack, caps) else Backtrack(stack, caps)
    case Set(_, off) =>
      if Passes(i, subj, s) then Run(next, s + 1, stack, caps)
      else if off != 0 then Run(pc + off, s, stack, caps) else Backtrack(stack, caps)
    case Span(cs) => Run(next, SpanEnd(cs, subj, s), stack, caps)
    case Jmp(off) => Run(pc + off, s, stack, caps)
    case Choice(off, aux) => Run(next, s, Push(Frame(pc + off, s - aux, |caps|), stack), caps)
    case Commit(off) => if stack.Push? then Run(pc + off, s, stack.below, caps) else Stuck
    case PartialCommit(off) =>
      if stack.Push? then
        Run(pc + off, s, Push(Frame(stack.top.pc, s, |caps|), stack.below), caps)
      else Stuck
    case BackCommit(off) => if stack.Push? then Run(pc + off, stack.top.s, stack.below, caps) else Stuck
    case FailTwice => if stack.Push? then Backtrack(stack.below, caps) else Stuck
    case Fail => Backtrack(stack, caps)
    case _ =>
      match CaptureStep(i, s, stack, caps)
      case Broken => Stuck
      case Caps(caps') => Run(next, s, stack, caps')
  }

  function Step(c: Code, subj: Subject, st: State): State {
    if Halted(c, st) then st else Perform(c[st.pc], st.pc, st.pc + 1, subj, st.s, st.stack, st.caps)
  }

  function RunN(c: Code, subj: Subject, st: State, n: nat): State
    decreases n
  {
    if n == 0 then st else RunN(c, subj, Step(c, subj, st), n - 1)
  }

  ghost predicate Reaches(c: Code, subj: Subject, a: State, b: State) {
    exists n: nat :: RunN(c, subj, a, n) == b
  }

  /** What running a pattern at a position of the subject comes to. */
  datatype Outcome = NoMatch | Match(end: int, caps: seq<Capture>)

  function Start(s: int): State { Run(0, s, Empty, []) }

  function Final(c: Code, r: Outcome): State {
    match r
    case NoMatch => Failed
    case Match(e, k) => Run(|c|, e, Empty, k)
  }

  /** The fragment c, started at s, ends with outcome r. */
  ghost predicate Exec(c: Code, subj: Subject, s: int, r: Outcome) {
    Reaches(c, subj, Start(s), Final(c, r))
  }

  // ---------- runs ----------

  lemma ReachRefl(c: Code, subj: Subject, a: State)
    ensures Reaches(c, subj, a, a)
  {
    assert RunN(c, subj, a, 0) == a;
  }

  lemma ReachStep(c: Code, subj: Subject, a: State, b: State)
    requires Step(c, subj, a) == b
    ensures Reaches(c, subj, a, b)
  {
    assert RunN(c, subj, b, 0) == b;
    assert RunN(c, subj, a, 1) == b;
  }

  lemma {:induction false} RunNAdd(c: Code, subj: Subject, a: State, m: nat, n: nat)
    ensures RunN(c, subj, a, m + n) == RunN(c, subj, RunN(c, subj, a, m), n)
    decreases m
  {
    if m > 0 {
      RunNAdd(c, subj, Step(c, subj, a), m - 1, n);
    }
  }

  lemma ReachTrans(c: Code, subj: Subject, a: State, b: State, d: State)
    requires Reaches(c, subj, a, b) && Reaches(c, subj, b, d)
    ensures Reaches(c, subj, a, d)
  {
    var m: nat :| RunN(c, subj, a, m) == b;
    var n: nat :| RunN(c, subj, b, n) == d;
    RunNAdd(c, subj, a, m, n);
    assert RunN(c, subj, a, m + n) == d;
  }

  /** One step, then a run. */
  lemma ReachCons(c: Code, subj: Subject, a: State, d: State)
    requires Reaches(c, subj, Step(c, subj, a), d)
    ensures Reaches(c, subj, a, d)
  {
    ReachStep(c, subj, a, Step(c, subj, a));
    ReachTrans(c, subj, a, Step(c, subj, a), d);
  }

  lemma {:induction false} RunNHalted(c: Code, subj: Subject, a: State, n: nat)
    requires Halted(c, a)
    ensures RunN(c, subj, a, n) == a
  {
    if n > 0 {
      RunNHalted(c, subj, a, n - 1);
    }
  }

  /** A run has at most one end. */
  lemma ReachUnique(c: Code, subj: Subject, a: State, b: State, d: State)
    requires Reaches(c, subj, a, b) && Halted(c, b)
    requires Reaches(c, subj, a, d) && Halted(c, d)
    ensures b == d
  {
    var m: nat :| RunN(c, subj, a, m) == b;
    var n: nat :| RunN(c, subj, a, n) == d;
    RunNAdd(c, subj, a, m, n);
    RunNAdd(c, subj, a, n, m);
    RunNHalted(c, subj, b, n);
    RunNHalted(c, subj, d, m);
  }

  lemma ExecUnique(c: Code, subj: Subject, s: int, r1: Outcome, r2: Outcome)
    requires Exec(c, subj, s, r1) && Exec(c, subj, s, r2)
    ensures r1 == r2
  {
    ReachUnique(c, subj, Start(s), Final(c, r1), Final(c, r2));
  }

  // ---------- a fragment inside a larger code ----------

  function Above(stk: Stack, off: int, k: nat, base: Stack): Stack {
    match stk
    case Empty => base
    case Push(f, below) => Push(Frame(off + f.pc, f.s, k + f.caplevel), Above(below, off, k, base))
  }

  /** The state of the larger code while the fragment at index off is in state st, with the
      choices `base` pending and the captures `k` already made when it was entered. */
  function Embed(st: State, off: int, base: Stack, k: seq<Capture>): State {
    match st
    case Run(pc, s, stk, caps) => Run(off + pc, s, Above(stk, off, |k|, base), k + caps)
    case Failed => Backtrack(base, k)
    case Stuck => Stuck
  }

  predicate At(big: Code, off: int, c: Code) {
    0 <= off && off + |c| <= |big| && big[off..off + |c|] == c
  }

  predicate LevelOk(base: Stack, k: seq<Capture>) { base.Push? ==> base.top.caplevel <= |k| }

  lemma EmbedBacktrack(off: int, base: Stack, k: seq<Capture>, stk: Stack, caps: seq<Capture>)
    requires LevelOk(base, k)
    requires Backtrack(stk, caps) != Stuck
    ensures Backtrack(Above(stk, off, |k|, base), k + caps) == Embed(Backtrack(stk, caps), off, base, k)
  {
    match stk
    case Empty =>
      if base.Push? {
        assert (k + caps)[..base.top.caplevel] == k[..base.top.caplevel];
      }
    case Push(f, below) =>
      assert (k + caps)[..|k| + f.caplevel] == k + caps[..f.caplevel];
  }

  lemma EmbedCapture(i: Inst, s: int, off: int, base: Stack, k: seq<Capture>, stk: Stack, caps: seq<Capture>)
    requires i.FullCapture? || IsMovable(i)
    requires LevelOk(base, k)
    requires CaptureStep(i, s, stk, caps) != Broken
    ensures CaptureStep(i, s, Above(stk, off, |k|, base), k + caps)
         == Caps(k + CaptureStep(i, s, stk, caps).caps)
  {
    var c1 := CaptureStep(i, s, stk, caps).caps;
    if i.CloseCapture? {
      assert (k + caps)[|k + caps| - 1] == caps[|caps| - 1];
      if ClosesInPlace(caps, s - i.off) {
        var last := caps[|caps| - 1];
        var new1 := last.(siz := s - i.off - last.pos + 1);
        assert (k + caps)[|k + caps| - 1 := new1] == k + caps[|caps| - 1 := new1];
      } else {
        assert (k + caps) + [Capture(s - i.off, i.idx, i.kind, 1)] == k + c1;
      }
    } else {
      assert k + c1 == (k + caps) + [c1[|c1| - 1]];
    }
  }

  lemma EmbedStep(c: Code, big: Code, off: int, subj: Subject, base: Stack, k: seq<Capture>, st: State)
    requires At(big, off, c) && LevelOk(base, k)
    requires !Halted(c, st) && Step(c, subj, st) != Stuck
    ensures Step(big, subj, Embed(st, off, base, k)) == Embed(Step(c, subj, st), off, base, k)
  {
    hide Passes;
    var Run(pc, s, stk, caps) := st;
    assert big[off + pc] == big[off..off + |c|][pc] == c[pc];
    assert |k + caps| == |k| + |caps|;
    match c[pc]
    case Any(_, o) => if !Passes(c[pc], subj, s) && o == 0 { EmbedBacktrack(off, base, k, stk, caps); }
    case Char(_, o) => if !Passes(c[pc], subj, s) && o == 0 { EmbedBacktrack(off, base, k, stk, caps); }
    case Set(_, o) => if !Passes(c[pc], subj, s) && o == 0 { EmbedBacktrack(off, base, k, stk, caps); }
    case FailTwice => EmbedBacktrack(off, base, k, stk.below, caps);
    case Fail => EmbedBacktrack(off, base, k, stk, caps);
    case FullCapture(_, _, _) => EmbedCapture(c[pc], s, off, base, k, stk, caps);
    case EmptyCapture(_, _, _) => EmbedCapture(c[pc], s, off, base, k, stk, caps);
    case OpenCapture(_, _, _) => EmbedCapture(c[pc], s, off, base, k, stk, caps);
    case CloseCapture(_, _, _) => EmbedCapture(c[pc], s, off, base, k, stk, caps);
    case _ =>
  }

  lemma {:induction false} StuckStays(c: Code, subj: Subject, n: nat)
    ensures RunN(c, subj, Stuck, n) == Stuck
  {
    RunNHalted(c, subj, Stuck, n);
  }

  /** What a fragment does on its own it does inside any larger code that holds it. */
  lemma {:induction false} EmbedRun(c: Code, big: Code, off: int, subj: Subject, base: Stack, k: seq<Capture>,
                                    a: State, n: nat)
    requires At(big, off, c) && LevelOk(base, k)
    requires RunN(c, subj, a, n) != Stuck
    ensures Reaches(big, subj, Embed(a, off, base, k), Embed(RunN(c, subj, a, n), off, base, k))
    decreases n
  {
    if n == 0 || Halted(c, a) {
      RunNHalted2(c, subj, a, n);
      ReachRefl(big, subj, Embed(a, off, base, k));
    } else {
      var a1 := Step(c, subj, a);
      if a1 == Stuck {
        StuckStays(c, subj, n - 1);
      }
      EmbedStep(c, big, off, subj, base, k, a);
      EmbedRun(c, big, off, subj, base, k, a1, n - 1);
      ReachCons(big, subj, Embed(a, off, base, k), Embed(RunN(c, subj, a, n), off, base, k));
    }
  }

  lemma RunNHalted2(c: Code, subj: Subject, a: State, n: nat)
    requires n == 0 || Halted(c, a)
    ensures RunN(c, subj, a, n) == a
  {
    if n > 0 {
      RunNHalted(c, subj, a, n);
    }
  }

  /** Where the larger code stands when the fragment entered at s has ended with r. */
  function After(c: Code, off: int, base: Stack, k: seq<Capture>, r: Outcome): State {
    match r
    case NoMatch => Backtrack(base, k)
    case Match(e, k1) => Run(off + |c|, e, base, k + k1)
  }

  lemma ExecIn(c: Code, big: Code, off: int, subj: Subject, s: int, base: Stack, k: seq<Capture>, r: Outcome)
    requires At(big, off, c) && LevelOk(base, k)
    requires Exec(c, subj, s, r)
    ensures Reaches(big, subj, Run(off, s, base, k), After(c, off, base, k, r))
  {
    var n: nat :| RunN(c, subj, Start(s), n) == Final(c, r);
    EmbedRun(c, big, off, subj, base, k, Start(s), n);
    assert k + [] == k;
  }
}
