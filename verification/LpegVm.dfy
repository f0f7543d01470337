/** The loops of `match` and `verify` over the cells of a pattern, with their fixed-size stacks, proved
    to follow the machine and the walk; and what they return for a compiled pattern. */
module LpegVm {
  import opened LpegMachine
  import opened LpegReference
  import opened LpegVerifier
  import opened LpegCompiler
  import opened LpegCells
  import opened LpegCellBuild
  import opened LpegCellRun
  import opened LpegCellCompiler

  const IMAXCAPTURES: nat := 600

  /** The pending choices, youngest last. */
  function ToStack(fs: seq<Frame>): Stack {
    if fs == [] then Empty else Push(fs[|fs| - 1], ToStack(fs[..|fs| - 1]))
  }

  function StackDepth(stk: Stack): nat { if stk.Empty? then 0 else 1 + StackDepth(stk.below) }

  /** A choice is about to be pushed on a full stack (whose first slot holds the give-up entry). */
  predicate Overflows(p: Cells, st: State) {
    !CellHalted(p, st) && p[st.pc].code == ICHOICE && StackDepth(st.stack) + 1 >= MAXBACK
  }

  lemma ToStackPush(fs: seq<Frame>, f: Frame)
    ensures ToStack(fs + [f]) == Push(f, ToStack(fs))
  {
    assert (fs + [f])[..|fs|] == fs;
  }

  lemma {:induction false} ToStackDepth(fs: seq<Frame>)
    ensures StackDepth(ToStack(fs)) == |fs|
    decreases |fs|
  {
    if fs != [] { ToStackDepth(fs[..|fs| - 1]); }
  }

  /** The variables of `match`. */
  class Matcher {
    const code: Cells
    const subj: Subject
    const stack: array<Frame>
    var p: int
    var s: int
    var top: nat                        // first empty slot of the stack
    var captures: array<Capture>
    var captop: nat                     // first empty slot of the captures
    var gaveUp: bool                    // p points to the give-up instruction

    ghost predicate Valid()
      reads this, stack, captures
    {
      && stack.Length == MAXBACK && top <= MAXBACK && captop < captures.Length
      && (gaveUp <==> top == 0)
    }

    /** The state of the machine these variables stand for. */
    ghost function Abs(): State
      reads this, stack, captures
      requires Valid()
    {
      if gaveUp then Failed else Run(p, s, ToStack(stack[1..top]), captures[..captop])
    }

    constructor (code: Cells, subj: Subject, s: int)
      ensures Valid() && Abs() == Start(s) && this.code == code && this.subj == subj && !gaveUp
      ensures fresh(stack) && fresh(captures)
    {
      this.code, this.subj, this.p, this.s := code, subj, 0, s;
      this.stack := new Frame[MAXBACK](_ => Frame(0, s, 0));
      this.captures := new Capture[IMAXCAPTURES](_ => Capture(0, 0, Cclose, 0));
      this.top, this.captop, this.gaveUp := 1, 0, false;
      new;
      assert stack[1..1] == [];
      assert captures[..0] == [];
    }

    /** The label `fail`: back to the youngest pending choice, or give up. */
    method Backtrack()
      requires Valid() && !gaveUp && LpegMachine.Backtrack(ToStack(stack[1..top]), captures[..captop]) != Stuck
      modifies this`p, this`s, this`top, this`captop, this`gaveUp
      ensures Valid()
      ensures Abs() == LpegMachine.Backtrack(old(ToStack(stack[1..top])), old(captures[..captop]))
    {
      top := top - 1;
      if top == 0 {
        gaveUp := true;
        assert old(stack[1..top]) == [];
      } else {
        var f := stack[top];
        assert old(stack[1..top]) == stack[1..top] + [f];
        ToStackPush(stack[1..top], f);
        s := f.s;
        assert old(captures[..captop])[..f.caplevel] == captures[..f.caplevel];
        captop := f.caplevel;
        p := f.pc;
      }
    }

    method PushChoice(target: int, pos: int)
      requires Valid() && !gaveUp && top < MAXBACK
      modifies this`top, stack
      ensures Valid() && !gaveUp
      ensures Abs() == Run(p, s, Push(Frame(target, pos, captop), old(ToStack(stack[1..top]))), captures[..captop])
    {
      stack[top] := Frame(target, pos, captop);
      assert stack[1..top] == old(stack[1..top]);
      assert stack[1..top + 1] == old(stack[1..top]) + [Frame(target, pos, captop)];
      ToStackPush(old(stack[1..top]), Frame(target, pos, captop));
      top := top + 1;
    }

    method PopChoice() returns (f: Frame)
      requires Valid() && !gaveUp && ToStack(stack[1..top]).Push?
      modifies this`top
      ensures Valid() && !gaveUp && f == old(ToStack(stack[1..top])).top
      ensures Abs() == Run(p, s, old(ToStack(stack[1..top])).below, captures[..captop])
    {
      top := top - 1;
      f := stack[top];
      assert old(stack[1..top]) == stack[1..top] + [f];
      ToStackPush(stack[1..top], f);
    }

    /** A partial commit overwrites the position and the captures of the youngest choice. */
    method UpdateChoice()
      requires Valid() && !gaveUp && ToStack(stack[1..top]).Push?
      modifies stack
      ensures Valid()
      ensures Abs() == Run(p, s, Push(Frame(old(ToStack(stack[1..top])).top.pc, s, captop), old(ToStack(stack[1..top])).below),
                           captures[..captop])
    {
      ghost var older := stack[1..top - 1];
      assert stack[1..top] == older + [stack[top - 1]];
      ToStackPush(older, stack[top - 1]);
      var f := Frame(stack[top - 1].pc, s, captop);
      stack[top - 1] := f;
      assert stack[1..top] == older + [f];
      ToStackPush(older, f);
    }

    /** doublecap: a larger capture array with the same entries. */
    method DoubleCap()
      requires stack.Length == MAXBACK && top <= MAXBACK && 0 < captop == captures.Length && !gaveUp && top > 0
      modifies this`captures
      ensures Valid() && fresh(captures) && captures[..captop] == old(captures[..])
    {
      var larger := new Capture[2 * captop](i requires 0 <= i reads this, captures => if i < captures.Length then captures[i] else Capture(0, 0, Cclose, 0));
      captures := larger;
    }

    method AddCapture(x: Capture)
      requires Valid() && !gaveUp
      modifies this`captures, this`captop, captures
      ensures Valid() && !gaveUp && (captures == old(captures) || fresh(captures))
      ensures Abs() == Run(p, s, ToStack(stack[1..top]), old(captures[..captop]) + [x])
    {
      captures[captop] := x;
      captop := captop + 1;
      assert captures[..captop] == old(captures[..captop]) + [x];
      if captop >= captures.Length {
        assert captures[..] == captures[..captop];
        DoubleCap();
      }
    }

    method CloseCapture(h: Cell)
      requires Valid() && !gaveUp && captop > 0
      requires CaptureStep(Closing(h), s, ToStack(stack[1..top]), captures[..captop]) != LpegMachine.Broken
      modifies this`captures, this`captop, captures
      ensures Valid() && !gaveUp && (captures == old(captures) || fresh(captures))
      ensures Abs() == Run(p, s, ToStack(stack[1..top]),
                           old(CaptureStep(Closing(h), s, ToStack(stack[1..top]), captures[..captop]).caps))
    {
      var pos := s - h.aux / 16;
      var last := captures[captop - 1];
      if last.siz == 0 && pos - last.pos < UCHAR_MAX {
        var closed := last.(siz := pos - last.pos + 1);
        captures[captop - 1] := closed;
        assert captures[..captop] == old(captures[..captop])[captop - 1 := closed];
      } else {
        AddCapture(Capture(pos, h.offset, KindOf(h.aux % 16), 1));
      }
    }

    /** condfailed: a test jumps, a check fails. */
    method CondFail(offset: int)
      requires Valid() && !gaveUp
      requires offset == 0 ==> LpegMachine.Backtrack(ToStack(stack[1..top]), captures[..captop]) != Stuck
      modifies this`p, this`s, this`top, this`captop, this`gaveUp
      ensures Valid()
      ensures Abs() == if offset != 0 then Run(old(p) + offset, old(s), old(ToStack(stack[1..top])), old(captures[..captop]))
                       else LpegMachine.Backtrack(old(ToStack(stack[1..top])), old(captures[..captop]))
    {
      if offset != 0 {
        p := p + offset;
      } else {
        Backtrack();
      }
    }

    /** One round of the loop for a check or a test. */
    method StepCheck()
      requires Valid() && !gaveUp && 0 <= p < |code| && MachineStep(code, subj, Abs()) != Stuck
      requires code[p].code <= ISET
      modifies this`p, this`s, this`top, this`captop, this`gaveUp
      ensures Valid() && Abs() == MachineStep(code, subj, old(Abs()))
    {
      hide CharsetAt, KindOf, ToStack;
      var h := code[p];
      if h.code == IANY {
        if h.aux <= |subj| - s { p := p + 1; s := s + h.aux; } else { CondFail(h.offset); }
      } else if h.code == ICHAR {
        if 0 <= s < |subj| && subj[s] == h.aux { p := p + 1; s := s + 1; } else { CondFail(h.offset); }
      } else {
        if 0 <= s < |subj| && InCharset(code, p, subj[s]) { p := p + CHARSETINSTSIZE; s := s + 1; } else { CondFail(h.offset); }
      }
    }

    method StepSpan()
      requires Valid() && !gaveUp && 0 <= p < |code| && code[p].code == ISPAN
      modifies this`p, this`s
      ensures Valid() && Abs() == MachineStep(code, subj, old(Abs()))
    {
      hide CharsetAt, KindOf, ToStack;
      ghost var s0, cs := s, CharsetAt(code, p);
      while 0 <= s < |subj| && InCharset(code, p, subj[s])
        invariant SpanEnd(cs, subj, s) == SpanEnd(cs, subj, s0)
        modifies this`s
        decreases |subj| - s
      {
        s := s + 1;
      }
      assert s == SpanEnd(cs, subj, s0);
      p := p + CHARSETINSTSIZE;
    }

    /** What the cell at p does, once it is known which instruction it is. */
    ghost predicate Does(i: Inst)
      reads this, stack, captures
      requires Valid() && !gaveUp && 0 <= p < |code|
    {
      MachineStep(code, subj, Abs()) == Perform(i, p, p + 1, subj, s, ToStack(stack[1..top]), captures[..captop])
    }

    /** One round of the loop for a jump, a choice, a commit or a failure. */
    method StepJump()
      requires Valid() && !gaveUp && 0 <= p < |code| && MachineStep(code, subj, Abs()) != Stuck
      requires ISPAN < code[p].code < IFULLCAPTURE
      requires code[p].code == ICHOICE ==> top < MAXBACK
      modifies this`p, this`s, this`top, this`captop, this`gaveUp, stack
      ensures Valid() && Abs() == MachineStep(code, subj, old(Abs()))
    {
      hide CharsetAt, KindOf, ToStack, Perform;
      if code[p].code == ICHOICE || code[p].code == IJMP {
        StepChoice();
      } else if code[p].code == IFAILTWICE || code[p].code == IFAIL {
        StepFail();
      } else {
        KnownCommit(code, p, subj, Abs());
        StepCommit();
      }
    }

    method StepChoice()
      requires Valid() && !gaveUp && 0 <= p < |code| && (code[p].code == IJMP || (code[p].code == ICHOICE && top < MAXBACK))
      modifies this`p, this`top, stack
      ensures Valid() && Abs() == MachineStep(code, subj, old(Abs()))
    {
      hide CharsetAt, KindOf, ToStack;
      var h := code[p];
      if h.code == IJMP {
        assert Does(Jmp(h.offset));
        p := p + h.offset;
      } else {
        assert Does(Choice(h.offset, h.aux));
        PushChoice(p + h.offset, s - h.aux);
        p := p + 1;
      }
    }

    method StepCommit()
      requires Valid() && !gaveUp && 0 <= p < |code| && MachineStep(code, subj, Abs()) != Stuck
      requires code[p].code == ICOMMIT || code[p].code == IPARTIALCOMMIT || code[p].code == IBACKCOMMIT
      modifies this`p, this`s, this`top, stack
      ensures Valid() && Abs() == MachineStep(code, subj, old(Abs()))
    {
      hide CharsetAt, KindOf, ToStack;
      var f: Frame;
      var h := code[p];
      if h.code == ICOMMIT {
        assert Does(Commit(h.offset));
        f := PopChoice();
        p := p + h.offset;
      } else if h.code == IPARTIALCOMMIT {
        assert Does(PartialCommit(h.offset));
        UpdateChoice();
        p := p + h.offset;
      } else {
        assert Does(BackCommit(h.offset));
        f := PopChoice();
        s := f.s;
        p := p + h.offset;
      }
    }

    method StepFail()
      requires Valid() && !gaveUp && 0 <= p < |code| && MachineStep(code, subj, Abs()) != Stuck
      requires code[p].code == IFAILTWICE || code[p].code == IFAIL
      modifies this`p, this`s, this`top, this`captop, this`gaveUp
      ensures Valid() && Abs() == MachineStep(code, subj, old(Abs()))
    {
      hide CharsetAt, KindOf, ToStack, LpegMachine.Backtrack;
      if code[p].code == IFAILTWICE {
        assert Does(FailTwice);
        var f := PopChoice();
        Backtrack();
      } else {
        assert Does(Fail);
        Backtrack();
      }
    }

    /** One round of the loop for a capture instruction. */
    method StepCapture()
      requires Valid() && !gaveUp && 0 <= p < |code| && MachineStep(code, subj, Abs()) != Stuck
      requires IFULLCAPTURE <= code[p].code
      modifies this`p, this`captures, this`captop, captures
      ensures Valid() && (captures == old(captures) || fresh(captures)) && Abs() == MachineStep(code, subj, old(Abs()))
    {
      hide MachineStep, KindOf, ToStack, ClosesInPlace;
      KnownCapture(code, p, subj, Abs());
      var h := code[p];
      var off, kind := h.aux / 16, KindOf(h.aux % 16);
      if h.code == IFULLCAPTURE { AddCapture(Capture(s - off, h.offset, kind, off + 1)); }
      else if h.code == IEMPTYCAPTURE || h.code == IEMPTYCAPTUREIDX { AddCapture(Capture(s - off, h.offset, kind, 1)); }
      else if h.code == IOPENCAPTURE { AddCapture(Capture(s - off, h.offset, kind, 0)); }
      else { CloseCapture(h); }
      p := p + 1;
    }
  }

  /** Between the choices and the failures there are only commits, and codes that no machine runs. */
  lemma KnownCommit(code: Cells, p: nat, subj: Subject, st: State)
    requires p < |code| && st.Run? && st.pc == p && MachineStep(code, subj, st) != Stuck
    requires ISPAN < code[p].code < IFULLCAPTURE && code[p].code != ICHOICE && code[p].code != IJMP && code[p].code != IFAILTWICE && code[p].code != IFAIL
    ensures code[p].code == ICOMMIT || code[p].code == IPARTIALCOMMIT || code[p].code == IBACKCOMMIT
  {
    hide Perform, CharsetAt;
  }

  /** A capture instruction, read from its cell. */
  function CaptureAt(h: Cell): Inst {
    if h.code == IFULLCAPTURE then FullCapture(h.offset, KindOf(h.aux % 16), h.aux / 16)
    else if h.code == IEMPTYCAPTURE || h.code == IEMPTYCAPTUREIDX then EmptyCapture(h.offset, KindOf(h.aux % 16), h.aux / 16)
    else if h.code == IOPENCAPTURE then OpenCapture(h.offset, KindOf(h.aux % 16), h.aux / 16)
    else Closing(h)
  }

  lemma KnownCapture(code: Cells, p: nat, subj: Subject, st: State)
    requires p < |code| && st.Run? && st.pc == p && MachineStep(code, subj, st) != Stuck && IFULLCAPTURE <= code[p].code
    ensures var r := CaptureStep(CaptureAt(code[p]), st.s, st.stack, st.caps);
      r != LpegMachine.Broken && MachineStep(code, subj, st) == Run(p + 1, st.s, st.stack, r.caps)
  {
    hide CaptureStep, KindOf, CharsetAt;
  }

  /** A closing capture, read from its cell. */
  function Closing(h: Cell): Inst { Inst.CloseCapture(h.offset, KindOf(h.aux % 16), h.aux / 16) }

  /** testchar, on the charset behind index p. */
  predicate InCharset(code: Cells, p: nat, b: Byte)
    requires p < |code|
    ensures InCharset(code, p, b) <==> b in CharsetAt(code, p)
  {
    TestChar(if p + CHARSETINSTSIZE <= |code| then code[p + 1..p + CHARSETINSTSIZE] else code[p + 1..], b)
  }

  datatype MatchResult = Found(end: int, caps: seq<Capture>) | NotFound | StackError

  /** The result that corresponds to an outcome. */
  function ResultOf(r: Outcome): MatchResult {
    match r
    case NoMatch => NotFound
    case Match(e, k) => Found(e, k)
  }

  /** The end of the run is ahead as long as the run has not halted. */
  lemma StillAhead(p: Cells, subj: Subject, a: State, k: nat, n: nat)
    requires CellHalted(p, CellRunN(p, subj, a, n)) && !CellHalted(p, CellRunN(p, subj, a, k))
    ensures k < n
  {
    if n <= k {
      CellRunNAdd(p, subj, a, n, k - n);
      CellRunNHalted(p, subj, CellRunN(p, subj, a, n), k - n);
    }
  }

  lemma OneMore(p: Cells, subj: Subject, a: State, k: nat)
    ensures CellRunN(p, subj, a, k + 1) == MachineStep(p, subj, CellRunN(p, subj, a, k))
  {
    CellRunNAdd(p, subj, a, k, 1);
    assert CellRunN(p, subj, CellRunN(p, subj, a, k), 1) == CellRunN(p, subj, MachineStep(p, subj, CellRunN(p, subj, a, k)), 0);
  }

  lemma NeverStuck(p: Cells, subj: Subject, s: int, r: Outcome, k: nat)
    requires CellExec(p, subj, s, r)
    ensures CellRunN(p, subj, Start(s), k) != Stuck
    ensures CellHalted(p, CellRunN(p, subj, Start(s), k)) ==> CellRunN(p, subj, Start(s), k) == CellFinal(p, r)
  {
    var n: nat :| CellRunN(p, subj, Start(s), n) == CellFinal(p, r);
    var b := CellRunN(p, subj, Start(s), k);
    if CellHalted(p, b) {
      CellRunNAdd(p, subj, Start(s), k, n);
      CellRunNAdd(p, subj, Start(s), n, k);
      CellRunNHalted(p, subj, b, n);
      CellRunNHalted(p, subj, CellFinal(p, r), k);
    }
  }

  /** match: the result is the outcome of the cells, or the stack error exactly when the run would
      have more than MAXBACK - 1 choices pending. */
  method Match(code: Cells, subj: Subject, s0: int, ghost r: Outcome) returns (result: MatchResult)
    requires CellExec(code, subj, s0, r)
    ensures result == ResultOf(r) || result == StackError
    ensures result == StackError <==> exists k: nat :: Overflows(code, CellRunN(code, subj, Start(s0), k))
  {
    hide MachineStep;
    var m := new Matcher(code, subj, s0);
    ghost var n: nat :| CellRunN(code, subj, Start(s0), n) == CellFinal(code, r);
    ghost var k := 0;
    while true
      invariant fresh(m) && fresh(m.stack) && fresh(m.captures) && m.Valid() && m.code == code && m.subj == subj
      invariant m.Abs() == CellRunN(code, subj, Start(s0), k)
      invariant forall j: nat :: j < k ==> !Overflows(code, CellRunN(code, subj, Start(s0), j))
      decreases n - k
    {
      NeverStuck(code, subj, s0, r, k);
      if m.gaveUp {
        NoOverflowLater(code, subj, Start(s0), k);
        return NotFound;
      }
      if m.p == |code| {
        NoOverflowLater(code, subj, Start(s0), k);
        return Found(m.s, m.captures[..m.captop]);
      }
      ToStackDepth(m.stack[1..m.top]);
      if code[m.p].code == ICHOICE && m.top >= MAXBACK {
        assert Overflows(code, CellRunN(code, subj, Start(s0), k));
        return StackError;
      }
      assert !Overflows(code, CellRunN(code, subj, Start(s0), k));
      OneMore(code, subj, Start(s0), k);
      NeverStuck(code, subj, s0, r, k + 1);
      StillAhead(code, subj, Start(s0), k, n);
      if code[m.p].code >= IFULLCAPTURE { m.StepCapture(); }
      else if code[m.p].code == ISPAN { m.StepSpan(); }
      else if code[m.p].code <= ISET { m.StepCheck(); }
      else { m.StepJump(); }
      k := k + 1;
    }
  }

  lemma NoOverflowLater(p: Cells, subj: Subject, a: State, k: nat)
    requires CellHalted(p, CellRunN(p, subj, a, k))
    requires forall j: nat :: j < k ==> !Overflows(p, CellRunN(p, subj, a, j))
    ensures !exists j: nat :: Overflows(p, CellRunN(p, subj, a, j))
  {
    forall j: nat
      ensures !Overflows(p, CellRunN(p, subj, a, j))
    {
      if j >= k {
        CellRunNAdd(p, subj, a, k, j - k);
        CellRunNHalted(p, subj, CellRunN(p, subj, a, k), j - k);
      }
    }
  }

  /** Matching a compiled pattern returns what the pattern means, or reports the stack limit. */
  method MatchPattern(p: Pattern, ghost m: Table, code: Cells, subj: Subject, s0: int) returns (result: MatchResult)
    requires Legal(p) && Safe(p) && IsTable(m) && CompileCells(p, m) == Written(code) && 0 <= s0 <= |subj|
    ensures result == ResultOf(Eval(p, subj, s0)) || result == StackError
    ensures result == StackError <==> exists k: nat :: Overflows(code, CellRunN(code, subj, Start(s0), k))
  {
    CellsCorrect(p, m, subj, s0, Eval(p, subj, s0));
    result := Match(code, subj, s0, Eval(p, subj, s0));
  }

  // ---------- verify ----------

  function ToPending(ps: seq<int>): Pending {
    if ps == [] then None else More(ps[|ps| - 1], ToPending(ps[..|ps| - 1]))
  }

  lemma ToPendingMore(ps: seq<int>, pc: int)
    ensures ToPending(ps + [pc]) == More(pc, ToPending(ps))
  {
    assert (ps + [pc])[..|ps|] == ps;
  }

  lemma {:induction false} ToPendingDepth(ps: seq<int>)
    ensures Depth(ToPending(ps)) == |ps|
    decreases |ps|
  {
    if ps != [] { ToPendingDepth(ps[..|ps| - 1]); }
  }

  lemma WalkFacts(p: Cells, v: bool, k: nat)
    requires CellWalks(p, v)
    ensures CellWalkN(p, Visit(0, None), k) != Astray
    ensures CellWalkHalted(p, CellWalkN(p, Visit(0, None), k)) ==> CellWalkN(p, Visit(0, None), k) == CellWalkEnd(p, v)
    ensures CellWalkN(p, Visit(0, None), k + 1) == CellWalkStep(p, CellWalkN(p, Visit(0, None), k))
  {
    hide CellWalkStep;
    var a := Visit(0, None);
    var n: nat :| CellWalkN(p, a, n) == CellWalkEnd(p, v);
    var b := CellWalkN(p, a, k);
    if CellWalkHalted(p, b) {
      CellWalkNAdd(p, a, k, n);
      CellWalkNAdd(p, a, n, k);
      CellWalkNHalted(p, b, n);
      CellWalkNHalted(p, CellWalkEnd(p, v), k);
    }
    CellWalkNAdd(p, a, k, 1);
    assert CellWalkN(p, b, 1) == CellWalkN(p, CellWalkStep(p, b), 0);
  }

  lemma WalkAhead(p: Cells, v: bool, k: nat, n: nat)
    requires CellWalkN(p, Visit(0, None), n) == CellWalkEnd(p, v) && !CellWalkHalted(p, CellWalkN(p, Visit(0, None), k))
    ensures k < n
  {
    if n <= k {
      CellWalkNAdd(p, Visit(0, None), n, k - n);
      CellWalkNHalted(p, CellWalkEnd(p, v), k - n);
    }
  }

  lemma NoWalkOverflowLater(p: Cells, k: nat)
    requires CellWalkHalted(p, CellWalkN(p, Visit(0, None), k))
    requires forall j: nat :: j < k ==> !CellOverflows(p, CellWalkN(p, Visit(0, None), j))
    ensures !CellTooDeep(p)
  {
    forall j: nat
      ensures !CellOverflows(p, CellWalkN(p, Visit(0, None), j))
    {
      if j >= k {
        CellWalkNAdd(p, Visit(0, None), k, j - k);
        CellWalkNHalted(p, CellWalkN(p, Visit(0, None), k), j - k);
      }
    }
  }

  /** What the next round of verify does with p and the stack of pending choices. */
  datatype Move = Goto(pc: int) | PushAndGoOn(target: int) | PopAndGoto(pc: int) | TurnBack

  function NextMove(code: Cells, p: nat): Move
    requires p < |code|
  {
    var h := code[p];
    if h.code == ICHOICE then PushAndGoOn(p + h.offset)
    else if h.code == ICOMMIT || h.code == IBACKCOMMIT then PopAndGoto(p + h.offset)
    else if h.code == IPARTIALCOMMIT || h.code == IJMP then Goto(p + h.offset)
    else if h.code <= ISET then if h.offset == 0 then TurnBack else Goto(p + h.offset)
    else if h.code == IFAILTWICE then TurnBack
    else if h.code == IFAIL then if p > 0 && code[p - 1].code == IBACKCOMMIT then Goto(p + 1) else TurnBack
    else Goto(p + CellWidth(h))
  }

  method PushBack(back: array<int>, backtop: nat, target: int)
    requires backtop < back.Length
    modifies back
    ensures ToPending(back[..backtop + 1]) == More(target, old(ToPending(back[..backtop])))
  {
    back[backtop] := target;
    assert back[..backtop] == old(back[..backtop]);
    assert back[..backtop + 1] == back[..backtop] + [target];
    ToPendingMore(back[..backtop], target);
  }

  lemma PopBack(back: seq<int>, backtop: nat)
    requires 0 < backtop <= |back|
    ensures ToPending(back[..backtop]) == More(back[backtop - 1], ToPending(back[..backtop - 1]))
  {
    assert back[..backtop] == back[..backtop - 1] + [back[backtop - 1]];
    ToPendingMore(back[..backtop - 1], back[backtop - 1]);
  }

  /** What one round knows: the walk goes on by one step, and not astray. */
  lemma RoundFacts(code: Cells, v: bool, k: nat, n: nat, p: int, ps: seq<int>)
    requires CellWalks(code, v) && CellWalkN(code, Visit(0, None), n) == CellWalkEnd(code, v)
    requires CellWalkN(code, Visit(0, None), k) == Visit(p, ToPending(ps)) && p != |code|
    ensures k < n && 0 <= p < |code| && Depth(ToPending(ps)) == |ps|
    ensures CellWalkN(code, Visit(0, None), k + 1) == CellWalkStep(code, Visit(p, ToPending(ps))) != Astray
  {
    WalkFacts(code, v, k);
    WalkFacts(code, v, k + 1);
    WalkAhead(code, v, k, n);
    ToPendingDepth(ps);
  }

  /** verify: the verdict of the loop test on a body; no assertion of the walk ever fails. */
  method Verify(code: Cells, ghost v: bool) returns (verdict: Verdict)
    requires CellWalks(code, v)
    ensures verdict == CellVerdictOf(code)
  {
    var back := new int[MAXBACK];
    var backtop := 0;
    var p := 0;
    ghost var n: nat :| CellWalkN(code, Visit(0, None), n) == CellWalkEnd(code, v);
    ghost var k := 0;
    while p != |code|
      invariant 0 <= backtop <= MAXBACK && back.Length == MAXBACK
      invariant CellWalkN(code, Visit(0, None), k) == Visit(p, ToPending(back[..backtop]))
      invariant forall j: nat :: j < k ==> !CellOverflows(code, CellWalkN(code, Visit(0, None), j))
      decreases n - k
    {
      RoundFacts(code, v, k, n, p, back[..backtop]);
      if backtop > 0 {
        PopBack(back[..], backtop);
        assert back[..][..backtop] == back[..backtop] && back[..][..backtop - 1] == back[..backtop - 1];
      }
      match NextMove(code, p) {
        case PushAndGoOn(target) =>
          if backtop >= MAXBACK {
            assert CellOverflows(code, CellWalkN(code, Visit(0, None), k));
            return TooManyPending;
          }
          PushBack(back, backtop, target);
          backtop, p := backtop + 1, p + 1;
        case PopAndGoto(pc) => backtop, p := backtop - 1, pc;
        case Goto(pc) => p := pc;
        case TurnBack =>
          if backtop == 0 {
            NoWalkOverflowLater(code, k + 1);
            WalksFromEnd(code, v, k + 1);
            return Accepts;
          }
          backtop := backtop - 1;
          p := back[backtop];
      }
      k := k + 1;
    }
    NoWalkOverflowLater(code, k);
    WalksFromEnd(code, v, k);
    return Rejects;
  }

  lemma WalksFromEnd(p: Cells, v: bool, k: nat)
    requires CellWalks(p, v) && CellWalkHalted(p, CellWalkN(p, Visit(0, None), k))
    ensures v <==> CellWalkN(p, Visit(0, None), k).Visit?
    ensures CellNullable(p) <==> v
  {
    WalkFacts(p, v, k);
    if CellNullable(p) {
      var j: nat :| CellWalkN(p, Visit(0, None), j) == Visit(|p|, None);
      WalkFacts(p, v, j);
    }
  }
}
