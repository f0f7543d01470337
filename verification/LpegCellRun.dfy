/** The machine and the loop test over cells.  Every instruction is read back from its cells as it
    was, so both go through the cells of a code as they go through the code. */
module LpegCellRun {
  import opened LpegMachine
  import opened LpegCombinators
  import opened LpegVerifier
  import opened LpegCells
  import opened LpegCellBuild
  import opened LpegCellRelate
  import opened LpegCellShapes

  // ---------- reading instructions back ----------

  function KindOf(n: nat): CapKind {
    if n == 0 then Cclose else if n == 1 then Cposition else if n == 2 then Cconst else if n == 3 then Cbackref else if n == 4 then Carg
    else if n == 5 then Csimple else if n == 6 then Ctable else if n == 7 then Cfunction else if n == 8 then Cquery else if n == 9 then Cstring
    else if n == 10 then Csubst else if n == 11 then Cfold else Cgroup
  }

  datatype Reading = Unknown | Known(i: Inst)

  /** The charset behind the cell at index pc. */
  function CharsetAt(p: Cells, pc: nat): set<Byte>
    requires pc < |p|
  {
    CharsetOf(if pc + CHARSETINSTSIZE <= |p| then p[pc + 1..pc + CHARSETINSTSIZE] else p[pc + 1..])
  }

  /** The instruction at index pc. */
  function InstAt(p: Cells, pc: nat): Reading
    requires pc < |p|
  {
    var Cell(code, aux, off) := p[pc];
    if code == IANY then Known(Any(aux, off))
    else if code == ICHAR then Known(Char(aux, off))
    else if code == ISET then Known(Set(CharsetAt(p, pc), off))
    else if code == ISPAN then Known(Span(CharsetAt(p, pc)))
    else if code == ICHOICE then Known(Choice(off, aux))
    else if code == IJMP then Known(Jmp(off))
    else if code == ICOMMIT then Known(Commit(off))
    else if code == IPARTIALCOMMIT then Known(PartialCommit(off))
    else if code == IBACKCOMMIT then Known(BackCommit(off))
    else if code == IFAILTWICE then Known(FailTwice)
    else if code == IFAIL then Known(Fail)
    else if code == IFULLCAPTURE then Known(FullCapture(off, KindOf(aux % 16), aux / 16))
    else if code == IEMPTYCAPTURE || code == IEMPTYCAPTUREIDX then Known(EmptyCapture(off, KindOf(aux % 16), aux / 16))
    else if code == IOPENCAPTURE then Known(OpenCapture(off, KindOf(aux % 16), aux / 16))
    else if code == ICLOSECAPTURE then Known(CloseCapture(off, KindOf(aux % 16), aux / 16))
    else Unknown
  }

  lemma KindBack(kind: CapKind, off: nat)
    requires off <= MAXOFF
    ensures KindOf(CapAux(kind, off) % 16) == kind && CapAux(kind, off) / 16 == off
  {
    CapAuxParts(kind, off);
    SmallKind(kind);
    assert (KindNumber(kind) + 16 * off) % 16 == KindNumber(kind);
  }

  /** Each instruction is read back from its cells, wherever they stand. */
  lemma InstBack(p: Cells, pc: nat, i: Inst)
    requires InstFits(i) && pc + Width(i) <= |p| && p[pc..pc + Width(i)] == InstCells(i)
    ensures InstAt(p, pc) == Known(i) && CellWidth(p[pc]) == Width(i)
  {
    hide RawCells, CapAux, KindOf;
    assert p[pc] == p[pc..pc + Width(i)][0] == Header(i);
    if i.FullCapture? || IsMovable(i) { KindBack(i.kind, i.off); }
    if HasCharset(i) {
      assert p[pc + 1..pc + CHARSETINSTSIZE] == p[pc..pc + Width(i)][1..] == RawCells(i.cs);
      CharsetBack(i.cs);
    }
  }

  /** Instruction k of a code, read from its cells. */
  lemma CodeBack(c: Code, k: nat)
    requires CodeFits(c) && k < |c|
    ensures 0 <= Pos(c, k) < |Encode(c)| && InstAt(Encode(c), Pos(c, k)) == Known(Relocate(c)[k])
    ensures Pos(c, k) + CellWidth(Encode(c)[Pos(c, k)]) == Pos(c, k + 1)
  {
    hide Flatten, Pos, Relocate, InstCells, InstAt;
    var r := Relocate(c);
    CellsAt(r, k);
    RelocatePos(c, k);
    RelocatePos(c, k + 1);
    RelocateFits(c);
    assert InstFits(r[k]);
    InstBack(Encode(c), Pos(c, k), r[k]);
  }

  // ---------- the machine ----------

  predicate CellHalted(p: Cells, st: State) { !st.Run? || !(0 <= st.pc < |p|) }

  function MachineStep(p: Cells, subj: Subject, st: State): State {
    if CellHalted(p, st) then st
    else match InstAt(p, st.pc)
         case Unknown => Stuck
         case Known(i) => Perform(i, st.pc, st.pc + CellWidth(p[st.pc]), subj, st.s, st.stack, st.caps)
  }

  function CellRunN(p: Cells, subj: Subject, st: State, n: nat): State
    decreases n
  {
    if n == 0 then st else CellRunN(p, subj, MachineStep(p, subj, st), n - 1)
  }

  lemma {:induction false} CellRunNAdd(p: Cells, subj: Subject, a: State, m: nat, n: nat)
    ensures CellRunN(p, subj, a, m + n) == CellRunN(p, subj, CellRunN(p, subj, a, m), n)
    decreases m
  {
    hide MachineStep;
    if m > 0 { CellRunNAdd(p, subj, MachineStep(p, subj, a), m - 1, n); }
  }

  lemma {:induction false} CellRunNHalted(p: Cells, subj: Subject, a: State, n: nat)
    requires CellHalted(p, a)
    ensures CellRunN(p, subj, a, n) == a
  {
    if n > 0 { CellRunNHalted(p, subj, a, n - 1); }
  }

  function PlacedStack(c: Code, stk: Stack): Stack {
    match stk
    case Empty => Empty
    case Push(f, below) => Push(Frame(Pos(c, f.pc), f.s, f.caplevel), PlacedStack(c, below))
  }

  /** A state of the machine, with indices of cells for those of instructions. */
  function Placed(c: Code, st: State): State {
    match st
    case Run(pc, s, stk, caps) => Run(Pos(c, pc), s, PlacedStack(c, stk), caps)
    case _ => st
  }

  lemma PlacedBacktrack(c: Code, stk: Stack, caps: seq<Capture>)
    ensures Backtrack(PlacedStack(c, stk), caps) == Placed(c, Backtrack(stk, caps))
  {
  }

  /** A step does the same from index to index. */
  lemma PerformPlaced(c: Code, i: Inst, j: Inst, pc: int, next: int, subj: Subject, s: int, stk: Stack, caps: seq<Capture>)
    requires if HasTarget(i) then HasTarget(j) && j == SetOffset(i, Pos(c, pc + i.offset) - Pos(c, pc)) else j == i
    ensures Perform(j, Pos(c, pc), Pos(c, next), subj, s, PlacedStack(c, stk), caps) == Placed(c, Perform(i, pc, next, subj, s, stk, caps))
  {
    hide Pos, Backtrack, SpanEnd, CaptureStep;
    PlacedBacktrack(c, stk, caps);
    if stk.Push? { PlacedBacktrack(c, stk.below, caps); }
    if i.FullCapture? || IsMovable(i) { CapturePlaced(c, i, s, stk, caps); }
  }

  lemma CapturePlaced(c: Code, i: Inst, s: int, stk: Stack, caps: seq<Capture>)
    requires i.FullCapture? || IsMovable(i)
    ensures CaptureStep(i, s, PlacedStack(c, stk), caps) == CaptureStep(i, s, stk, caps)
  {
  }

  lemma HaltedPlaced(c: Code, st: State)
    ensures CellHalted(Encode(c), Placed(c, st)) == Halted(c, st)
  {
    if st.Run? {
      EncodeLength(c);
      PosOrder(c, st.pc, 0);
      PosOrder(c, st.pc, |c|);
    }
  }

  /** A step over cells is a step over instructions. */
  lemma StepAgrees(c: Code, subj: Subject, st: State)
    requires CodeFits(c)
    ensures MachineStep(Encode(c), subj, Placed(c, st)) == Placed(c, Step(c, subj, st))
  {
    hide Pos, Encode, CodeFits, InstAt, Perform, Relocate, CellHalted, Halted;
    HaltedPlaced(c, st);
    if !Halted(c, st) {
      HaltedMeans(c, st);
      CodeBack(c, st.pc);
      RelocateAt(c, st.pc);
      PerformPlaced(c, c[st.pc], Relocate(c)[st.pc], st.pc, st.pc + 1, subj, st.s, st.stack, st.caps);
    }
  }

  lemma HaltedMeans(c: Code, st: State)
    ensures Halted(c, st) == (!st.Run? || !(0 <= st.pc < |c|))
  {
  }

  /** Runs over cells are runs over instructions. */
  lemma {:induction false} RunAgrees(c: Code, subj: Subject, st: State, n: nat)
    requires CodeFits(c)
    ensures CellRunN(Encode(c), subj, Placed(c, st), n) == Placed(c, RunN(c, subj, st, n))
    decreases n
  {
    hide Encode, CodeFits, Placed, Step, MachineStep;
    if n > 0 {
      StepAgrees(c, subj, st);
      RunAgrees(c, subj, Step(c, subj, st), n - 1);
    }
  }

  /** Where a run over cells ends. */
  function CellFinal(p: Cells, r: Outcome): State {
    match r
    case NoMatch => Failed
    case Match(e, k) => Run(|p|, e, Empty, k)
  }

  ghost predicate CellExec(p: Cells, subj: Subject, s: int, r: Outcome) {
    exists n: nat :: CellRunN(p, subj, Start(s), n) == CellFinal(p, r)
  }

  lemma ExecAgrees(c: Code, subj: Subject, s: int, r: Outcome)
    requires CodeFits(c)
    ensures CellExec(Encode(c), subj, s, r) <==> Exec(c, subj, s, r)
  {
    hide Encode, CodeFits, RunN, CellRunN;
    EndsPlaced(c, s, r);
    if Exec(c, subj, s, r) {
      var n: nat :| RunN(c, subj, Start(s), n) == Final(c, r);
      RunAgrees(c, subj, Start(s), n);
      assert CellRunN(Encode(c), subj, Start(s), n) == CellFinal(Encode(c), r);
    }
    if CellExec(Encode(c), subj, s, r) {
      var n: nat :| CellRunN(Encode(c), subj, Start(s), n) == CellFinal(Encode(c), r);
      RunAgrees(c, subj, Start(s), n);
      PlacedOnce(c, RunN(c, subj, Start(s), n), Final(c, r));
    }
  }

  lemma EndsPlaced(c: Code, s: int, r: Outcome)
    ensures Placed(c, Start(s)) == Start(s) && Placed(c, Final(c, r)) == CellFinal(Encode(c), r)
  {
    EncodeLength(c);
  }

  /** Different states have different places. */
  lemma PlacedOnce(c: Code, a: State, b: State)
    requires Placed(c, a) == Placed(c, b)
    ensures a == b
  {
    if a.Run? {
      PosOrder(c, a.pc, b.pc);
      StackOnce(c, a.stack, b.stack);
    }
  }

  lemma {:induction false} StackOnce(c: Code, a: Stack, b: Stack)
    requires PlacedStack(c, a) == PlacedStack(c, b)
    ensures a == b
  {
    if a.Push? && b.Push? {
      PosOrder(c, a.top.pc, b.top.pc);
      StackOnce(c, a.below, b.below);
    }
  }

  // ---------- the loop test ----------

  predicate CellWalkHalted(p: Cells, w: Walk) { !w.Visit? || !(0 <= w.pc < |p|) }

  /** As `verify` reads cells: at a failure it looks at the cell before. */
  function CellWalkStep(p: Cells, w: Walk): Walk {
    if CellWalkHalted(p, w) then w
    else
      var Visit(pc, pending) := w;
      var h := p[pc];
      if h.code == ICHOICE then Visit(pc + 1, More(pc + h.offset, pending))
      else if h.code == ICOMMIT || h.code == IBACKCOMMIT then
        if pending.More? && h.offset > 0 then Visit(pc + h.offset, pending.older) else Astray
      else if h.code == IPARTIALCOMMIT then if pending.More? && h.offset > 0 then Visit(pc + h.offset, pending) else Astray
      else if h.code <= ISET then if h.offset == 0 then WalkBack(pending) else Visit(pc + h.offset, pending)
      else if h.code == IJMP then Visit(pc + h.offset, pending)
      else if h.code == IFAILTWICE then WalkBack(pending)
      else if h.code == IFAIL then if pc > 0 && p[pc - 1].code == IBACKCOMMIT then Visit(pc + 1, pending) else WalkBack(pending)
      else if h.code == ISPAN || IFULLCAPTURE <= h.code <= ICLOSECAPTURE then Visit(pc + CellWidth(h), pending)
      else Astray
  }

  function CellWalkN(p: Cells, w: Walk, n: nat): Walk
    decreases n
  {
    if n == 0 then w else CellWalkN(p, CellWalkStep(p, w), n - 1)
  }

  lemma {:induction false} CellWalkNAdd(p: Cells, a: Walk, m: nat, n: nat)
    ensures CellWalkN(p, a, m + n) == CellWalkN(p, CellWalkN(p, a, m), n)
    decreases m
  {
    hide CellWalkStep;
    if m > 0 { CellWalkNAdd(p, CellWalkStep(p, a), m - 1, n); }
  }

  lemma {:induction false} CellWalkNHalted(p: Cells, a: Walk, n: nat)
    requires CellWalkHalted(p, a)
    ensures CellWalkN(p, a, n) == a
  {
    if n > 0 { CellWalkNHalted(p, a, n - 1); }
  }

  /** Where the walk ends, for a code that may match the empty string and for one that may not. */
  function CellWalkEnd(p: Cells, nullable: bool): Walk { if nullable then Visit(|p|, None) else Exhausted }

  ghost predicate CellWalks(p: Cells, nullable: bool) { exists n: nat :: CellWalkN(p, Visit(0, None), n) == CellWalkEnd(p, nullable) }

  function PlacedPending(c: Code, q: Pending): Pending {
    match q
    case None => None
    case More(pc, older) => More(Pos(c, pc), PlacedPending(c, older))
  }

  function PlacedWalk(c: Code, w: Walk): Walk {
    match w
    case Visit(pc, q) => Visit(Pos(c, pc), PlacedPending(c, q))
    case _ => w
  }

  /** What the first cell of an instruction tells the loop test. */
  lemma WalkHead(c: Code, k: nat)
    requires CodeFits(c) && k < |c|
    ensures 0 <= Pos(c, k) < |Encode(c)|
    ensures var h := Encode(c)[Pos(c, k)];
      && h == Header(Relocate(c)[k]) && Pos(c, k) + CellWidth(h) == Pos(c, k + 1)
      && (HasTarget(c[k]) ==> Pos(c, k) + h.offset == Pos(c, Dest(c, k)) && (h.offset > 0 <==> c[k].offset > 0))
      && (IsCheckOp(c[k]) ==> (h.offset == 0 <==> c[k].offset == 0))
      && (k > 0 && !HasCharset(c[k - 1]) ==> Pos(c, k) > 0 && (Encode(c)[Pos(c, k) - 1].code == IBACKCOMMIT <==> c[k - 1].BackCommit?))
      && (Pos(c, k) > 0 ==> k > 0)
  {
    hide Pos, Encode, Relocate, Header, CellWidth;
    HeadAt(c, k);
    RelocateAt(c, k);
    PosZero(c);
    if HasTarget(c[k]) { PosOrder(c, k, Dest(c, k)); OffsetIs(Relocate(c)[k]); }
    if IsCheckOp(c[k]) { OffsetIs(Relocate(c)[k]); }
    if k > 0 && !HasCharset(c[k - 1]) {
      HeadAt(c, k - 1);
      RelocateAt(c, k - 1);
      CodeIs(Relocate(c)[k - 1]);
      assert Width(c[k - 1]) == 1;
    }
  }

  /** A step of the loop test over cells. */
  lemma WalkStepAgrees(c: Code, w: Walk)
    requires CodeFits(c) && WalkStep(c, w) != Astray
    ensures CellWalkStep(Encode(c), PlacedWalk(c, w)) == PlacedWalk(c, WalkStep(c, w))
  {
    hide Pos, Encode, CodeFits, Relocate;
    if w.Visit? {
      EncodeLength(c);
      PosOrder(c, w.pc, 0);
      PosOrder(c, w.pc, |c|);
      PosZero(c);
      if 0 <= w.pc < |c| {
        WalkHead(c, w.pc);
        RelocateAt(c, w.pc);
      }
    }
  }

  /** If the walk never goes astray, it is the same over cells. */
  lemma {:induction false} WalkAgrees(c: Code, w: Walk, n: nat)
    requires CodeFits(c) && WalkN(c, w, n) != Astray
    ensures CellWalkN(Encode(c), PlacedWalk(c, w), n) == PlacedWalk(c, WalkN(c, w, n))
    decreases n
  {
    hide Encode, CodeFits, WalkStep, CellWalkStep, PlacedWalk;
    if n > 0 {
      if WalkStep(c, w) == Astray { WalkNHalted(c, Astray, n - 1); }
      WalkStepAgrees(c, w);
      WalkAgrees(c, WalkStep(c, w), n - 1);
    }
  }

  lemma WalksAgree(c: Code, v: bool)
    requires CodeFits(c) && Walks(c, v)
    ensures CellWalks(Encode(c), v)
  {
    hide Encode, CodeFits, WalkN, CellWalkN;
    var n: nat :| WalkN(c, Visit(0, None), n) == WalkEnd(c, v);
    WalkAgrees(c, Visit(0, None), n);
    PosZero(c);
    EncodeLength(c);
  }
}
