/** What moving captures does to runs that a test sends between the captures and the checks.  The pass
    looks at jumps only, so this can happen; the moved code then has fewer checks left, and the two
    codes go on alike exactly where the checks left in each of them fail. */
module LpegLandings {
  import opened LpegMachine
  import opened LpegCombinators
  import opened LpegSimulation
  import opened LpegWellFormed
  import opened LpegCells

  // ---------- one landing ----------

  /** Captures and checks that only tests lead into. */
  predicate TestsOnly(c: Code, start: nat, i: nat, end: nat, n: nat) {
    && SliceShape(c, start, i, end, n)
    && (forall j :: i < j <= end ==> OpStep(c[j]) >= 1)
    && (forall j :: 0 <= j < |c| && HasTarget(c[j]) && !IsTest(c[j]) ==> OutsidePc(Dest(c, j), start, end))
  }

  /** The checks left from index j on. */
  function Left(c: Code, i: nat, end: nat, j: nat): Code
    requires i < end < |c| && j <= end
  {
    if j <= i then c[i + 1..end + 1] else c[j..end + 1]
  }

  /** The checks left from index k on, once the captures have been moved. */
  function LeftMoved(c: Code, start: nat, i: nat, end: nat, k: nat): Code
    requires start <= i < end < |c| && start <= k
  {
    if k < start + (end - i) then c[i + 1 + (k - start)..end + 1] else []
  }

  lemma LeftChecks(c: Code, start: nat, i: nat, end: nat, n: nat, j: nat, k: nat)
    requires SliceShape(c, start, i, end, n) && j <= end && start <= k
    ensures forall x :: 0 <= x < |Left(c, i, end, j)| ==> IsCheck(Left(c, i, end, j)[x])
    ensures forall x :: 0 <= x < |LeftMoved(c, start, i, end, k)| ==> IsCheck(LeftMoved(c, start, i, end, k)[x])
  {
  }

  /** Having run the captures with the given effect and met the checks, at the end of the slice. */
  function Out(checks: Code, subj: Subject, s: int, end: nat, stk: Stack, before: CapResult, after: CapResult): State
    requires forall x :: 0 <= x < |checks| ==> IsCheck(checks[x])
  {
    match before
    case Broken => Stuck
    case Caps(k) =>
      if !AllPass(checks, subj, s) then Backtrack(stk, k)
      else match after
           case Broken => Stuck
           case Caps(k2) => Run(end + 1, s + TotalStep(checks), stk, k2)
  }

  /** Where the code leaves the slice when it has landed at index j. */
  function Exit(c: Code, start: nat, i: nat, end: nat, n: nat, subj: Subject, j: nat, s: int, stk: Stack, caps: seq<Capture>): State
    requires SliceShape(c, start, i, end, n) && start < j <= end
  {
    LeftChecks(c, start, i, end, n, j, j);
    var r := if j <= i then CaptureAll(c[j..i + 1], s, stk, caps) else Caps(caps);
    Out(Left(c, i, end, j), subj, s, end, stk, r, r)
  }

  /** Where the moved code leaves it when it has landed at index k. */
  function ExitMoved(c: Code, start: nat, i: nat, end: nat, n: nat, subj: Subject, k: nat, s: int, stk: Stack, caps: seq<Capture>): State
    requires SliceShape(c, start, i, end, n) && start < k <= end
  {
    LeftChecks(c, start, i, end, n, end, k);
    var checks, m := LeftMoved(c, start, i, end, k), end - i;
    var moved := if k < start + m then DelayAll(c[start..i + 1], n) else DelayAll(c[k - m..i + 1], n);
    Out(checks, subj, s, end, stk, Caps(caps), CaptureAll(moved, s + TotalStep(checks), stk, caps))
  }

  /** The original code does get from the landing to its exit. */
  lemma ExitReached(c: Code, start: nat, i: nat, end: nat, n: nat, subj: Subject, j: nat, s: int, stk: Stack, caps: seq<Capture>)
    requires SliceShape(c, start, i, end, n) && start < j <= end
    ensures Reaches(c, subj, Run(j, s, stk, caps), Exit(c, start, i, end, n, subj, j, s, stk, caps))
  {
    hide CaptureStep, Perform, Step, AllPass, TotalStep;
    LeftChecks(c, start, i, end, n, j, j);
    var a, checks := Run(j, s, stk, caps), Left(c, i, end, j);
    if j <= i {
      var group := c[j..i + 1];
      CapturesRun(c, j, group, subj, s, stk, caps);
      if CaptureAll(group, s, stk, caps).Caps? {
        var caps1 := CaptureAll(group, s, stk, caps).caps;
        var k := ChecksRun(c, i + 1, checks, subj, s, stk, caps1);
        RunNAdd(c, subj, a, |group|, k);
        assert RunN(c, subj, a, |group| + k) == Exit(c, start, i, end, n, subj, j, s, stk, caps);
      }
    } else {
      var k := ChecksRun(c, j, checks, subj, s, stk, caps);
    }
  }

  lemma MovedCodeParts(c: Code, start: nat, i: nat, end: nat, n: nat, k: nat)
    requires SliceShape(c, start, i, end, n) && start < k <= end
    ensures var d, m := MoveSlice(c, start, i, end, n), end - i;
      if k < start + m then At(d, k, LeftMoved(c, start, i, end, k)) && At(d, start + m, DelayAll(c[start..i + 1], n))
      else At(d, k, DelayAll(c[k - m..i + 1], n))
  {
    hide MoveSlice, DelayAll;
    var d, m := MoveSlice(c, start, i, end, n), end - i;
    MovedParts(c, start, i, end, n);
    if k < start + m {
      PartOfPart(d, start, c[i + 1..end + 1], k - start);
      assert c[i + 1..end + 1][k - start..] == c[i + 1 + (k - start)..end + 1];
    } else {
      PartOfPart(d, start + m, DelayAll(c[start..i + 1], n), k - (start + m));
      assert c[start..i + 1][k - (start + m)..] == c[k - m..i + 1];
      DelaySuffix(c[start..i + 1], n, k - (start + m));
    }
  }

  lemma PartOfPart(d: Code, at: nat, part: Code, k: nat)
    requires At(d, at, part) && k <= |part|
    ensures At(d, at + k, part[k..])
  {
    assert d[at + k..at + |part|] == d[at..at + |part|][k..];
  }

  lemma DelaySuffix(caps: Code, n: nat, k: nat)
    requires k <= |caps| && forall j :: 0 <= j < |caps| ==> IsMovable(caps[j])
    ensures DelayAll(caps, n)[k..] == DelayAll(caps[k..], n)
  {
  }

  /** And so does the moved code. */
  lemma ExitMovedReached(c: Code, start: nat, i: nat, end: nat, n: nat, subj: Subject, k: nat, s: int, stk: Stack, caps: seq<Capture>)
    requires SliceShape(c, start, i, end, n) && start < k <= end
    ensures Reaches(MoveSlice(c, start, i, end, n), subj, Run(k, s, stk, caps), ExitMoved(c, start, i, end, n, subj, k, s, stk, caps))
  {
    hide CaptureStep, Perform, Step, AllPass, TotalStep, MoveSlice, LeftMoved, DelayAll, CaptureAll, At;
    LeftChecks(c, start, i, end, n, end, k);
    LeftMovedSize(c, start, i, end, k);
    MovedCodeParts(c, start, i, end, n, k);
    var d, m, a, checks := MoveSlice(c, start, i, end, n), end - i, Run(k, s, stk, caps), LeftMoved(c, start, i, end, k);
    NoChecks(subj, s);
    if k < start + m {
      var moved := DelayAll(c[start..i + 1], n);
      var x := ChecksRun(d, k, checks, subj, s, stk, caps);
      if AllPass(checks, subj, s) {
        CapturesRun(d, start + m, moved, subj, s + TotalStep(checks), stk, caps);
        RunNAdd(d, subj, a, x, |moved|);
      }
    } else {
      CapturesRun(d, k, DelayAll(c[k - m..i + 1], n), subj, s, stk, caps);
    }
  }

  lemma LeftMovedSize(c: Code, start: nat, i: nat, end: nat, k: nat)
    requires start <= i < end < |c| && start <= k
    ensures if k < start + (end - i) then |LeftMoved(c, start, i, end, k)| == start + (end - i) - k else LeftMoved(c, start, i, end, k) == []
  {
  }

  lemma NoChecks(subj: Subject, s: int)
    ensures AllPass([], subj, s) && TotalStep([]) == 0
  {
  }

  /** The index at which the moved code lands is further on among the checks. */
  predicate FurtherOn(start: nat, i: nat, end: nat, j: nat, k: nat) {
    start < k && (j > i && k < start + (end - i) ==> j < i + 1 + (k - start))
  }

  lemma {:induction false} TotalSplit(a: Code, b: Code)
    ensures TotalStep(a + b) == TotalStep(a) + TotalStep(b)
    decreases |a|
  {
    if a == [] { assert a + b == b; } else {
      assert (a + b)[1..] == a[1..] + b;
      TotalSplit(a[1..], b);
    }
  }

  lemma {:induction false} TotalPositive(a: Code)
    requires forall x :: 0 <= x < |a| ==> OpStep(a[x]) >= 1
    ensures TotalStep(a) >= |a|
  {
    if a != [] { TotalPositive(a[1..]); }
  }

  /** Fewer bytes are left to check in the moved code. */
  lemma FewerLeft(c: Code, start: nat, i: nat, end: nat, n: nat, j: nat, k: nat)
    requires SliceShape(c, start, i, end, n) && (forall x :: i < x <= end ==> OpStep(c[x]) >= 1)
    requires start < j <= end && start < k <= end && FurtherOn(start, i, end, j, k)
    ensures TotalStep(LeftMoved(c, start, i, end, k)) < TotalStep(Left(c, i, end, j))
  {
    hide TotalStep, OpStep;
    var first := if j <= i then i + 1 else j;
    var next := if k < start + (end - i) then i + 1 + (k - start) else end + 1;
    var skipped, left := c[first..next], c[next..end + 1];
    assert Left(c, i, end, j) == skipped + left;
    TotalSplit(skipped, left);
    TotalPositive(skipped);
  }

  lemma NotBelow(stk: Stack)
    requires stk.Push?
    ensures stk.below != stk
  {
    assert Depth(stk) == 1 + Depth(stk.below);
  }

  function Depth(stk: Stack): nat { if stk.Empty? then 0 else 1 + Depth(stk.below) }

  /** Unless one of the machine's assertions breaks, the original and the moved code leave the slice in
      the same state exactly if both fail in it: if one of the checks left in each of them fails. */
  lemma LandingExact(c: Code, start: nat, i: nat, end: nat, n: nat, subj: Subject, j: nat, k: nat, s: int, stk: Stack, caps: seq<Capture>)
    requires TestsOnly(c, start, i, end, n) && start < j <= end && start < k <= end && FurtherOn(start, i, end, j, k)
    requires LevelsOk(stk, |caps|)
    requires Exit(c, start, i, end, n, subj, j, s, stk, caps) != Stuck && ExitMoved(c, start, i, end, n, subj, k, s, stk, caps) != Stuck
    ensures (forall x :: 0 <= x < |Left(c, i, end, j)| ==> IsCheck(Left(c, i, end, j)[x]))
      && (forall x :: 0 <= x < |LeftMoved(c, start, i, end, k)| ==> IsCheck(LeftMoved(c, start, i, end, k)[x]))
    ensures Exit(c, start, i, end, n, subj, j, s, stk, caps) == ExitMoved(c, start, i, end, n, subj, k, s, stk, caps)
       <==> !AllPass(Left(c, i, end, j), subj, s) && !AllPass(LeftMoved(c, start, i, end, k), subj, s)
  {
    hide CaptureStep, AllPass, TotalStep, Left, LeftMoved, MoveSlice;
    LeftChecks(c, start, i, end, n, j, k);
    FewerLeft(c, start, i, end, n, j, k);
    if stk.Push? { NotBelow(stk); }
    if j <= i { CaptureAllKeeps(c[j..i + 1], s, stk, caps); }
  }

  // ---------- landings in cells ----------

  /** Where the checks of the moved code start, in cells. */
  lemma {:induction false} MovedPos(c: Code, start: nat, i: nat, end: nat, n: nat, t: nat)
    requires SliceShape(c, start, i, end, n) && t <= end - i
    ensures Pos(MoveSlice(c, start, i, end, n), start + t) == Pos(c, start) + Pos(c, i + 1 + t) - Pos(c, i + 1)
    decreases t
  {
    hide MoveSlice, Width, Pos;
    var d := MoveSlice(c, start, i, end, n);
    if t == 0 {
      MovedFront(c, start, i, end, n);
      PosFront(c, d, start);
    } else {
      MovedPos(c, start, i, end, n, t - 1);
      MovedCheck(c, start, i, end, n, t - 1);
      PosNext(d, start + t - 1);
      PosNext(c, i + t);
    }
  }

  lemma MovedCheck(c: Code, start: nat, i: nat, end: nat, n: nat, t: nat)
    requires SliceShape(c, start, i, end, n) && t < end - i
    ensures MoveSlice(c, start, i, end, n)[start + t] == c[i + 1 + t]
  {
    hide MoveSlice;
    var d := MoveSlice(c, start, i, end, n);
    MovedParts(c, start, i, end, n);
    assert d[start + t] == d[start..start + (end - i)][t] == c[i + 1..end + 1][t];
  }

  lemma MovedFront(c: Code, start: nat, i: nat, end: nat, n: nat)
    requires SliceShape(c, start, i, end, n)
    ensures forall j :: 0 <= j < start ==> MoveSlice(c, start, i, end, n)[j] == c[j]
  {
  }

  lemma {:induction false} PosFront(c: Code, d: Code, k: nat)
    requires k <= |c| && k <= |d| && forall j :: 0 <= j < k ==> c[j] == d[j]
    ensures Pos(c, k) == Pos(d, k)
  {
    if k > 0 { PosFront(c, d, k - 1); }
  }

  lemma {:induction false} CapturesPos(c: Code, start: nat, j: nat)
    requires start <= j <= |c| && forall x :: start <= x < j ==> IsMovable(c[x])
    ensures Pos(c, j) == Pos(c, start) + (j - start)
    decreases j
  {
    if start < j { CapturesPos(c, start, j - 1); assert IsMovable(c[j - 1]); }
  }

  /** A test that leads to one cell leads further on in the moved code, wherever in the slice it leads:
      the captures that stood before the checks take the place of some of them. */
  lemma SameCell(c: Code, start: nat, i: nat, end: nat, n: nat, j: nat, k: nat)
    requires SliceShape(c, start, i, end, n) && start < j <= end && start <= k <= end
    requires Pos(c, j) == Pos(MoveSlice(c, start, i, end, n), k)
    ensures FurtherOn(start, i, end, j, k)
  {
    hide MoveSlice, Pos;
    var d := MoveSlice(c, start, i, end, n);
    MovedPos(c, start, i, end, n, 0);
    PosOrder(c, start, j);
    PosOrder(d, start, k);
    if j > i && k < start + (end - i) {
      MovedPos(c, start, i, end, n, k - start);
      CapturesPos(c, start, i + 1);
      PosOrder(c, j, i + 1 + (k - start));
    }
  }

  // ---------- whole runs ----------

  /** One step from outside the slice to outside the slice: through it from its start, or from where a
      test has landed in it.  The original and the moved code differ in what follows a landing. */
  function Through(c: Code, start: nat, i: nat, end: nat, n: nat, subj: Subject, st: State, moved: bool): State
    requires SliceShape(c, start, i, end, n)
  {
    if Halted(c, st) then st
    else if st.pc == start then
      (match CaptureAll(c[start..i + 1], st.s, st.stack, st.caps)
       case Broken => Stuck
       case Caps(k) => if AllPass(c[i + 1..end + 1], subj, st.s) then Run(end + 1, st.s + n, st.stack, k) else Backtrack(st.stack, k))
    else
      var to := Step(c, subj, st);
      if Lands(to, start, end) then
        (if moved then ExitMoved(c, start, i, end, n, subj, to.pc, to.s, to.stack, to.caps) else Exit(c, start, i, end, n, subj, to.pc, to.s, to.stack, to.caps))
      else to
  }

  predicate Lands(to: State, start: int, end: int) { to.Run? && start < to.pc <= end }

  /** Everything a run comes to outside the slice. */
  function Trace(c: Code, start: nat, i: nat, end: nat, n: nat, subj: Subject, a: State, moved: bool, k: nat): State
    requires SliceShape(c, start, i, end, n)
    decreases k
  {
    if k == 0 then a else Through(c, start, i, end, n, subj, Trace(c, start, i, end, n, subj, a, moved, k - 1), moved)
  }

  /** If the next step lands inside the slice, one of the checks left there fails, in both codes. */
  predicate FailsInBoth(c: Code, start: nat, i: nat, end: nat, n: nat, subj: Subject, st: State)
    requires SliceShape(c, start, i, end, n)
  {
    Halted(c, st) || st.pc == start ||
    var to := Step(c, subj, st);
    Lands(to, start, end) ==>
      (LeftChecks(c, start, i, end, n, to.pc, to.pc);
       !AllPass(Left(c, i, end, to.pc), subj, to.s) && !AllPass(LeftMoved(c, start, i, end, to.pc), subj, to.s))
  }

  /** If the slice holds no charset, an index in it is the same cell before and after the move. */
  lemma {:induction false} SameIndex(c: Code, start: nat, i: nat, end: nat, n: nat, j: nat)
    requires SliceShape(c, start, i, end, n) && start <= j <= end && forall x :: start <= x <= end ==> !HasCharset(c[x])
    ensures Pos(MoveSlice(c, start, i, end, n), j) == Pos(c, j)
    decreases j
  {
    hide MoveSlice;
    var d := MoveSlice(c, start, i, end, n);
    if j == start {
      MovedFront(c, start, i, end, n);
      PosFront(c, d, start);
    } else {
      SameIndex(c, start, i, end, n, j - 1);
      MovedWidth(c, start, i, end, n, j - 1);
    }
  }

  lemma MovedWidth(c: Code, start: nat, i: nat, end: nat, n: nat, j: nat)
    requires SliceShape(c, start, i, end, n) && start <= j <= end && forall x :: start <= x <= end ==> !HasCharset(c[x])
    ensures !HasCharset(MoveSlice(c, start, i, end, n)[j])
  {
    hide MoveSlice;
    MoveSliceIndex(c, start, i, end, n, j);
    if j >= start + (end - i) { assert IsMovable(c[j - (end - i)]); }
  }

  /** A step from outside leaves the pending choices outside. */
  lemma StepOutside(c: Code, start: nat, i: nat, end: nat, n: nat, subj: Subject, st: State)
    requires TestsOnly(c, start, i, end, n) && SliceState(st, start, end) && !Halted(c, st) && st.pc != start
    ensures var to := Step(c, subj, st);
      if Lands(to, start, end) then StackOutside(to.stack, start, end) && LevelsOk(to.stack, |to.caps|) else SliceState(to, start, end)
  {
    hide SliceShape;
    var Run(pc, s, stk, caps) := st;
    if HasTarget(c[pc]) && !IsTest(c[pc]) { assert OutsidePc(Dest(c, pc), start, end); }
    BacktrackOutside(stk, caps, start, end);
    if c[pc].FullCapture? || IsMovable(c[pc]) { CaptureKeeps(c[pc], s, stk, caps); }
  }

  /** Leaving the slice leads outside it. */
  lemma ExitOutside(c: Code, start: nat, i: nat, end: nat, n: nat, subj: Subject, j: nat, s: int, stk: Stack, caps: seq<Capture>)
    requires SliceShape(c, start, i, end, n) && start < j <= end && StackOutside(stk, start, end) && LevelsOk(stk, |caps|)
    ensures SliceState(Exit(c, start, i, end, n, subj, j, s, stk, caps), start, end)
  {
    hide CaptureStep, AllPass, TotalStep, Left, StackOutside, LevelsOk, Backtrack;
    LeftChecks(c, start, i, end, n, j, j);
    BacktrackOutside(stk, caps, start, end);
    if j <= i { CaptureAllKeeps(c[j..i + 1], s, stk, caps); }
  }

  lemma ThroughOutside(c: Code, start: nat, i: nat, end: nat, n: nat, subj: Subject, st: State)
    requires TestsOnly(c, start, i, end, n) && SliceState(st, start, end)
    ensures SliceState(Through(c, start, i, end, n, subj, st, false), start, end)
  {
    hide CaptureStep, AllPass, TotalStep, Exit, Step, Perform, StackOutside, LevelsOk, Backtrack, TestsOnly;
    TestsShape(c, start, i, end, n);
    if Halted(c, st) {
    } else if st.pc == start {
      CaptureAllKeeps(c[start..i + 1], st.s, st.stack, st.caps);
      BacktrackOutside(st.stack, st.caps, start, end);
    } else {
      StepOutside(c, start, i, end, n, subj, st);
      var to := Step(c, subj, st);
      if Lands(to, start, end) { ExitOutside(c, start, i, end, n, subj, to.pc, to.s, to.stack, to.caps); }
    }
  }

  lemma TestsShape(c: Code, start: nat, i: nat, end: nat, n: nat)
    requires TestsOnly(c, start, i, end, n)
    ensures SliceShape(c, start, i, end, n)
  {
  }

  /** One such step is the same exactly if a landing fails in both codes. */
  lemma ThroughExact(c: Code, start: nat, i: nat, end: nat, n: nat, subj: Subject, st: State)
    requires TestsOnly(c, start, i, end, n) && SliceState(st, start, end)
    requires Through(c, start, i, end, n, subj, st, false) != Stuck && Through(c, start, i, end, n, subj, st, true) != Stuck
    ensures Through(c, start, i, end, n, subj, st, false) == Through(c, start, i, end, n, subj, st, true) <==> FailsInBoth(c, start, i, end, n, subj, st)
  {
    hide CaptureAll, AllPass, TotalStep, Exit, ExitMoved, Step, Perform, StackOutside, LevelsOk, Backtrack, TestsOnly, Left, LeftMoved;
    TestsShape(c, start, i, end, n);
    if !Halted(c, st) && st.pc != start {
      StepOutside(c, start, i, end, n, subj, st);
      var to := Step(c, subj, st);
      if Lands(to, start, end) { LandingExact(c, start, i, end, n, subj, to.pc, to.pc, to.s, to.stack, to.caps); }
    }
  }

  lemma {:induction false} TraceOutside(c: Code, start: nat, i: nat, end: nat, n: nat, subj: Subject, a: State, k: nat)
    requires TestsOnly(c, start, i, end, n) && SliceState(a, start, end)
    ensures SliceState(Trace(c, start, i, end, n, subj, a, false, k), start, end)
    decreases k
  {
    hide Through, SliceState;
    if k > 0 {
      TraceOutside(c, start, i, end, n, subj, a, k - 1);
      ThroughOutside(c, start, i, end, n, subj, Trace(c, start, i, end, n, subj, a, false, k - 1));
    }
  }

  /** Neither run breaks an assertion of the machine. */
  ghost predicate NeverStuck(c: Code, start: nat, i: nat, end: nat, n: nat, subj: Subject, a: State)
    requires SliceShape(c, start, i, end, n)
  {
    forall k: nat :: Trace(c, start, i, end, n, subj, a, false, k) != Stuck && Trace(c, start, i, end, n, subj, a, true, k) != Stuck
  }

  ghost predicate SameTraces(c: Code, start: nat, i: nat, end: nat, n: nat, subj: Subject, a: State)
    requires SliceShape(c, start, i, end, n)
  {
    forall k: nat :: Trace(c, start, i, end, n, subj, a, false, k) == Trace(c, start, i, end, n, subj, a, true, k)
  }

  /** Every landing of the run fails, and would in the moved code. */
  ghost predicate LandingsFail(c: Code, start: nat, i: nat, end: nat, n: nat, subj: Subject, a: State)
    requires SliceShape(c, start, i, end, n)
  {
    forall k: nat :: FailsInBoth(c, start, i, end, n, subj, Trace(c, start, i, end, n, subj, a, false, k))
  }

  lemma {:induction false} TracesAgree(c: Code, start: nat, i: nat, end: nat, n: nat, subj: Subject, a: State, k: nat)
    requires TestsOnly(c, start, i, end, n) && SliceState(a, start, end)
    requires NeverStuck(c, start, i, end, n, subj, a) && LandingsFail(c, start, i, end, n, subj, a)
    ensures Trace(c, start, i, end, n, subj, a, false, k) == Trace(c, start, i, end, n, subj, a, true, k)
    decreases k
  {
    hide Through, SliceState, FailsInBoth, TestsOnly;
    TestsShape(c, start, i, end, n);
    if k > 0 {
      TracesAgree(c, start, i, end, n, subj, a, k - 1);
      TraceOutside(c, start, i, end, n, subj, a, k - 1);
      var st := Trace(c, start, i, end, n, subj, a, false, k - 1);
      assert Trace(c, start, i, end, n, subj, a, false, k) == Through(c, start, i, end, n, subj, st, false);
      assert Trace(c, start, i, end, n, subj, a, true, k) == Through(c, start, i, end, n, subj, st, true);
      ThroughExact(c, start, i, end, n, subj, st);
    }
  }

  /** The original and the moved code come to the same states outside the slice exactly if the run
      never lands in the slice but where one of the checks left fails in both codes. */
  lemma TracesExact(c: Code, start: nat, i: nat, end: nat, n: nat, subj: Subject, a: State)
    requires TestsOnly(c, start, i, end, n) && SliceState(a, start, end)
    requires NeverStuck(c, start, i, end, n, subj, a)
    ensures SameTraces(c, start, i, end, n, subj, a) <==> LandingsFail(c, start, i, end, n, subj, a)
  {
    hide Through, SliceState, FailsInBoth, TestsOnly;
    TestsShape(c, start, i, end, n);
    if LandingsFail(c, start, i, end, n, subj, a) {
      forall k: nat ensures Trace(c, start, i, end, n, subj, a, false, k) == Trace(c, start, i, end, n, subj, a, true, k) { TracesAgree(c, start, i, end, n, subj, a, k); }
    }
    if SameTraces(c, start, i, end, n, subj, a) {
      forall k: nat ensures FailsInBoth(c, start, i, end, n, subj, Trace(c, start, i, end, n, subj, a, false, k)) {
        TraceOutside(c, start, i, end, n, subj, a, k);
        var st := Trace(c, start, i, end, n, subj, a, false, k);
        assert Trace(c, start, i, end, n, subj, a, false, k + 1) == Through(c, start, i, end, n, subj, st, false);
        assert Trace(c, start, i, end, n, subj, a, true, k + 1) == Through(c, start, i, end, n, subj, st, true);
        ThroughExact(c, start, i, end, n, subj, st);
      }
    }
  }

  // ---------- outcomes ----------

  /** A step outside the slice or through it is a run of the original code. */
  lemma ThroughSteps(c: Code, start: nat, i: nat, end: nat, n: nat, subj: Subject, st: State)
    returns (k: nat)
    requires SliceShape(c, start, i, end, n) && !Halted(c, st)
    ensures k > 0 && RunN(c, subj, st, k) == Through(c, start, i, end, n, subj, st, false)
  {
    hide SliceShape, CaptureAll, AllPass, TotalStep, Exit, Step, Perform;
    if st.pc == start {
      k := SliceBefore(c, start, i, end, n, subj, st.s, st.stack, st.caps);
    } else {
      var to := Step(c, subj, st);
      if Lands(to, start, end) {
        ExitReached(c, start, i, end, n, subj, to.pc, to.s, to.stack, to.caps);
        var x: nat :| RunN(c, subj, to, x) == Exit(c, start, i, end, n, subj, to.pc, to.s, to.stack, to.caps);
        k := x + 1;
      } else {
        k := 1;
        assert RunN(c, subj, to, 0) == to;
      }
    }
  }

  /** It is a run of the moved code too, unless the landing breaks an assertion. */
  lemma ThroughMoved(c: Code, start: nat, i: nat, end: nat, n: nat, subj: Subject, st: State)
    requires SliceShape(c, start, i, end, n) && SliceState(st, start, end) && Through(c, start, i, end, n, subj, st, true) != Stuck
    ensures Reaches(MoveSlice(c, start, i, end, n), subj, st, Through(c, start, i, end, n, subj, st, true))
  {
    hide CaptureAll, AllPass, TotalStep, ExitMoved, Perform, MoveSlice, Reaches;
    var d := MoveSlice(c, start, i, end, n);
    if Halted(c, st) {
      ReachRefl(d, subj, st);
    } else if st.pc == start {
      var k := SliceAfter(c, start, i, end, n, subj, st.s, st.stack, st.caps);
      CaptureAllKeeps(c[start..i + 1], st.s, st.stack, st.caps);
      ReachedIn(d, subj, st, k);
    } else {
      OutsideSame(c, start, i, end, n, st.pc);
      var to := Step(c, subj, st);
      ReachStep(d, subj, st, to);
      if Lands(to, start, end) {
        ExitMovedReached(c, start, i, end, n, subj, to.pc, to.s, to.stack, to.caps);
        ReachTrans(d, subj, st, to, Through(c, start, i, end, n, subj, st, true));
      }
    }
  }

  lemma ReachedIn(c: Code, subj: Subject, a: State, k: nat)
    ensures Reaches(c, subj, a, RunN(c, subj, a, k))
  {
  }

  lemma OutsideSame(c: Code, start: nat, i: nat, end: nat, n: nat, pc: nat)
    requires SliceShape(c, start, i, end, n) && pc < |c| && OutsidePc(pc, start, end) && pc != start
    ensures MoveSlice(c, start, i, end, n)[pc] == c[pc]
  {
  }

  /** Where a landing fails in both codes, the step is the same. */
  lemma ThroughSame(c: Code, start: nat, i: nat, end: nat, n: nat, subj: Subject, st: State)
    requires TestsOnly(c, start, i, end, n) && SliceState(st, start, end)
    requires Through(c, start, i, end, n, subj, st, false) != Stuck && FailsInBoth(c, start, i, end, n, subj, st)
    ensures Through(c, start, i, end, n, subj, st, true) == Through(c, start, i, end, n, subj, st, false)
  {
    hide CaptureAll, AllPass, TotalStep, Step, Perform, StackOutside, LevelsOk, Backtrack, TestsOnly, Left, LeftMoved;
    TestsShape(c, start, i, end, n);
    if !Halted(c, st) && st.pc != start {
      StepOutside(c, start, i, end, n, subj, st);
      var to := Step(c, subj, st);
      if Lands(to, start, end) && to.pc <= i { CaptureAllKeeps(c[to.pc..i + 1], to.s, to.stack, to.caps); }
    }
  }

  lemma {:induction false} TraceShift(c: Code, start: nat, i: nat, end: nat, n: nat, subj: Subject, a: State, moved: bool, k: nat)
    requires SliceShape(c, start, i, end, n)
    ensures Trace(c, start, i, end, n, subj, a, moved, k + 1) == Trace(c, start, i, end, n, subj, Through(c, start, i, end, n, subj, a, moved), moved, k)
    decreases k
  {
    hide Through;
    if k > 0 { TraceShift(c, start, i, end, n, subj, a, moved, k - 1); }
  }

  lemma LandingsFailOn(c: Code, start: nat, i: nat, end: nat, n: nat, subj: Subject, a: State)
    requires SliceShape(c, start, i, end, n) && LandingsFail(c, start, i, end, n, subj, a)
    ensures FailsInBoth(c, start, i, end, n, subj, a) && LandingsFail(c, start, i, end, n, subj, Through(c, start, i, end, n, subj, a, false))
  {
    hide Through, FailsInBoth;
    assert Trace(c, start, i, end, n, subj, a, false, 0) == a;
    forall k: nat ensures FailsInBoth(c, start, i, end, n, subj, Trace(c, start, i, end, n, subj, Through(c, start, i, end, n, subj, a, false), false, k)) {
      TraceShift(c, start, i, end, n, subj, a, false, k);
    }
  }

  /** A run whose landings all fail in both codes ends alike in the moved code. */
  lemma {:induction false} LandingRun(c: Code, start: nat, i: nat, end: nat, n: nat, subj: Subject, a: State, m: nat, b: State)
    requires TestsOnly(c, start, i, end, n) && SliceState(a, start, end) && LandingsFail(c, start, i, end, n, subj, a)
    requires RunN(c, subj, a, m) == b && Halted(c, b) && b != Stuck
    ensures Reaches(MoveSlice(c, start, i, end, n), subj, a, b)
    decreases m
  {
    hide TestsOnly, SliceState, LandingsFail, MoveSlice, Step, Through, FailsInBoth, Halted;
    TestsShape(c, start, i, end, n);
    var d := MoveSlice(c, start, i, end, n);
    if Halted(c, a) {
      RunNHalted(c, subj, a, m);
      ReachRefl(d, subj, a);
    } else {
      var k := ThroughSteps(c, start, i, end, n, subj, a);
      var to := Through(c, start, i, end, n, subj, a, false);
      HaltedLater(c, subj, a, m);
      var m1 := FromHere(c, subj, a, k, to, m, b);
      if to == Stuck { StuckStays(c, subj, m1); }
      LandingsFailOn(c, start, i, end, n, subj, a);
      ThroughSame(c, start, i, end, n, subj, a);
      ThroughMoved(c, start, i, end, n, subj, a);
      ThroughOutside(c, start, i, end, n, subj, a);
      LandingRun(c, start, i, end, n, subj, to, m1, b);
      ReachTrans(d, subj, a, to, b);
    }
  }

  lemma HaltedLater(c: Code, subj: Subject, a: State, m: nat)
    requires !Halted(c, a) && Halted(c, RunN(c, subj, a, m))
    ensures m > 0
  {
  }

  /** Moving captures keeps every outcome of a run in which each landing fails in both codes, be there
      tests that lead into the slice or not. */
  lemma LandingExec(c: Code, start: nat, i: nat, end: nat, n: nat, subj: Subject, s: int, r: Outcome)
    requires TestsOnly(c, start, i, end, n)
    requires Exec(c, subj, s, r) && LandingsFail(c, start, i, end, n, subj, Start(s))
    ensures Exec(MoveSlice(c, start, i, end, n), subj, s, r)
  {
    hide LandingsFail, MoveSlice, TestsOnly;
    TestsShape(c, start, i, end, n);
    var m: nat :| RunN(c, subj, Start(s), m) == Final(c, r);
    LandingRun(c, start, i, end, n, subj, Start(s), m, Final(c, r));
  }

  lemma PartedRun(x: Byte, y: Byte)
    requires x != y
    ensures Exec([Char(x, 2), EmptyCapture(0, Cposition, 0), Char(y, 0), Fail], [y], 0, NoMatch)
  {
    var c := [Char(x, 2), EmptyCapture(0, Cposition, 0), Char(y, 0), Fail];
    ReachRefl(c, [y], Failed);
    ReachCons(c, [y], Run(3, 1, Empty, []), Failed);
    ReachCons(c, [y], Run(2, 0, Empty, []), Failed);
    ReachCons(c, [y], Start(0), Failed);
  }

  lemma PartedRunMoved(x: Byte, y: Byte)
    requires x != y
    ensures Exec([Char(x, 2), Char(y, 0), EmptyCapture(0, Cposition, 1), Fail], [y], 0, NoMatch)
  {
    var d := [Char(x, 2), Char(y, 0), EmptyCapture(0, Cposition, 1), Fail];
    ReachRefl(d, [y], Failed);
    ReachCons(d, [y], Run(3, 0, Empty, [Capture(-1, 0, Cposition, 1)]), Failed);
    assert Step(d, [y], Run(2, 0, Empty, [])) == Run(3, 0, Empty, [Capture(-1, 0, Cposition, 1)]);
    ReachCons(d, [y], Run(2, 0, Empty, []), Failed);
    ReachCons(d, [y], Start(0), Failed);
  }

  /** Two codes that part at a landing may still meet again: here the landing passes in both, and what
      follows fails anyway. */
  lemma PartedButSame(x: Byte, y: Byte)
    requires x != y
    ensures var c := [Char(x, 2), EmptyCapture(0, Cposition, 0), Char(y, 0), Fail];
      && TestsOnly(c, 1, 1, 2, 1) && !LandingsFail(c, 1, 1, 2, 1, [y], Start(0))
      && Exec(c, [y], 0, NoMatch) && Exec(MoveSlice(c, 1, 1, 2, 1), [y], 0, NoMatch)
  {
    hide Exec;
    var c := [Char(x, 2), EmptyCapture(0, Cposition, 0), Char(y, 0), Fail];
    PartedRun(x, y);
    PartedRunMoved(x, y);
    assert c[2..3] == [Char(y, 0)] && TotalStep(c[2..3]) == 1 + TotalStep([]);
    assert MoveSlice(c, 1, 1, 2, 1) == [Char(x, 2), Char(y, 0), EmptyCapture(0, Cposition, 1), Fail];
    assert Trace(c, 1, 1, 2, 1, [y], Start(0), false, 0) == Start(0);
    assert AllPass([], [y], 1) && AllPass(Left(c, 1, 2, 2), [y], 0);
    assert !FailsInBoth(c, 1, 1, 2, 1, [y], Start(0));
  }
}
