/** The shape of compiled code: what every combinator keeps, and what the two whole-code passes
    (captures moved over checks, jumps to jumps) preserve. */
module LpegWellFormed {
  import opened LpegMachine
  import opened LpegReference
  import opened LpegCombinators
  import opened LpegSimulation
  import opened LpegVerifier

  predicate CapOrCheck(i: Inst) { IsMovable(i) || IsCheck(i) }

  /** A loop goes back to an instruction that no moved slice can hold in its interior. */
  predicate BackTarget(c: Code, d: int) {
    0 <= d < |c| && !c[d].Jmp? && (!CapOrCheck(c[d]) || (d > 0 && !CapOrCheck(c[d - 1])))
  }

  predicate InstOk(c: Code, i: nat)
    requires i < |c|
  {
    && (HasTarget(c[i]) ==>
          var d := Dest(c, i);
          && 0 <= d <= |c|
          && (if d > i then d < |c| && c[d].Jmp? ==> c[d].offset > 0
              else (c[i].Jmp? || c[i].PartialCommit?) && BackTarget(c, d)))
    && (c[i].Any? ==> 1 <= c[i].n <= UCHAR_MAX) && (c[i].Choice? ==> c[i].aux <= UCHAR_MAX)
    && CaptureOffset(c[i]) <= MAXOFF
  }

  predicate JumpsHaveTests(c: Code) {
    (exists i :: 0 <= i < |c| && c[i].Jmp?) ==> exists i :: 0 <= i < |c| && IsTest(c[i])
  }

  predicate WF(c: Code) {
    && (forall i :: 0 <= i < |c| ==> InstOk(c, i))
    && (c != [] ==> !c[0].Jmp? && QuietBefore(c[|c| - 1], c))
    && JumpsHaveTests(c)
  }

  lemma WFClear(c: Code)
    requires WF(c) && StartsWithCheck(c)
    ensures ClearFrom(c, 1)
  {
    forall i | 0 <= i < |c| && 1 <= i && HasTarget(c[i])
      ensures Dest(c, i) >= 1
    {
      assert InstOk(c, i);
    }
  }

  /** A head-fail code holds no jump at all. */
  lemma HeadFailNoJumps(c: Code)
    requires WF(c) && IsHeadFail(c)
    ensures forall i :: 0 <= i < |c| ==> !HasTarget(c[i]) && !c[i].Jmp?
  {
    forall i | 0 <= i < |c|
      ensures !IsTest(c[i]) && (i > 0 ==> IsNoFail(c[i]))
    {
      if i > 0 { assert IsNoFail(c[1..][i - 1]); }
    }
  }

  /** Fragment c sits at index off of big, except perhaps for its first instruction (k is 1). */
  predicate Sits(big: Code, off: nat, c: Code, k: nat) {
    && k <= 1 && k <= |c| && off + |c| <= |big| && big[off + k..off + |c|] == c[k..]
    && (k == 1 ==> StartsWithCheck(c))
    && (off + |c| < |big| && big[off + |c|].Jmp? ==> big[off + |c|].offset > 0)
  }

  lemma SitsAt(big: Code, off: nat, c: Code, k: nat, i: nat)
    requires Sits(big, off, c, k) && k <= i < |c|
    ensures big[off + i] == c[i]
  {
    assert big[off + i] == big[off + k..off + |c|][i - k];
    assert c[i] == c[k..][i - k];
  }

  lemma SitsInst(big: Code, off: nat, c: Code, k: nat, i: nat)
    requires WF(c) && Sits(big, off, c, k) && k <= i < |c|
    ensures big[off + i] == c[i] && InstOk(big, off + i)
    ensures HasTarget(c[i]) ==> Dest(big, off + i) >= off + if StartsWithCheck(c) && i > 0 then 1 else 0
  {
    if StartsWithCheck(c) { WFClear(c); }
    SitsAt(big, off, c, k, i);
    assert InstOk(c, i);
    if HasTarget(c[i]) {
      var d := Dest(c, i);
      if k <= d < |c| { SitsAt(big, off, c, k, d); }
      if k <= d - 1 < |c| { SitsAt(big, off, c, k, d - 1); }
    }
  }

  lemma SeqWF(c1: Code, c2: Code)
    requires WF(c1) && WF(c2) && (IsFail(c1) && c2 != [] ==> !HasCharset(c2[|c2| - 1]))
    ensures WF(c1 + c2)
  {
    var c := c1 + c2;
    forall i | 0 <= i < |c|
      ensures InstOk(c, i)
    {
      if i < |c1| { SitsInst(c, 0, c1, 0, i); } else { SitsInst(c, |c1|, c2, 0, i - |c1|); }
    }
    JoinJumps(c1, c2);
  }

  lemma JoinJumps(c1: Code, c2: Code)
    requires JumpsHaveTests(c1) && JumpsHaveTests(c2)
    ensures JumpsHaveTests(c1 + c2)
  {
    var c := c1 + c2;
    if i :| 0 <= i < |c| && c[i].Jmp? {
      if i < |c1| {
        assert c1[i].Jmp?;
        var j :| 0 <= j < |c1| && IsTest(c1[j]);
        assert IsTest(c[j]);
      } else {
        assert c2[i - |c1|].Jmp?;
        var j :| 0 <= j < |c2| && IsTest(c2[j]);
        assert IsTest(c[|c1| + j]);
      }
    }
  }

  lemma HasATest(c: Code, i: nat)
    requires i < |c| && IsTest(c[i])
    ensures JumpsHaveTests(c)
  {
  }

  lemma {:induction false} TimesLast(c: Code, n: nat)
    ensures if n == 0 || c == [] then Times(c, n) == [] else Times(c, n) != [] && Times(c, n)[0] == c[0] && Times(c, n)[|Times(c, n)| - 1] == c[|c| - 1]
  {
    if n > 0 { TimesLast(c, n - 1); }
  }

  lemma {:induction false} TimesWF(c: Code, n: nat)
    requires WF(c)
    ensures WF(Times(c, n)) && |Times(c, n)| == n * |c|
  {
    if n > 0 {
      TimesWF(c, n - 1);
      TimesLast(c, n - 1);
      SeqWF(c, Times(c, n - 1));
      assert n * |c| == |c| + (n - 1) * |c|;
    }
  }

  // ---------- fragments with a definite outcome ----------

  ghost predicate Halts(c: Code, subj: Subject, s: int) {
    exists r :: Exec(c, subj, s, r) && InBounds(subj, s, r)
  }

  /** Every run of c ends, on every subject, in a match within bounds or a failure. */
  ghost predicate Total(c: Code) {
    forall subj: Subject, s: int :: 0 <= s <= |subj| ==> Halts(c, subj, s)
  }

  ghost function Res(c: Code, subj: Subject, s: int): (r: Outcome)
    requires Halts(c, subj, s)
    ensures Exec(c, subj, s, r) && InBounds(subj, s, r)
  {
    var r :| Exec(c, subj, s, r) && InBounds(subj, s, r);
    r
  }

  lemma ResIs(c: Code, subj: Subject, s: int, r: Outcome)
    requires Exec(c, subj, s, r) && InBounds(subj, s, r)
    ensures Halts(c, subj, s) && Res(c, subj, s) == r
  {
    ExecUnique(c, subj, s, r, Res(c, subj, s));
  }

  ghost predicate WalkTotal(c: Code) { Walks(c, true) || Walks(c, false) }

  /** d may stand in for c: same outcomes, same walk. */
  ghost predicate Replaces(d: Code, c: Code) {
    && |d| == |c|
    && (forall subj, s, r :: Exec(c, subj, s, r) ==> Exec(d, subj, s, r))
    && (forall v :: Walks(c, v) ==> Walks(d, v))
  }

  /** No jump that can end the first alternative of an ordered choice leads to the end. */
  predicate NoExit(c: Code) {
    forall i :: 0 <= i < |c| && (c[i].Jmp? || c[i].Commit?) ==> Dest(c, i) != |c|
  }

  lemma NoExitFirstPart(c: Code)
    requires NoExit(c)
    ensures FirstPart(c) == 0
  {
  }

  lemma SeqNoExit(c1: Code, c2: Code)
    requires WF(c1) && c2 != [] && NoExit(c2)
    ensures NoExit(c1 + c2)
  {
    var c := c1 + c2;
    forall i | 0 <= i < |c| && (c[i].Jmp? || c[i].Commit?)
      ensures Dest(c, i) != |c|
    {
      if i < |c1| { assert InstOk(c1, i); } else { assert c[i] == c2[i - |c1|]; }
    }
  }

  // ---------- the pass that moves captures ----------

  /** No test leads strictly inside a slice that the pass moves.  The pass itself looks at jumps
      only, so this has to hold of the code it is given. */
  predicate TestsClearFrom(c: Code, i: nat, limit: int)
    decreases |c| - i
  {
    if i >= |c| then true
    else if IsJmp(c[i]) && Dest(c, i) >= limit then TestsClearFrom(c, i + 1, Dest(c, i) + 1)
    else if AtBorder(c, i, limit) then
      var f := FindSlice(c, i, limit);
      if f.bytes == 0 then TestsClearFrom(c, i + 1, limit)
      else
        && (forall j :: 0 <= j < |c| && IsTest(c[j]) ==> OutsidePc(Dest(c, j), f.start, i + f.checks))
        && TestsClearFrom(MoveSlice(c, f.start, i, i + f.checks, f.bytes), i + f.checks + 1, limit)
    else TestsClearFrom(c, i + 1, limit)
  }

  predicate TestsClear(c: Code) { TestsClearFrom(c, 0, 0) }

  /** The jumps already passed lead below the limit. */
  predicate JumpsBelow(c: Code, i: nat, limit: int) {
    forall j :: 0 <= j < i && j < |c| && IsJmp(c[j]) ==> Dest(c, j) < limit
  }

  lemma {:induction false} SkipChecksTotal(c: Code, i: nat, up: nat)
    requires up <= MAXOFF && i <= |c|
    ensures i + SkipChecks(c, i, up).0 <= |c|
    ensures SkipChecks(c, i, up).1 == TotalStep(c[i..i + SkipChecks(c, i, up).0])
    decreases |c| - i
  {
    if i < |c| && IsCheck(c[i]) && OpStep(c[i]) <= MAXOFF - up {
      SkipChecksTotal(c, i + 1, up + OpStep(c[i]));
      var m := SkipChecks(c, i, up).0;
      assert c[i..i + m][1..] == c[i + 1..i + m];
    }
  }

  lemma FourParts<T>(a: seq<T>, b: seq<T>, x: seq<T>, e: seq<T>, j: nat)
    requires j < |a| + |b| + |x| + |e|
    ensures (a + b + x + e)[j] ==
      if j < |a| then a[j] else if j < |a| + |b| then b[j - |a|]
      else if j < |a| + |b| + |x| then x[j - |a| - |b|] else e[j - |a| - |b| - |x|]
  {
  }

  /** The instruction at index j after a slice has been moved. */
  lemma MoveSliceIndex(c: Code, start: nat, i: nat, end: nat, n: nat, j: nat)
    requires start <= i <= end < |c| && j < |c|
    requires forall k :: start <= k <= i ==> IsMovable(c[k])
    ensures var d := MoveSlice(c, start, i, end, n);
      if j < start || end < j then d[j] == c[j]
      else if j < start + (end - i) then d[j] == c[j + (i + 1 - start)]
      else d[j] == Delayed(c[j - (end - i)], n)
  {
    hide IsMovable, Delayed, DelayAll;
    FourParts(c[..start], c[i + 1..end + 1], DelayAll(c[start..i + 1], n), c[end + 1..], j);
  }

  lemma MoveSliceAt(c: Code, start: nat, i: nat, end: nat, n: nat, j: nat)
    requires IsSlice(c, start, i, end, n) && j < |c|
    ensures var d := MoveSlice(c, start, i, end, n);
      && (j < start || end < j ==> d[j] == c[j])
      && (start <= j <= end ==> if j < start + (end - i) then d[j] == c[j + (i + 1 - start)] && IsCheck(d[j])
                                else d[j] == Delayed(c[j - (end - i)], n))
  {
    MoveSliceIndex(c, start, i, end, n, j);
    if start + (end - i) <= j <= end {
      assert IsMovable(c[j - (end - i)]);
    }
  }

  lemma MoveSliceKinds(c: Code, start: nat, i: nat, end: nat, n: nat, j: nat)
    requires IsSlice(c, start, i, end, n) && j < |c|
    ensures var d := MoveSlice(c, start, i, end, n);
      && CapOrCheck(d[j]) == CapOrCheck(c[j]) && d[j].Jmp? == c[j].Jmp?
      && (!CapOrCheck(c[j]) ==> d[j] == c[j])
      && IsTest(d[j]) == IsTest(c[j]) && d[j].BackCommit? == c[j].BackCommit?
  {
    MoveSliceAt(c, start, i, end, n, j);
    if start <= j <= end {
      assert CapOrCheck(c[j]);
      if j >= start + (end - i) { assert IsMovable(c[j - (end - i)]); }
    }
  }

  lemma MoveSliceInst(c: Code, start: nat, i: nat, end: nat, n: nat, j: nat)
    requires WF(c) && IsSlice(c, start, i, end, n) && j < |c|
    requires forall k :: start <= k <= i ==> CaptureOffset(c[k]) + n <= MAXOFF
    ensures InstOk(MoveSlice(c, start, i, end, n), j)
  {
    var d := MoveSlice(c, start, i, end, n);
    MoveSliceAt(c, start, i, end, n, j);
    if start <= j <= end {
      if j < start + (end - i) { assert InstOk(c, j + (i + 1 - start)); }
      else { assert IsMovable(c[j - (end - i)]); }
    } else {
      assert InstOk(c, j);
      if HasTarget(c[j]) {
        var t := Dest(c, j);
        if t < |c| { MoveSliceKinds(c, start, i, end, n, t); }
        if 0 < t <= |c| { MoveSliceKinds(c, start, i, end, n, t - 1); }
      }
    }
  }

  lemma MoveSliceWF(c: Code, start: nat, i: nat, end: nat, n: nat)
    requires WF(c) && IsSlice(c, start, i, end, n)
    requires forall j :: start <= j <= i ==> CaptureOffset(c[j]) + n <= MAXOFF
    ensures WF(MoveSlice(c, start, i, end, n))
  {
    var d := MoveSlice(c, start, i, end, n);
    forall j | 0 <= j < |d|
      ensures InstOk(d, j)
    {
      MoveSliceInst(c, start, i, end, n, j);
    }
    MoveSliceKinds(c, start, i, end, n, 0);
    MoveSliceKinds(c, start, i, end, n, |c| - 1);
    if x :| 0 <= x < |d| && d[x].Jmp? {
      MoveSliceKinds(c, start, i, end, n, x);
      assert c[x].Jmp?;
      var y :| 0 <= y < |c| && IsTest(c[y]);
      MoveSliceKinds(c, start, i, end, n, y);
      assert IsTest(d[y]);
    }
  }

  /** The slice found by the pass at index i is one that nothing enters. */
  lemma SliceParts(c: Code, i: nat, limit: nat)
    requires AtBorder(c, i, limit) && FindSlice(c, i, limit).bytes > 0
    ensures var f := FindSlice(c, i, limit);
      && limit <= f.start && SliceShape(c, f.start, i, i + f.checks, f.bytes)
      && (forall j :: f.start <= j <= i ==> CaptureOffset(c[j]) + f.bytes <= MAXOFF)
      && (forall d :: f.start <= d <= i + f.checks ==> CapOrCheck(c[d]))
  {
    hide GroupStart, SkipChecks, TotalStep;
    var Slice(start, m, n) := FindSlice(c, i, limit);
    GroupIsMovable(c, i, limit);
    SkipChecksBounds(c, i + 1, MaxOff(c, start, i));
    SkipChecksTotal(c, i + 1, MaxOff(c, start, i));
    NothingSkipped(c, i + 1, MaxOff(c, start, i));
    assert forall j :: start <= j <= i ==> CaptureOffset(c[j]) <= MaxOff(c, start, i);
    assert c[i + 1..i + m + 1] == c[i + 1..i + 1 + m];
    assert forall j :: i < j <= i + m ==> IsCheck(c[j]);
  }

  lemma NothingSkipped(c: Code, i: nat, up: nat)
    requires up <= MAXOFF
    ensures SkipChecks(c, i, up).0 == 0 ==> SkipChecks(c, i, up).1 == 0
  {
  }

  lemma FoundSlice(c: Code, i: nat, limit: nat)
    requires WF(c) && JumpsBelow(c, i, limit) && AtBorder(c, i, limit)
    requires FindSlice(c, i, limit).bytes > 0
    requires forall j :: 0 <= j < |c| && IsTest(c[j]) ==>
      OutsidePc(Dest(c, j), FindSlice(c, i, limit).start, i + FindSlice(c, i, limit).checks)
    ensures var f := FindSlice(c, i, limit); IsSlice(c, f.start, i, i + f.checks, f.bytes)
    ensures var f := FindSlice(c, i, limit);
      forall j :: f.start <= j <= i ==> CaptureOffset(c[j]) + f.bytes <= MAXOFF
  {
    hide WF, FindSlice, JumpsBelow;
    var f := FindSlice(c, i, limit);
    SliceParts(c, i, limit);
    EntersNoSlice(c, i, limit, f.start, i + f.checks);
  }

  /** No jump leads into a stretch of captures and checks. */
  lemma EntersNoSlice(c: Code, i: nat, limit: nat, start: nat, end: nat)
    requires WF(c) && JumpsBelow(c, i, limit) && limit <= start <= i < end < |c|
    requires forall d :: start <= d <= end ==> CapOrCheck(c[d])
    requires forall j :: 0 <= j < |c| && IsTest(c[j]) ==> OutsidePc(Dest(c, j), start, end)
    ensures forall j :: 0 <= j < |c| && HasTarget(c[j]) ==> OutsidePc(Dest(c, j), start, end)
  {
    forall j | 0 <= j < |c| && HasTarget(c[j])
      ensures OutsidePc(Dest(c, j), start, end)
    {
      assert InstOk(c, j);
    }
  }

  /** Everything the pass that moves captures keeps of a code. */
  ghost predicate KeepsAll(d: Code, c: Code) {
    && WF(d) && Replaces(d, c) && FirstPart(d) == FirstPart(c) && (NoExit(c) ==> NoExit(d)) && IsFail(d) == IsFail(c)
  }

  lemma KeepsAllTrans(e: Code, d: Code, c: Code)
    requires KeepsAll(e, d) && KeepsAll(d, c)
    ensures KeepsAll(e, c)
  {
  }

  /** The code after the pass has moved the group it finds at index i. */
  function MoveFound(c: Code, i: nat, limit: int): Code
    requires AtBorder(c, i, limit)
  {
    var f := FindSlice(c, i, limit);
    MoveSlice(c, f.start, i, i + f.checks, f.bytes)
  }

  lemma MoveFoundKeeps(c: Code, i: nat, limit: nat)
    requires WF(c) && JumpsBelow(c, i, limit) && AtBorder(c, i, limit) && FindSlice(c, i, limit).bytes > 0
    requires TestsClearFrom(c, i, limit)
    ensures var d := MoveFound(c, i, limit); var next := i + FindSlice(c, i, limit).checks + 1;
      KeepsAll(d, c) && JumpsBelow(d, next, limit) && TestsClearFrom(d, next, limit)
      && OptimizeCapturesFrom(c, i, limit) == OptimizeCapturesFrom(d, next, limit)
  {
    hide WF, Replaces, KeepsAll;
    var f := FindSlice(c, i, limit);
    FoundSlice(c, i, limit);
    MoveSliceStep(c, f.start, i, i + f.checks, f.bytes, limit);
  }

  lemma KeepsAllSelf(c: Code)
    requires WF(c)
    ensures KeepsAll(c, c)
  {
  }

  lemma NothingMoved(c: Code, i: nat, limit: nat, next: int)
    requires i < |c| && JumpsBelow(c, i, limit) && TestsClearFrom(c, i, limit) && !(AtBorder(c, i, limit) && FindSlice(c, i, limit).bytes > 0)
    requires next == if IsJmp(c[i]) && Dest(c, i) >= limit then Dest(c, i) + 1 else limit
    ensures OptimizeCapturesFrom(c, i, limit) == OptimizeCapturesFrom(c, i + 1, next)
    ensures next >= limit && JumpsBelow(c, i + 1, next) && TestsClearFrom(c, i + 1, next)
  {
    hide FindSlice;
  }

  lemma {:induction false} OptimizeCapturesKeeps(c: Code, i: nat, limit: nat)
    requires WF(c) && JumpsBelow(c, i, limit) && TestsClearFrom(c, i, limit)
    ensures KeepsAll(OptimizeCapturesFrom(c, i, limit), c)
    decreases |c| - i
  {
    hide WF, Replaces, JumpsBelow, MoveFound;
    if i >= |c| {
      KeepsAllSelf(c);
    } else if AtBorder(c, i, limit) && FindSlice(c, i, limit).bytes > 0 {
      var d, next := MoveFound(c, i, limit), i + FindSlice(c, i, limit).checks + 1;
      MoveFoundKeeps(c, i, limit);
      OptimizeCapturesKeeps(d, next, limit);
      KeepsAllTrans(OptimizeCapturesFrom(d, next, limit), d, c);
    } else {
      var next := if IsJmp(c[i]) && Dest(c, i) >= limit then Dest(c, i) + 1 else limit;
      NothingMoved(c, i, limit, next);
      OptimizeCapturesKeeps(c, i + 1, next);
    }
  }

  lemma ReplacesTrans(e: Code, d: Code, c: Code)
    requires Replaces(e, d) && Replaces(d, c)
    ensures Replaces(e, c)
  {
  }

  lemma MoveSliceReplaces(c: Code, start: nat, i: nat, end: nat, n: nat)
    requires IsSlice(c, start, i, end, n)
    ensures Replaces(MoveSlice(c, start, i, end, n), c)
  {
    var d := MoveSlice(c, start, i, end, n);
    forall subj, s, r | Exec(c, subj, s, r)
      ensures Exec(d, subj, s, r)
    {
      MoveSliceExec(c, start, i, end, n, subj, s, r);
    }
    forall v | Walks(c, v)
      ensures Walks(d, v)
    {
      MoveSliceWalks(c, start, i, end, n, v);
    }
  }

  lemma MoveSliceStep(c: Code, start: nat, i: nat, end: nat, n: nat, limit: nat)
    requires WF(c) && IsSlice(c, start, i, end, n) && JumpsBelow(c, i, limit)
    requires forall j :: start <= j <= i ==> CaptureOffset(c[j]) + n <= MAXOFF
    ensures KeepsAll(MoveSlice(c, start, i, end, n), c)
    ensures JumpsBelow(MoveSlice(c, start, i, end, n), end + 1, limit)
  {
    var d := MoveSlice(c, start, i, end, n);
    MoveSliceWF(c, start, i, end, n);
    MoveSliceReplaces(c, start, i, end, n);
    MoveSliceFirstPart(c, start, i, end, n);
    MoveSliceAt(c, start, i, end, n, 0);
    assert IsMovable(c[start]);
    forall j | 0 <= j < |d| && IsJmp(d[j])
      ensures d[j] == c[j] && (j < end + 1 ==> Dest(d, j) < limit)
    {
      MoveSliceAt(c, start, i, end, n, j);
    }
  }

  lemma MoveSliceFirstPart(c: Code, start: nat, i: nat, end: nat, n: nat)
    requires IsSlice(c, start, i, end, n)
    ensures FirstPart(MoveSlice(c, start, i, end, n)) == FirstPart(c)
  {
    var d := MoveSlice(c, start, i, end, n);
    MoveSliceAt(c, start, i, end, n, 0);
    if start > 0 && (IsTest(c[0]) || c[0].Choice?) {
      var e := c[0].offset - 1;
      if 0 <= e < |c| { MoveSliceAt(c, start, i, end, n, e); }
    }
  }

  /** The pass that moves captures changes no outcome, provided no test enters a moved slice,
      and it leaves no capture offset above MAXOFF. */
  lemma OptimizeCapturesCorrect(c: Code)
    requires WF(c) && TestsClear(c)
    ensures KeepsAll(OptimizeCaptures(c), c)
  {
    OptimizeCapturesKeeps(c, 0, 0);
  }

  // ---------- the pass that shortens jumps ----------

  /** d differs from c only in the offsets of forward jumps. */
  predicate OnlyShortens(d: Code, c: Code) {
    && |d| == |c|
    && (forall j :: 0 <= j < |c| ==>
          if IsJmp(c[j]) && j < Dest(c, j) < |c| then IsJmp(d[j]) && d[j] == SetOffset(c[j], d[j].offset)
          else d[j] == c[j])
    && (forall j :: 0 <= j < |c| && HasTarget(c[j]) && Dest(c, j) > j ==> Dest(d, j) > j)
    && (NoExit(c) ==> NoExit(d))
  }

  lemma ShortcutKeeps(c: Code, i: nat, d: nat)
    requires WF(c) && LeadsToJump(c, i, d) && d > i
    ensures WF(Shortcut(c, i, d)) && Replaces(Shortcut(c, i, d), c) && OnlyShortens(Shortcut(c, i, d), c)
  {
    var e := Shortcut(c, i, d);
    assert InstOk(c, i) && InstOk(c, d);
    forall j | 0 <= j < |e|
      ensures InstOk(e, j)
    {
      assert InstOk(c, j);
    }
    if x :| 0 <= x < |e| && e[x].Jmp? {
      assert c[x].Jmp?;
      var y :| 0 <= y < |c| && IsTest(c[y]);
      assert IsTest(e[y]);
    }
    forall subj, s, r | Exec(c, subj, s, r)
      ensures Exec(e, subj, s, r)
    {
      ShortcutExec(c, i, d, subj, s, r);
    }
    forall v | Walks(c, v)
      ensures Walks(e, v)
    {
      ShortcutWalks(c, i, d, v);
    }
    if NoExit(c) {
      assert Dest(c, d) != |c|;
      assert NoExit(e);
    }
  }

  lemma {:induction false} TargetAgrees(c: Code, d: Code, x: int)
    requires |c| == |d|
    requires forall j :: 0 <= j < |c| && x <= j ==> c[j] == d[j]
    ensures Target(c, x) == Target(d, x)
    decreases |c| - x
  {
    if 0 <= x < |c| && c[x].Jmp? && c[x].offset > 0 {
      TargetAgrees(c, d, x + c[x].offset);
    }
  }

  lemma OnlyShortensTrans(e: Code, d: Code, c: Code)
    requires WF(c) && OnlyShortens(e, d) && OnlyShortens(d, c)
    ensures OnlyShortens(e, c)
  {
    forall j | 0 <= j < |c|
      ensures if IsJmp(c[j]) && j < Dest(c, j) < |c| then IsJmp(e[j]) && e[j] == SetOffset(c[j], e[j].offset)
              else e[j] == c[j]
      ensures HasTarget(c[j]) && Dest(c, j) > j ==> Dest(e, j) > j
    {
    }
  }

  lemma RetargetShortcut(c: Code, i: nat, d: nat)
    requires LeadsToJump(c, i, d) && d > i && c[d].offset > 0
    ensures Retarget(Shortcut(c, i, d), i) == Retarget(c, i)
  {
    var e := Shortcut(c, i, d);
    TargetAgrees(c, e, Dest(c, d));
    assert Target(c, d) == Target(c, Dest(c, d));
  }

  /** Sending one jump to the end of its chain of jumps is a series of shortcuts. */
  lemma {:induction false} RetargetKeeps(c: Code, i: nat)
    requires WF(c) && i < |c| && IsJmp(c[i])
    ensures WF(Retarget(c, i)) && Replaces(Retarget(c, i), c) && OnlyShortens(Retarget(c, i), c)
    decreases |c| - Dest(c, i)
  {
    assert InstOk(c, i);
    var d := Dest(c, i);
    if d > i && d < |c| && c[d].Jmp? {
      assert InstOk(c, d);
      var e := Shortcut(c, i, d);
      RetargetShortcut(c, i, d);
      ShortcutKeeps(c, i, d);
      assert InstOk(e, i);
      RetargetKeeps(e, i);
      ReplacesTrans(Retarget(e, i), e, c);
      OnlyShortensTrans(Retarget(e, i), e, c);
    } else {
      assert Retarget(c, i) == c;
    }
  }

  lemma {:induction false} OptimizeJumpsKeeps(c: Code, i: nat)
    requires WF(c)
    ensures var e := OptimizeJumpsFrom(c, i); WF(e) && Replaces(e, c) && OnlyShortens(e, c)
    decreases |c| - i
  {
    if i >= |c| {
    } else if IsJmp(c[i]) {
      var d := Retarget(c, i);
      RetargetKeeps(c, i);
      OptimizeJumpsKeeps(d, i + 1);
      ReplacesTrans(OptimizeJumpsFrom(d, i + 1), d, c);
      OnlyShortensTrans(OptimizeJumpsFrom(d, i + 1), d, c);
    } else {
      OptimizeJumpsKeeps(c, i + 1);
    }
  }

  /** The pass that shortens jumps changes no outcome. */
  lemma OptimizeJumpsCorrect(c: Code)
    requires WF(c)
    ensures WF(OptimizeJumps(c)) && Replaces(OptimizeJumps(c), c) && OnlyShortens(OptimizeJumps(c), c)
  {
    OptimizeJumpsKeeps(c, 0);
  }
}
