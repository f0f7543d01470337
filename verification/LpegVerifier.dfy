/** The loop test: the path that `verify` follows through a compiled pattern.

    The walk reads no subject.  It takes every check to fail and every test to jump, so that it
    follows the run in which nothing is consumed; predicates are passed whatever they say. */
module LpegVerifier {
  import opened LpegMachine
  import opened LpegCombinators
  import opened LpegSimulation

  datatype Pending = None | More(pc: int, older: Pending)

  /** Exhausted: nothing is left to backtrack to, the pattern cannot match the empty string.
      Astray: one of the assertions of `verify` does not hold, or it would look for an instruction
      before the current one and find the end of a charset. */
  datatype Walk = Visit(pc: int, pending: Pending) | Exhausted | Astray

  function WalkBack(pending: Pending): Walk {
    match pending
    case None => Exhausted
    case More(pc, older) => Visit(pc, older)
  }

  predicate WalkHalted(c: Code, w: Walk) { !w.Visit? || !(0 <= w.pc < |c|) }

  function WalkStep(c: Code, w: Walk): Walk {
    if WalkHalted(c, w) then w
    else
      var Visit(pc, pending) := w;
      match c[pc]
      case Choice(off, _) => Visit(pc + 1, More(pc + off, pending))
      case Commit(off) => if pending.More? && off > 0 then Visit(pc + off, pending.older) else Astray
      case BackCommit(off) => if pending.More? && off > 0 then Visit(pc + off, pending.older) else Astray
      case PartialCommit(off) => if pending.More? && off > 0 then Visit(pc + off, pending) else Astray
      case Any(_, off) => if off == 0 then WalkBack(pending) else Visit(pc + off, pending)
      case Char(_, off) => if off == 0 then WalkBack(pending) else Visit(pc + off, pending)
      case Set(_, off) => if off == 0 then WalkBack(pending) else Visit(pc + off, pending)
      case Jmp(off) => Visit(pc + off, pending)
      case FailTwice => WalkBack(pending)
      case Fail => if pc > 0 && c[pc - 1].BackCommit? then Visit(pc + 1, pending)
                   else if pc > 0 && HasCharset(c[pc - 1]) then Astray else WalkBack(pending)
      case _ => Visit(pc + 1, pending)
  }

  function WalkN(c: Code, w: Walk, n: nat): Walk
    decreases n
  {
    if n == 0 then w else WalkN(c, WalkStep(c, w), n - 1)
  }

  ghost predicate WalkReaches(c: Code, a: Walk, b: Walk) { exists n: nat :: WalkN(c, a, n) == b }

  /** Where the walk of a code ends, when the code may match the empty string and when not. */
  function WalkEnd(c: Code, nullable: bool): Walk { if nullable then Visit(|c|, None) else Exhausted }

  ghost predicate Walks(c: Code, nullable: bool) { WalkReaches(c, Visit(0, None), WalkEnd(c, nullable)) }

  lemma WalkRefl(c: Code, a: Walk)
    ensures WalkReaches(c, a, a)
  {
    assert WalkN(c, a, 0) == a;
  }

  lemma {:induction false} WalkNAdd(c: Code, a: Walk, m: nat, n: nat)
    ensures WalkN(c, a, m + n) == WalkN(c, WalkN(c, a, m), n)
    decreases m
  {
    if m > 0 {
      WalkNAdd(c, WalkStep(c, a), m - 1, n);
    }
  }

  lemma WalkTrans(c: Code, a: Walk, b: Walk, d: Walk)
    requires WalkReaches(c, a, b) && WalkReaches(c, b, d)
    ensures WalkReaches(c, a, d)
  {
    var m: nat :| WalkN(c, a, m) == b;
    var n: nat :| WalkN(c, b, n) == d;
    WalkNAdd(c, a, m, n);
    assert WalkN(c, a, m + n) == d;
  }

  lemma WalkCons(c: Code, a: Walk, d: Walk)
    requires WalkReaches(c, WalkStep(c, a), d)
    ensures WalkReaches(c, a, d)
  {
    var n: nat :| WalkN(c, WalkStep(c, a), n) == d;
    assert WalkN(c, a, n + 1) == d;
  }

  lemma {:induction false} WalkNHalted(c: Code, a: Walk, n: nat)
    requires n == 0 || WalkHalted(c, a)
    ensures WalkN(c, a, n) == a
  {
    if n > 0 {
      WalkNHalted(c, a, n - 1);
    }
  }

  lemma WalkUnique(c: Code, a: Walk, b: Walk, d: Walk)
    requires WalkReaches(c, a, b) && WalkHalted(c, b)
    requires WalkReaches(c, a, d) && WalkHalted(c, d)
    ensures b == d
  {
    var m: nat :| WalkN(c, a, m) == b;
    var n: nat :| WalkN(c, a, n) == d;
    WalkNAdd(c, a, m, n);
    WalkNAdd(c, a, n, m);
    WalkNHalted(c, b, n);
    WalkNHalted(c, d, m);
  }

  lemma WalksUnique(c: Code, v1: bool, v2: bool)
    requires Walks(c, v1) && Walks(c, v2)
    ensures v1 == v2
  {
    WalkUnique(c, Visit(0, None), WalkEnd(c, v1), WalkEnd(c, v2));
  }

  // ---------- a fragment inside a larger code ----------

  function PendingAbove(p: Pending, off: int, base: Pending): Pending {
    match p
    case None => base
    case More(pc, older) => More(off + pc, PendingAbove(older, off, base))
  }

  function WalkEmbed(w: Walk, off: int, base: Pending): Walk {
    match w
    case Visit(pc, p) => Visit(off + pc, PendingAbove(p, off, base))
    case Exhausted => WalkBack(base)
    case Astray => Astray
  }

  /** What stands before a fragment does not make its failure at once a success, or hide what it is. */
  predicate QuietBefore(i: Inst, c: Code) { !i.BackCommit? && (IsFail(c) ==> !HasCharset(i)) }

  predicate WalkAt(big: Code, off: int, c: Code) {
    At(big, off, c) && (off > 0 ==> QuietBefore(big[off - 1], c))
  }

  lemma WalkEmbedStep(c: Code, big: Code, off: int, base: Pending, w: Walk)
    requires WalkAt(big, off, c)
    requires !WalkHalted(c, w) && WalkStep(c, w) != Astray
    ensures WalkStep(big, WalkEmbed(w, off, base)) == WalkEmbed(WalkStep(c, w), off, base)
  {
    assert big[off + w.pc] == big[off..off + |c|][w.pc] == c[w.pc];
    if w.pc > 0 {
      assert big[off + w.pc - 1] == big[off..off + |c|][w.pc - 1] == c[w.pc - 1];
    }
  }

  lemma {:induction false} WalkEmbedRun(c: Code, big: Code, off: int, base: Pending, a: Walk, n: nat)
    requires WalkAt(big, off, c)
    requires WalkN(c, a, n) != Astray
    ensures WalkReaches(big, WalkEmbed(a, off, base), WalkEmbed(WalkN(c, a, n), off, base))
    decreases n
  {
    if n == 0 || WalkHalted(c, a) {
      WalkNHalted(c, a, n);
      WalkRefl(big, WalkEmbed(a, off, base));
    } else {
      var a1 := WalkStep(c, a);
      if a1 == Astray { WalkNHalted(c, Astray, n - 1); }
      WalkEmbedStep(c, big, off, base, a);
      WalkEmbedRun(c, big, off, base, a1, n - 1);
      WalkCons(big, WalkEmbed(a, off, base), WalkEmbed(WalkN(c, a, n), off, base));
    }
  }

  lemma WalkIn(c: Code, big: Code, off: int, base: Pending, nullable: bool)
    requires WalkAt(big, off, c) && Walks(c, nullable)
    ensures WalkReaches(big, Visit(off, base), if nullable then Visit(off + |c|, base) else WalkBack(base))
  {
    var n: nat :| WalkN(c, Visit(0, None), n) == WalkEnd(c, nullable);
    WalkEmbedRun(c, big, off, base, Visit(0, None), n);
  }

  // ---------- the walk and the rewrites ----------

  predicate PendingFrom(p: Pending, k: int) {
    match p
    case None => true
    case More(pc, older) => pc >= k && PendingFrom(older, k)
  }

  predicate WalkFrom(w: Walk, k: int) { w.Visit? ==> w.pc >= k && PendingFrom(w.pending, k) }

  /** Two codes that agree from index k on, and have no back-commit before k, are walked alike. */
  lemma {:induction false} WalkAgree(c: Code, d: Code, k: int, w: Walk, n: nat)
    requires |c| == |d| && 0 < k <= |c| && c[k..] == d[k..]
    requires !c[k - 1].BackCommit? && !d[k - 1].BackCommit? && !HasCharset(d[k - 1])
    requires ClearFrom(c, k) && WalkFrom(w, k) && WalkN(c, w, n) != Astray
    ensures WalkN(c, w, n) == WalkN(d, w, n)
    decreases n
  {
    if n > 0 {
      if !WalkHalted(c, w) {
        assert c[w.pc] == c[k..][w.pc - k] == d[k..][w.pc - k] == d[w.pc];
        if w.pc > k { assert c[w.pc - 1] == c[k..][w.pc - 1 - k] == d[k..][w.pc - 1 - k] == d[w.pc - 1]; }
        if HasTarget(c[w.pc]) { assert Dest(c, w.pc) >= k; }
      }
      if WalkStep(c, w) == Astray { WalkNHalted(c, Astray, n - 1); }
      assert WalkStep(c, w) == WalkStep(d, w);
      WalkAgree(c, d, k, WalkStep(c, w), n - 1);
    }
  }

  predicate PendingOutside(p: Pending, start: int, end: int) {
    match p
    case None => true
    case More(pc, older) => OutsidePc(pc, start, end) && PendingOutside(older, start, end)
  }

  predicate WalkOutside(w: Walk, start: int, end: int) {
    w.Visit? ==> OutsidePc(w.pc, start, end) && PendingOutside(w.pending, start, end)
  }

  /** The walk takes the captures of a slice one by one and is turned back by its first check. */
  lemma {:induction false} WalkSlice(c: Code, at: nat, i: nat, pending: Pending)
    requires at <= i + 1 && i + 1 < |c| && IsCheck(c[i + 1])
    requires forall j :: at <= j <= i ==> IsMovable(c[j])
    ensures WalkN(c, Visit(at, pending), i + 2 - at) == WalkBack(pending)
    decreases i + 1 - at
  {
    if at <= i {
      WalkSlice(c, at + 1, i, pending);
    } else {
      assert WalkN(c, WalkBack(pending), 0) == WalkBack(pending);
    }
  }

  lemma WalkFromHere(c: Code, a: Walk, k: nat, b1: Walk, m: nat, b: Walk)
    returns (m1: nat)
    requires WalkN(c, a, k) == b1
    requires WalkN(c, a, m) == b && WalkHalted(c, b)
    ensures WalkN(c, b1, m1) == b
    ensures m1 == if k <= m then m - k else 0
  {
    if k <= m {
      m1 := m - k;
      WalkNAdd(c, a, k, m - k);
    } else {
      m1 := 0;
      WalkNAdd(c, a, m, k - m);
      WalkNHalted(c, b, k - m);
    }
  }

  lemma MoveSliceSame(c: Code, start: nat, i: nat, end: nat, n: nat, pc: nat)
    requires IsSlice(c, start, i, end, n) && pc < |c| && (pc < start || end < pc)
    ensures var d := MoveSlice(c, start, i, end, n);
      d[pc] == c[pc] && (pc > 0 ==> d[pc - 1].BackCommit? == c[pc - 1].BackCommit? && (HasCharset(d[pc - 1]) ==> HasCharset(c[pc - 1])))
  {
    hide DelayAll;
    var d := MoveSlice(c, start, i, end, n);
    if pc - 1 == end {
      assert d[end] == DelayAll(c[start..i + 1], n)[i - start];
      assert IsMovable(c[start..i + 1][i - start]);
    } else if pc > 0 {
      assert d[pc - 1] == c[pc - 1];
    }
  }

  /** A step outside the slice is the same before and after the move. */
  lemma MoveSliceWalkStep(c: Code, start: nat, i: nat, end: nat, n: nat, a: Walk)
    requires IsSlice(c, start, i, end, n) && WalkOutside(a, start, end)
    requires !WalkHalted(c, a) && a.pc != start && WalkStep(c, a) != Astray
    ensures WalkStep(MoveSlice(c, start, i, end, n), a) == WalkStep(c, a)
    ensures WalkOutside(WalkStep(c, a), start, end)
  {
    MoveSliceSame(c, start, i, end, n, a.pc);
    if HasTarget(c[a.pc]) { assert OutsidePc(Dest(c, a.pc), start, end); }
  }

  lemma {:induction false} MoveSliceWalkRun(c: Code, start: nat, i: nat, end: nat, n: nat, a: Walk, m: nat, b: Walk)
    requires IsSlice(c, start, i, end, n)
    requires WalkOutside(a, start, end)
    requires WalkN(c, a, m) == b && WalkHalted(c, b) && b != Astray
    ensures WalkReaches(MoveSlice(c, start, i, end, n), a, b)
    decreases m
  {
    var d := MoveSlice(c, start, i, end, n);
    if WalkHalted(c, a) {
      WalkNHalted(c, a, m);
      WalkRefl(d, a);
    } else if a.pc != start {
      assert m > 0;
      if WalkStep(c, a) == Astray { WalkNHalted(c, Astray, m - 1); }
      MoveSliceWalkStep(c, start, i, end, n, a);
      MoveSliceWalkRun(c, start, i, end, n, WalkStep(c, a), m - 1, b);
      WalkCons(d, a, b);
    } else {
      assert m > 0;
      var b1 := WalkBack(a.pending);
      WalkSlice(c, start, i, a.pending);
      var m1 := WalkFromHere(c, a, i + 2 - start, b1, m, b);
      MovedFirst(c, start, i, end, n);
      MoveSliceWalkRun(c, start, i, end, n, b1, m1, b);
      WalkCons(d, a, b);
    }
  }

  lemma MovedFirst(c: Code, start: nat, i: nat, end: nat, n: nat)
    requires IsSlice(c, start, i, end, n)
    ensures IsCheck(MoveSlice(c, start, i, end, n)[start])
  {
    assert MoveSlice(c, start, i, end, n)[start] == c[i + 1..end + 1][0];
  }

  lemma MoveSliceWalks(c: Code, start: nat, i: nat, end: nat, n: nat, nullable: bool)
    requires IsSlice(c, start, i, end, n) && Walks(c, nullable)
    ensures Walks(MoveSlice(c, start, i, end, n), nullable)
  {
    var m: nat :| WalkN(c, Visit(0, None), m) == WalkEnd(c, nullable);
    MoveSliceWalkRun(c, start, i, end, n, Visit(0, None), m, WalkEnd(c, nullable));
  }

  predicate SamePending(a: Pending, b: Pending, d: int, d2: int) {
    match (a, b)
    case (None, None) => true
    case (More(x, p), More(y, q)) => SamePc(x, y, d, d2) && SamePending(p, q, d, d2)
    case _ => false
  }

  predicate SameWalk(a: Walk, b: Walk, d: int, d2: int) {
    match (a, b)
    case (Visit(x, p), Visit(y, q)) => SamePc(x, y, d, d2) && SamePending(p, q, d, d2)
    case _ => a == b
  }

  lemma ShortcutWalkStep(c: Code, i: nat, d: nat, a: Walk, a': Walk)
    requires LeadsToJump(c, i, d) && SameWalk(a, a', d, Dest(c, d))
    requires Dest(c, d) > i
    requires a.Visit? && a.pc == a'.pc && !WalkHalted(c, a) && WalkStep(c, a) != Astray
    ensures SameWalk(WalkStep(c, a), WalkStep(Shortcut(c, i, d), a'), d, Dest(c, d))
  {
    var e := Shortcut(c, i, d);
    if a.pc != i { assert e[a.pc] == c[a.pc]; }
    if a.pc > 0 {
      assert e[a.pc - 1].BackCommit? == c[a.pc - 1].BackCommit? && HasCharset(e[a.pc - 1]) == HasCharset(c[a.pc - 1]);
    }
  }

  lemma {:induction false} ShortcutWalkRun(c: Code, i: nat, d: nat, a: Walk, a': Walk, m: nat, b: Walk)
    requires LeadsToJump(c, i, d) && SameWalk(a, a', d, Dest(c, d))
    requires Dest(c, d) > i
    requires WalkN(c, a, m) == b && WalkHalted(c, b) && (b.Exhausted? || (b.Visit? && b.pending.None?))
    ensures WalkReaches(Shortcut(c, i, d), a', b)
    decreases m
  {
    var e := Shortcut(c, i, d);
    if WalkHalted(c, a) {
      WalkNHalted(c, a, m);
      WalkRefl(e, a');
    } else if a.pc != a'.pc {
      assert m > 0;
      ShortcutWalkRun(c, i, d, WalkStep(c, a), a', m - 1, b);
    } else {
      assert m > 0;
      if WalkStep(c, a) == Astray { WalkNHalted(c, Astray, m - 1); }
      ShortcutWalkStep(c, i, d, a, a');
      ShortcutWalkRun(c, i, d, WalkStep(c, a), WalkStep(e, a'), m - 1, b);
      WalkCons(e, a', b);
    }
  }

  lemma ShortcutWalks(c: Code, i: nat, d: nat, nullable: bool)
    requires LeadsToJump(c, i, d) && Walks(c, nullable)
    requires Dest(c, d) > i
    ensures Walks(Shortcut(c, i, d), nullable)
  {
    var m: nat :| WalkN(c, Visit(0, None), m) == WalkEnd(c, nullable);
    ShortcutWalkRun(c, i, d, Visit(0, None), Visit(0, None), m, WalkEnd(c, nullable));
  }
}
