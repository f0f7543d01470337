/** Ordered choice.  A choice already compiled is taken apart, alternative by alternative, and
    (a / b) / c is rebuilt as a / (b / c).  The code of an alternative comes in several forms,
    and the rebuilt code has to mean the same whichever it is. */
module LpegChoice {
  import opened LpegMachine
  import opened LpegReference
  import opened LpegCombinators
  import opened LpegSimulation
  import opened LpegVerifier
  import opened LpegWellFormed
  import opened LpegSequence

  /** The forms of an alternative of e with what follows:
      Plain: choice; e; commit.  Tested: the first check of e as a test, then choice; rest; commit.
      Testing: the first check of e as a test, then rest; jump.  Option: code that never fails. */
  datatype Form = Plain(e: Code) | Tested(e: Code, aux: nat) | Testing(e: Code) | Option(a: Code)

  predicate FormShape(f: Form) {
    match f
    case Plain(e) => true
    case Tested(e, _) => StartsWithCheck(e)
    case Testing(e) => StartsWithCheck(e)
    case Option(a) => |a| > 1 && a[|a| - 1] == Commit(1) && (a[0].Choice? || IsTest(a[0])) && a[0].offset == |a|
  }

  /** The code of an alternative, as if nothing followed it. */
  function FormCode(f: Form): (c: Code)
    requires FormShape(f)
    ensures |c| > 1 && (c[|c| - 1] == Commit(1) || c[|c| - 1] == Jmp(1))
    ensures (c[0].Choice? || IsTest(c[0])) && c[0].offset == |c| && (c[0].Choice? ==> c[|c| - 1].Commit?)
  {
    match f
    case Plain(e) => [Choice(|e| + 2, 0)] + e + [Commit(1)]
    case Tested(e, aux) => [SetOffset(e[0], |e| + 2), Choice(|e| + 1, aux)] + e[1..] + [Commit(1)]
    case Testing(e) => [SetOffset(e[0], |e| + 1)] + e[1..] + [Jmp(1)]
    case Option(a) => a
  }

  /** An alternative followed by the others: its last instruction jumps over them. */
  function WithExit(a: Code, x: Code): (r: Code)
    requires a != [] && (a[|a| - 1].Jmp? || a[|a| - 1].Commit?)
    ensures |r| == |a| + |x|
  {
    a[..|a| - 1] + [SetOffset(a[|a| - 1], |x| + 1)] + x
  }

  function OrElse(r1: Outcome, r2: Outcome): Outcome { if r1.Match? then r1 else r2 }

  ghost predicate Sound(e: Code) { WF(e) && Total(e) && WalkTotal(e) }

  /** Where e passes its first check and fails later, x fails too. */
  ghost predicate Excludes(e: Code, x: Code)
    requires StartsWithCheck(e)
  {
    forall subj: Subject, s: int :: 0 <= s <= |subj| && Passes(e[0], subj, s) && Exec(e, subj, s, NoMatch) ==>
      Exec(x, subj, s, NoMatch)
  }

  ghost predicate NeverFails(a: Code) {
    forall subj: Subject, s: int :: 0 <= s <= |subj| ==> Halts(a, subj, s) && Res(a, subj, s).Match?
  }

  ghost predicate Transparent(x: Code) {
    Walks(x, true) && forall subj: Subject, s: int :: 0 <= s <= |subj| ==> Exec(x, subj, s, Match(s, []))
  }

  /** Having passed its first check, e does not fail any more. */
  ghost predicate FailsAtOnce(e: Code)
    requires StartsWithCheck(e)
  {
    forall subj: Subject, s: int :: 0 <= s <= |subj| && Passes(e[0], subj, s) ==> !Exec(e, subj, s, NoMatch)
  }

  lemma HeadFailsAtOnce(e: Code)
    requires WF(e) && IsHeadFail(e)
    ensures FailsAtOnce(e)
  {
    WFClear(e);
    forall subj: Subject, s: int | 0 <= s <= |subj| && Passes(e[0], subj, s)
      ensures !Exec(e, subj, s, NoMatch)
    {
      if Exec(e, subj, s, NoMatch) { HeadFailExec(e, subj, s, NoMatch); }
    }
  }

  ghost predicate FormSound(f: Form, rest: Code)
    requires FormShape(f)
  {
    match f
    case Plain(e) => Sound(e)
    case Tested(e, aux) => Sound(e) && aux <= UCHAR_MAX && (aux == OpStep(e[0]) || FailsAtOnce(e))
    case Testing(e) => Sound(e) && Excludes(e, rest)
    case Option(a) => WF(a) && NeverFails(a) && Walks(a, true) && Transparent(rest)
  }

  /** c starts with an alternative of form f. */
  ghost predicate HasForm(c: Code, f: Form) {
    && FormShape(f) && |FormCode(f)| <= |c|
    && c == WithExit(FormCode(f), c[|FormCode(f)|..])
    && FormSound(f, c[|FormCode(f)|..])
  }

  /** What every combinator guarantees of the code it returns. */
  ghost predicate Good(c: Code)
    decreases |c|
  {
    && WF(c) && Total(c) && WalkTotal(c)
    && (FirstPart(c) > 0 ==>
          (exists f :: HasForm(c, f) && |FormCode(f)| == FirstPart(c)) && Good(c[FirstPart(c)..]))
  }

  // ---------- running an alternative ----------

  lemma WithExitAt(a: Code, x: Code)
    requires a != [] && (a[|a| - 1].Jmp? || a[|a| - 1].Commit?)
    ensures var r := WithExit(a, x);
      && r[|a|..|a| + |x|] == x && r[|a|..] == x
      && (forall i :: 0 <= i < |a| - 1 ==> r[i] == a[i])
      && r[|a| - 1] == SetOffset(a[|a| - 1], |x| + 1)
  {
  }

  lemma ToRest(d: Code, sp: int, x: Code, subj: Subject, s: int, rx: Outcome)
    requires At(d, sp, x) && sp + |x| == |d| && Exec(x, subj, s, rx)
    ensures Reaches(d, subj, Run(sp, s, Empty, []), Final(d, rx))
  {
    ExecIn(x, d, sp, subj, s, Empty, [], rx);
    if rx.Match? { assert [] + rx.caps == rx.caps; }
  }

  lemma PlainExec(e: Code, x: Code, subj: Subject, s: int, r: Outcome, rx: Outcome)
    requires Exec(e, subj, s, r) && (r.NoMatch? ==> Exec(x, subj, s, rx))
    ensures Exec(WithExit(FormCode(Plain(e)), x), subj, s, OrElse(r, rx))
  {
    var d := WithExit(FormCode(Plain(e)), x);
    WithExitAt(FormCode(Plain(e)), x);
    var stk := Push(Frame(|e| + 2, s, 0), Empty);
    var end := Final(d, OrElse(r, rx));
    assert d[1..1 + |e|] == e;
    ExecIn(e, d, 1, subj, s, stk, [], r);
    if r.Match? {
      assert [] + r.caps == r.caps;
      ReachStep(d, subj, Run(1 + |e|, r.end, stk, r.caps), end);
      ReachTrans(d, subj, Run(1, s, stk, []), Run(1 + |e|, r.end, stk, r.caps), end);
    } else {
      ToRest(d, |e| + 2, x, subj, s, rx);
      ReachTrans(d, subj, Run(1, s, stk, []), Run(|e| + 2, s, Empty, []), end);
    }
    ReachCons(d, subj, Start(s), end);
  }

  /** The code of a tested alternative, instruction by instruction. */
  lemma TestedAt(e: Code, aux: nat, x: Code)
    requires StartsWithCheck(e)
    ensures var d := WithExit(FormCode(Tested(e, aux)), x);
      && |d| == |e| + 2 + |x| && d[0] == SetOffset(e[0], |e| + 2) && d[1] == Choice(|e| + 1, aux)
      && d[2..1 + |e|] == e[1..] && d[2..2 + |e[1..]|] == e[1..] && d[1 + |e|] == Commit(|x| + 1)
      && d[|e| + 2..|e| + 2 + |x|] == x && (x != [] ==> d[|e| + 2] == x[0])
  {
    WithExitAt(FormCode(Tested(e, aux)), x);
  }

  /** A tested alternative that fails past its test resumes aux bytes before where the test left off. */
  lemma TestedOutcome(e: Code, aux: nat, x: Code, subj: Subject, s: int, r: Outcome, rx: Outcome, back: Outcome)
    requires WF(e) && StartsWithCheck(e) && Exec(e, subj, s, r)
    requires !Passes(e[0], subj, s) ==> Exec(x, subj, s, rx)
    requires Passes(e[0], subj, s) && r.NoMatch? ==> Exec(x, subj, s + OpStep(e[0]) - aux, back)
    ensures Exec(WithExit(FormCode(Tested(e, aux)), x), subj, s,
                 if r.Match? then r else if Passes(e[0], subj, s) then back else rx)
  {
    hide Reaches, WithExit, FormCode, WF;
    var d := WithExit(FormCode(Tested(e, aux)), x);
    TestedAt(e, aux, x);
    var end := Final(d, if r.Match? then r else if Passes(e[0], subj, s) then back else rx);
    WFClear(e);
    TailExec(e, subj, s, r);
    if Passes(e[0], subj, s) {
      var s1 := s + OpStep(e[0]);
      var stk := Push(Frame(|e| + 2, s1 - aux, 0), Empty);
      ExecIn(e[1..], d, 2, subj, s1, stk, [], r);
      if r.Match? {
        assert [] + r.caps == r.caps;
        ReachStep(d, subj, Run(1 + |e|, r.end, stk, r.caps), end);
        ReachTrans(d, subj, Run(2, s1, stk, []), Run(1 + |e|, r.end, stk, r.caps), end);
      } else {
        ToRest(d, |e| + 2, x, subj, s1 - aux, back);
        ReachTrans(d, subj, Run(2, s1, stk, []), Run(|e| + 2, s1 - aux, Empty, []), end);
      }
      ReachCons(d, subj, Run(1, s1, Empty, []), end);
      ReachCons(d, subj, Start(s), end);
    } else {
      ToRest(d, |e| + 2, x, subj, s, rx);
      ReachCons(d, subj, Start(s), end);
    }
  }

  lemma TestedExec(e: Code, aux: nat, x: Code, subj: Subject, s: int, r: Outcome, rx: Outcome)
    requires WF(e) && StartsWithCheck(e) && (aux == OpStep(e[0]) || FailsAtOnce(e)) && 0 <= s <= |subj|
    requires Exec(e, subj, s, r) && (r.NoMatch? ==> Exec(x, subj, s, rx))
    ensures Exec(WithExit(FormCode(Tested(e, aux)), x), subj, s, OrElse(r, rx))
  {
    WFClear(e);
    TailExec(e, subj, s, r);
    TestedOutcome(e, aux, x, subj, s, r, rx, rx);
  }

  /** The bare test: past the test, the failure of e is final. */
  function TestingOutcome(e: Code, subj: Subject, s: int, r: Outcome, rx: Outcome): Outcome
    requires StartsWithCheck(e)
  {
    if r.Match? then r else if Passes(e[0], subj, s) then NoMatch else rx
  }

  lemma TestingExec(e: Code, x: Code, subj: Subject, s: int, r: Outcome, rx: Outcome)
    requires WF(e) && StartsWithCheck(e)
    requires Exec(e, subj, s, r) && (!Passes(e[0], subj, s) ==> Exec(x, subj, s, rx))
    ensures Exec(WithExit(FormCode(Testing(e)), x), subj, s, TestingOutcome(e, subj, s, r, rx))
  {
    var d := WithExit(FormCode(Testing(e)), x);
    WithExitAt(FormCode(Testing(e)), x);
    var end := Final(d, TestingOutcome(e, subj, s, r, rx));
    WFClear(e);
    TailExec(e, subj, s, r);
    if Passes(e[0], subj, s) {
      var s1 := s + OpStep(e[0]);
      assert d[1..1 + |e[1..]|] == e[1..];
      ExecIn(e[1..], d, 1, subj, s1, Empty, [], r);
      if r.Match? {
        assert [] + r.caps == r.caps;
        ReachStep(d, subj, Run(|e|, r.end, Empty, r.caps), end);
        ReachTrans(d, subj, Run(1, s1, Empty, []), Run(|e|, r.end, Empty, r.caps), end);
      }
      ReachCons(d, subj, Start(s), end);
    } else {
      ToRest(d, |e| + 1, x, subj, s, rx);
      ReachCons(d, subj, Start(s), end);
    }
  }

  /** An option goes on to its own end or jumps over what follows, which changes nothing. */
  lemma {:induction false} OptionRun(a: Code, x: Code, subj: Subject, st: State, m: nat, r: Outcome)
    requires FormShape(Option(a)) && Transparent(x)
    requires r.Match? && 0 <= r.end <= |subj| && RunN(a, subj, st, m) == Final(a, r)
    ensures Reaches(WithExit(a, x), subj, st, Final(WithExit(a, x), r))
    decreases m
  {
    var d := WithExit(a, x);
    WithExitAt(a, x);
    if Halted(a, st) {
      RunNHalted(a, subj, st, m);
      assert Exec(x, subj, r.end, Match(r.end, []));
      ExecIn(x, d, |a|, subj, r.end, Empty, r.caps, Match(r.end, []));
      assert r.caps + [] == r.caps;
    } else {
      assert m > 0;
      var st1 := Step(a, subj, st);
      if st.pc < |a| - 1 {
        assert Step(d, subj, st) == st1;
        OptionRun(a, x, subj, st1, m - 1, r);
        ReachCons(d, subj, st, Final(d, r));
      } else {
        RunNHalted(a, subj, st1, m - 1);
        ReachStep(d, subj, st, Final(d, r));
      }
    }
  }

  lemma OptionExec(a: Code, x: Code, subj: Subject, s: int, r: Outcome)
    requires FormShape(Option(a)) && Transparent(x) && 0 <= s
    requires r.Match? && InBounds(subj, s, r) && Exec(a, subj, s, r)
    ensures Exec(WithExit(a, x), subj, s, r)
  {
    var m: nat :| RunN(a, subj, Start(s), m) == Final(a, r);
    OptionRun(a, x, subj, Start(s), m, r);
  }

  // ---------- walking an alternative ----------

  lemma WalkToRest(d: Code, sp: int, x: Code, v: bool)
    requires WalkAt(d, sp, x) && sp + |x| == |d| && Walks(x, v)
    ensures WalkReaches(d, Visit(sp, None), WalkEnd(d, v))
  {
    WalkIn(x, d, sp, None, v);
  }

  lemma PlainWalks(e: Code, x: Code, v: bool, vx: bool)
    requires Walks(e, v) && Walks(x, vx)
    ensures Walks(WithExit(FormCode(Plain(e)), x), v || vx)
  {
    var d := WithExit(FormCode(Plain(e)), x);
    WithExitAt(FormCode(Plain(e)), x);
    assert d[1..1 + |e|] == e;
    var p := More(|e| + 2, None);
    WalkIn(e, d, 1, p, v);
    if v {
      WalkRefl(d, Visit(|d|, None));
      WalkCons(d, Visit(1 + |e|, p), Visit(|d|, None));
      WalkTrans(d, Visit(1, p), Visit(1 + |e|, p), Visit(|d|, None));
    } else {
      WalkToRest(d, |e| + 2, x, vx);
      WalkTrans(d, Visit(1, p), Visit(|e| + 2, None), WalkEnd(d, vx));
    }
    WalkCons(d, Visit(0, None), WalkEnd(d, v || vx));
  }

  /** The walk takes the test of an alternative to jump. */
  lemma TestWalks(f: Form, x: Code, vx: bool)
    requires FormShape(f) && (f.Tested? || f.Testing?) && Walks(x, vx)
    ensures Walks(WithExit(FormCode(f), x), vx)
  {
    var d := WithExit(FormCode(f), x);
    WithExitAt(FormCode(f), x);
    WalkToRest(d, |FormCode(f)|, x, vx);
    WalkCons(d, Visit(0, None), WalkEnd(d, vx));
  }

  lemma {:induction false} OptionWalk(a: Code, x: Code, w: Walk, m: nat)
    requires FormShape(Option(a)) && Transparent(x)
    requires WalkN(a, w, m) == WalkEnd(a, true)
    ensures WalkReaches(WithExit(a, x), w, WalkEnd(WithExit(a, x), true))
    decreases m
  {
    var d := WithExit(a, x);
    WithExitAt(a, x);
    if WalkHalted(a, w) {
      WalkNHalted(a, w, m);
      WalkToRest(d, |a|, x, true);
    } else {
      assert m > 0;
      var w1 := WalkStep(a, w);
      if w.pc < |a| - 1 {
        assert WalkStep(d, w) == w1;
        OptionWalk(a, x, w1, m - 1);
      } else {
        if w1.Visit? { WalkNHalted(a, w1, m - 1); } else { WalkNHalted(a, w1, m - 1); }
        WalkRefl(d, WalkEnd(d, true));
      }
      WalkCons(d, w, WalkEnd(d, true));
    }
  }

  lemma OptionWalks(a: Code, x: Code)
    requires FormShape(Option(a)) && Transparent(x) && Walks(a, true)
    ensures Walks(WithExit(a, x), true)
  {
    var m: nat :| WalkN(a, Visit(0, None), m) == WalkEnd(a, true);
    OptionWalk(a, x, Visit(0, None), m);
  }

  // ---------- the shape of the rebuilt code ----------

  lemma WithExitFirstPart(f: Form, x: Code)
    requires FormShape(f)
    ensures FirstPart(WithExit(FormCode(f), x)) == |FormCode(f)|
    ensures WithExit(FormCode(f), x)[|FormCode(f)|..] == x
  {
    WithExitAt(FormCode(f), x);
  }

  ghost predicate FormWF(f: Form)
    requires FormShape(f)
  {
    match f
    case Plain(e) => WF(e)
    case Tested(e, aux) => WF(e) && aux <= UCHAR_MAX
    case Testing(e) => WF(e)
    case Option(a) => WF(a)
  }

  lemma RestInst(d: Code, sp: nat, x: Code, i: nat)
    requires WF(x) && sp + |x| == |d| && d[sp..] == x && sp <= i < |d|
    ensures InstOk(d, i)
  {
    assert d[sp..sp + |x|] == x;
    assert Sits(d, sp, x, 0);
    SitsInst(d, sp, x, 0, i - sp);
  }

  lemma PlainInst(e: Code, x: Code, i: nat)
    requires WF(e) && WF(x) && i <= |e|
    ensures InstOk(WithExit(FormCode(Plain(e)), x), i)
  {
    var d := WithExit(FormCode(Plain(e)), x);
    if i > 0 {
      assert d[1..1 + |e|] == e;
      assert Sits(d, 1, e, 0);
      SitsInst(d, 1, e, 0, i - 1);
    } else if x != [] {
      assert d[|e| + 2] == x[0];
    }
  }

  lemma TestedInst(e: Code, aux: nat, x: Code, i: nat)
    requires WF(e) && StartsWithCheck(e) && aux <= UCHAR_MAX && WF(x) && i <= |e|
    ensures InstOk(WithExit(FormCode(Tested(e, aux)), x), i)
  {
    hide WithExit, FormCode;
    var d := WithExit(FormCode(Tested(e, aux)), x);
    TestedAt(e, aux, x);
    assert InstOk(e, 0);
    if i > 1 {
      assert Sits(d, 1, e, 1);
      SitsInst(d, 1, e, 1, i - 1);
    }
  }

  lemma TestingAt(e: Code, x: Code)
    requires StartsWithCheck(e)
    ensures var d := WithExit(FormCode(Testing(e)), x);
      && |d| == |e| + 1 + |x| && d[0] == SetOffset(e[0], |e| + 1) && d[1..|e|] == e[1..] && d[|e|] == Jmp(|x| + 1)
      && (x != [] ==> d[|e| + 1] == x[0])
  {
    WithExitAt(FormCode(Testing(e)), x);
  }

  lemma TestingInst(e: Code, x: Code, i: nat)
    requires WF(e) && StartsWithCheck(e) && WF(x) && i < |e|
    ensures InstOk(WithExit(FormCode(Testing(e)), x), i)
  {
    hide WithExit, FormCode;
    var d := WithExit(FormCode(Testing(e)), x);
    TestingAt(e, x);
    assert InstOk(e, 0);
    if i > 0 {
      assert Sits(d, 0, e, 1);
      SitsInst(d, 0, e, 1, i);
    }
  }

  lemma OptionInst(a: Code, x: Code, i: nat)
    requires FormShape(Option(a)) && WF(a) && WF(x) && i < |a| - 1
    ensures InstOk(WithExit(a, x), i)
  {
    var d := WithExit(a, x);
    WithExitAt(a, x);
    assert InstOk(a, i);
    if x != [] { assert d[|a|] == x[0]; }
    if HasTarget(a[i]) {
      var t := Dest(a, i);
      if 0 < t < |a| { assert d[t - 1] == a[t - 1]; }
    }
  }

  lemma WithExitInst(f: Form, x: Code, i: nat)
    requires FormShape(f) && FormWF(f) && WF(x) && i < |FormCode(f)| + |x|
    ensures InstOk(WithExit(FormCode(f), x), i)
  {
    var a := FormCode(f);
    var d := WithExit(a, x);
    WithExitAt(a, x);
    if i >= |a| {
      RestInst(d, |a|, x, i);
    } else if i == |a| - 1 {
    } else {
      match f
      case Plain(e) => PlainInst(e, x, i);
      case Tested(e, aux) => TestedInst(e, aux, x, i);
      case Testing(e) => TestingInst(e, x, i);
      case Option(_) => OptionInst(a, x, i);
    }
  }

  lemma LastCommit(a: Code, n: int)
    requires a != [] && a[|a| - 1].Commit? && JumpsHaveTests(a)
    ensures JumpsHaveTests(a[..|a| - 1] + [Commit(n)])
  {
    var b := a[..|a| - 1] + [Commit(n)];
    if i :| 0 <= i < |b| && b[i].Jmp? {
      assert a[i].Jmp?;
      var j :| 0 <= j < |a| && IsTest(a[j]);
      assert IsTest(b[j]);
    }
  }

  lemma FormParts(f: Form, x: Code)
    requires FormShape(f) && FormWF(f) && WF(x)
    ensures JumpsHaveTests(x) && (f.Plain? ==> JumpsHaveTests(f.e)) && (f.Option? ==> JumpsHaveTests(FormCode(f)))
  {
  }

  lemma FormJumps(f: Form, x: Code)
    requires FormShape(f) && FormWF(f) && WF(x)
    ensures JumpsHaveTests(WithExit(FormCode(f), x))
  {
    hide WF, FormWF, JumpsHaveTests;
    var a := FormCode(f);
    var d := WithExit(a, x);
    FormParts(f, x);
    WithExitAt(a, x);
    match f
    case Plain(e) =>
      JoinJumps([Choice(|e| + 2, 0)], e);
      JoinJumps([Choice(|e| + 2, 0)] + e, [Commit(|x| + 1)]);
      JoinJumps([Choice(|e| + 2, 0)] + e + [Commit(|x| + 1)], x);
      assert d == [Choice(|e| + 2, 0)] + e + [Commit(|x| + 1)] + x;
    case Option(_) =>
      LastCommit(a, |x| + 1);
      JoinJumps(a[..|a| - 1] + [Commit(|x| + 1)], x);
      assert d == a[..|a| - 1] + [Commit(|x| + 1)] + x;
    case _ => HasATest(d, 0);
  }

  lemma WithExitWF(f: Form, x: Code)
    requires FormShape(f) && FormWF(f) && WF(x)
    ensures WF(WithExit(FormCode(f), x))
  {
    var d := WithExit(FormCode(f), x);
    forall i | 0 <= i < |d|
      ensures InstOk(d, i)
    {
      WithExitInst(f, x, i);
    }
    FormJumps(f, x);
    WithExitAt(FormCode(f), x);
    if x != [] { assert d[|d| - 1] == x[|x| - 1]; }
  }

  // ---------- union ----------

  lemma PassedByte(i: Inst, subj: Subject, s: int)
    requires IsCheck(i) && (i.Any? ==> i.n > 0) && 0 <= s && Passes(i, subj, s)
    ensures s < |subj| && subj[s] in FillCharset(i)
  {
    assert subj[s] in AllBytes;
  }

  lemma CheckedExclusive(c1: Code, c2: Code, subj: Subject, s: int, r2: Outcome)
    requires WF(c1) && WF(c2) && StartsWithCheck(c1) && StartsWithCheck(c2)
    requires FillCharset(c1[0]) !! FillCharset(c2[0])
    requires 0 <= s && Passes(c1[0], subj, s) && Exec(c2, subj, s, r2)
    ensures r2 == NoMatch
  {
    WFClear(c2);
    TailExec(c2, subj, s, r2);
    assert InstOk(c1, 0) && InstOk(c2, 0);
    PassedByte(c1[0], subj, s);
    if Passes(c2[0], subj, s) {
      PassedByte(c2[0], subj, s);
    }
  }

  /** R means c1, and c2 where c1 fails. */
  ghost predicate UnionOf(d: Code, c1: Code, c2: Code)
    requires Total(c1) && Total(c2)
  {
    && (forall subj: Subject, s: int :: 0 <= s <= |subj| ==>
          Halts(c1, subj, s) && Halts(c2, subj, s) && Exec(d, subj, s, OrElse(Res(c1, subj, s), Res(c2, subj, s))))
    && (forall v1, v2 :: Walks(c1, v1) && Walks(c2, v2) ==> Walks(d, v1 || v2))
  }

  lemma UnionTotal(d: Code, c1: Code, c2: Code)
    requires Total(c1) && Total(c2) && UnionOf(d, c1, c2)
    ensures Total(d)
  {
    forall subj: Subject, s: int | 0 <= s <= |subj|
      ensures Halts(d, subj, s)
    {
      assert Halts(c1, subj, s) && Halts(c2, subj, s);
      assert Exec(d, subj, s, OrElse(Res(c1, subj, s), Res(c2, subj, s)));
    }
  }

  lemma UnionWalkTotal(d: Code, c1: Code, c2: Code)
    requires Total(c1) && Total(c2) && UnionOf(d, c1, c2) && WalkTotal(c1) && WalkTotal(c2)
    ensures WalkTotal(d)
  {
    var v1 := if Walks(c1, true) then true else false;
    var v2 := if Walks(c2, true) then true else false;
    assert Walks(d, v1 || v2);
  }

  /** The form that the union of c1 (itself not a choice) and c2 takes, unless both are charsets. */
  function UnionForm(c1: Code, c2: Code): (f: Form)
    ensures FormShape(f)
  {
    if Exclusive(ToCharset(c1), ToCharset(c2)) || IsHeadFail(c1) then Testing(c1)
    else if StartsWithCheck(c1) then Tested(c1, OpStep(c1[0])) else Plain(c1)
  }

  predicate TwoCharsets(c1: Code, c2: Code) { ToCharset(c1).IsCharset? && ToCharset(c2).IsCharset? }

  lemma BasicUnionForm(c1: Code, c2: Code, f: Form)
    requires !TwoCharsets(c1, c2) && f == UnionForm(c1, c2)
    ensures BasicUnion(c1, c2, ToCharset(c2)) == WithExit(FormCode(f), c2)
  {
    hide WithExit, OptimizeChoice, ToCharset, Exclusive;
    if f.Testing? {
      ExitOf([SetOffset(c1[0], |c1| + 1)] + c1[1..], Jmp(1), c2);
    } else if StartsWithCheck(c1) {
      ExitOf([SetOffset(c1[0], |c1| + 2), Choice(|c1| + 1, OpStep(c1[0]))] + c1[1..], Commit(1), c2);
      CheckBeforeChoice(c1, c2);
    } else {
      ExitOf([Choice(|c1| + 2, 0)] + c1, Commit(1), c2);
      ChoiceStays(c1, c2);
    }
  }

  lemma ExitOf(h: Code, j: Inst, x: Code)
    requires j.Jmp? || j.Commit?
    ensures WithExit(h + [j], x) == h + [SetOffset(j, |x| + 1)] + x
  {
    assert (h + [j])[..|h|] == h;
  }

  lemma CheckBeforeChoice(c1: Code, c2: Code)
    requires StartsWithCheck(c1)
    ensures OptimizeChoice([Choice(|c1| + 2, 0)] + c1 + [Commit(|c2| + 1)] + c2)
         == [SetOffset(c1[0], |c1| + 2), Choice(|c1| + 1, OpStep(c1[0]))] + c1[1..] + [Commit(|c2| + 1)] + c2
  {
    var raw := [Choice(|c1| + 2, 0)] + c1 + [Commit(|c2| + 1)] + c2;
    assert raw[1] == c1[0];
    assert raw[2..] == c1[1..] + [Commit(|c2| + 1)] + c2;
  }

  lemma ChoiceStays(c1: Code, c2: Code)
    requires !StartsWithCheck(c1)
    ensures var raw := [Choice(|c1| + 2, 0)] + c1 + [Commit(|c2| + 1)] + c2; OptimizeChoice(raw) == raw
  {
    var raw := [Choice(|c1| + 2, 0)] + c1 + [Commit(|c2| + 1)] + c2;
    assert raw[1] == (if c1 == [] then Commit(|c2| + 1) else c1[0]);
  }

  lemma CharsetUnion(c1: Code, c2: Code)
    requires Good(c1) && Good(c2) && ToCharset(c1).IsCharset? && ToCharset(c2).IsCharset?
    ensures UnionOf(BasicUnion(c1, c2, ToCharset(c2)), c1, c2) && Good(BasicUnion(c1, c2, ToCharset(c2)))
  {
    var d := BasicUnion(c1, c2, ToCharset(c2));
    forall subj: Subject, s: int | 0 <= s <= |subj|
      ensures Halts(c1, subj, s) && Halts(c2, subj, s) && Exec(d, subj, s, OrElse(Res(c1, subj, s), Res(c2, subj, s)))
    {
      assert Halts(c1, subj, s) && Halts(c2, subj, s);
      CharsetExec(c1, subj, s, Res(c1, subj, s));
      CharsetExec(c2, subj, s, Res(c2, subj, s));
      CheckExec(d[0], subj, s);
    }
    CheckWF(d[0]);
    CheckWalks(d);
    CheckWalks(c1);
    CheckWalks(c2);
    forall v1, v2 | Walks(c1, v1) && Walks(c2, v2)
      ensures Walks(d, v1 || v2)
    {
      WalksUnique(c1, v1, false);
      WalksUnique(c2, v2, false);
    }
    UnionTotal(d, c1, c2);
  }

  lemma BasicExcludes(c1: Code, c2: Code)
    requires Good(c1) && Good(c2) && StartsWithCheck(c1)
    requires Exclusive(ToCharset(c1), ToCharset(c2)) || IsHeadFail(c1)
    ensures Excludes(c1, c2)
  {
    WFClear(c1);
    forall subj: Subject, s: int | 0 <= s <= |subj| && Passes(c1[0], subj, s) && Exec(c1, subj, s, NoMatch)
      ensures Exec(c2, subj, s, NoMatch)
    {
      assert Halts(c2, subj, s);
      if IsHeadFail(c1) {
        HeadFailExec(c1, subj, s, NoMatch);
      } else {
        CheckedExclusive(c1, c2, subj, s, Res(c2, subj, s));
      }
    }
  }

  lemma BasicUnionExec(c1: Code, c2: Code, f: Form, subj: Subject, s: int)
    requires Good(c1) && Good(c2) && !TwoCharsets(c1, c2) && f == UnionForm(c1, c2) && 0 <= s <= |subj|
    ensures Halts(c1, subj, s) && Halts(c2, subj, s)
    ensures Exec(BasicUnion(c1, c2, ToCharset(c2)), subj, s, OrElse(Res(c1, subj, s), Res(c2, subj, s)))
  {
    BasicUnionForm(c1, c2, f);
    assert Halts(c1, subj, s) && Halts(c2, subj, s);
    var r1, r2 := Res(c1, subj, s), Res(c2, subj, s);
    match f
    case Plain(_) => PlainExec(c1, c2, subj, s, r1, r2);
    case Tested(_, aux) => TestedExec(c1, aux, c2, subj, s, r1, r2);
    case Testing(_) =>
      TestingExec(c1, c2, subj, s, r1, r2);
      if r1.NoMatch? && Passes(c1[0], subj, s) {
        BasicExcludes(c1, c2);
        ExecUnique(c2, subj, s, r2, NoMatch);
      }
  }

  lemma BasicUnionWalks(c1: Code, c2: Code, f: Form, v1: bool, v2: bool)
    requires !TwoCharsets(c1, c2) && f == UnionForm(c1, c2) && Walks(c1, v1) && Walks(c2, v2)
    ensures Walks(BasicUnion(c1, c2, ToCharset(c2)), v1 || v2)
  {
    BasicUnionForm(c1, c2, f);
    if f.Plain? {
      PlainWalks(c1, c2, v1, v2);
    } else {
      CheckWalks(c1);
      WalksUnique(c1, v1, false);
      TestWalks(f, c2, v2);
    }
  }

  lemma GoodWithExit(f: Form, x: Code)
    requires FormShape(f) && FormWF(f) && FormSound(f, x) && Good(x)
    requires Total(WithExit(FormCode(f), x)) && WalkTotal(WithExit(FormCode(f), x))
    ensures Good(WithExit(FormCode(f), x))
  {
    var d := WithExit(FormCode(f), x);
    WithExitWF(f, x);
    WithExitFirstPart(f, x);
    assert HasForm(d, f);
  }

  lemma UnionFormSound(c1: Code, c2: Code)
    requires Good(c1) && Good(c2)
    ensures FormWF(UnionForm(c1, c2)) && FormSound(UnionForm(c1, c2), c2)
  {
    hide Total, WalkTotal;
    var f := UnionForm(c1, c2);
    if f.Testing? { BasicExcludes(c1, c2); }
    if f.Tested? { assert InstOk(c1, 0); }
  }

  lemma BasicUnionOf(c1: Code, c2: Code, f: Form, d: Code)
    requires Total(c1) && Total(c2) && Good(c1) && Good(c2) && !TwoCharsets(c1, c2)
    requires f == UnionForm(c1, c2) && d == BasicUnion(c1, c2, ToCharset(c2)) == WithExit(FormCode(f), c2)
    ensures UnionOf(d, c1, c2)
  {
    hide WF, FormWF, FormSound, Walks, ToCharset, UnionForm, WithExit, FormCode, BasicUnion;
    forall subj: Subject, s: int | 0 <= s <= |subj|
      ensures Halts(c1, subj, s) && Halts(c2, subj, s) && Exec(d, subj, s, OrElse(Res(c1, subj, s), Res(c2, subj, s)))
    {
      assert Halts(c1, subj, s) && Halts(c2, subj, s);
      BasicUnionExec(c1, c2, f, subj, s);
    }
    forall v1, v2 | Walks(c1, v1) && Walks(c2, v2)
      ensures Walks(d, v1 || v2)
    {
      BasicUnionWalks(c1, c2, f, v1, v2);
    }
  }

  lemma BasicUnionGood(c1: Code, c2: Code)
    requires Good(c1) && Good(c2)
    ensures var d := BasicUnion(c1, c2, ToCharset(c2)); d != [] && UnionOf(d, c1, c2) && Good(d)
  {
    hide WF, Halts, FormWF, FormSound, FormShape, Walks, UnionOf, ToCharset, UnionForm, WithExit, FormCode;
    var d := BasicUnion(c1, c2, ToCharset(c2));
    if ToCharset(c1).IsCharset? && ToCharset(c2).IsCharset? {
      CharsetUnion(c1, c2);
    } else {
      var f := UnionForm(c1, c2);
      BasicUnionForm(c1, c2, f);
      BasicUnionOf(c1, c2, f, d);
      UnionTotal(d, c1, c2);
      UnionWalkTotal(d, c1, c2);
      UnionFormSound(c1, c2);
      GoodWithExit(f, c2);
    }
  }

  // ---------- re-associating ----------

  /** The code of the alternative that a test at the start of c stands for. */
  function AlternativeOf(c: Code, sp: nat): Code
    requires 1 < sp <= |c| && IsCheckOp(c[0])
  {
    [SetOffset(c[0], 0)] + c[1..sp - 1]
  }

  /** The rebuilt choice goes back one byte, whatever the test of the alternative consumed: its
      test has to consume one byte, or the alternative must not be able to fail past it. */
  ghost predicate RebuildSafe(c1: Code, t2: CharsetTag)
    decreases |c1|
  {
    var sp := FirstPart(c1);
    sp > 0 ==>
      && (c1[sp - 1].Jmp? && Interfere(c1[..sp], t2) ==> OpStep(c1[0]) == 1 || FailsAtOnce(AlternativeOf(c1, sp)))
      && RebuildSafe(c1[sp..], t2)
  }

  /** Outcome of a code that starts with an alternative, from the outcomes of e and the rest. */
  lemma FormExec(c: Code, f: Form, subj: Subject, s: int)
    requires Good(c) && HasForm(c, f) && Good(c[|FormCode(f)|..]) && 0 <= s <= |subj|
    ensures var x := c[|FormCode(f)|..];
      && Halts(c, subj, s) && Halts(x, subj, s)
      && match f
         case Option(a) => Halts(a, subj, s) && Res(c, subj, s) == Res(a, subj, s) && Res(c, subj, s).Match?
         case _ => Halts(f.e, subj, s) && Res(c, subj, s) == OrElse(Res(f.e, subj, s), Res(x, subj, s))
  {
    var x := c[|FormCode(f)|..];
    assert Halts(c, subj, s) && Halts(x, subj, s);
    var r, rx := Res(c, subj, s), Res(x, subj, s);
    match f
    case Plain(e) =>
      assert Halts(e, subj, s);
      PlainExec(e, x, subj, s, Res(e, subj, s), rx);
      ExecUnique(c, subj, s, r, OrElse(Res(e, subj, s), rx));
    case Tested(e, aux) =>
      assert Halts(e, subj, s);
      TestedExec(e, aux, x, subj, s, Res(e, subj, s), rx);
      ExecUnique(c, subj, s, r, OrElse(Res(e, subj, s), rx));
    case Testing(e) =>
      assert Halts(e, subj, s);
      TestingExec(e, x, subj, s, Res(e, subj, s), rx);
      ExecUnique(c, subj, s, r, TestingOutcome(e, subj, s, Res(e, subj, s), rx));
      if Passes(e[0], subj, s) && Res(e, subj, s).NoMatch? {
        ExecUnique(x, subj, s, rx, NoMatch);
      }
    case Option(a) =>
      assert Halts(a, subj, s) && Res(a, subj, s).Match?;
      OptionExec(a, x, subj, s, Res(a, subj, s));
      ExecUnique(c, subj, s, r, Res(a, subj, s));
  }

  /** A part that keeps its bare test does not interfere: where it fails, c2 fails too. */
  lemma NoInterference(e: Code, part: Code, c2: Code, subj: Subject, s: int)
    requires Good(c2) && WF(e) && StartsWithCheck(e) && 0 <= s <= |subj|
    requires part != [] && IsTest(part[0]) && part[0] == SetOffset(e[0], part[0].offset) && !Interfere(part, ToCharset(c2))
    requires Passes(e[0], subj, s)
    ensures Exec(c2, subj, s, NoMatch)
  {
    assert !IsNoFail(part[0]);
    assert Halts(c2, subj, s);
    var r2 := Res(c2, subj, s);
    WFClear(c2);
    TailExec(c2, subj, s, r2);
    assert InstOk(e, 0) && InstOk(c2, 0);
    PassedByte(e[0], subj, s);
    if Passes(c2[0], subj, s) {
      PassedByte(c2[0], subj, s);
    }
  }

  /** The form that an alternative has after it has been put before the rest y. */
  function NewForm(c1: Code, f: Form, t2: CharsetTag): Form
    requires FirstPart(c1) > 0
  {
    if f.Testing? && Interfere(c1[..FirstPart(c1)], t2) then Tested(f.e, 1) else f
  }

  lemma SeparateForm(c1: Code, c2: Code, f: Form)
    requires FirstPart(c1) > 0 && HasForm(c1, f) && |FormCode(f)| == FirstPart(c1)
    ensures var sp := FirstPart(c1); var g := NewForm(c1, f, ToCharset(c2));
      && FormShape(g)
      && SeparateParts(c1, c2, ToCharset(c2)) == WithExit(FormCode(g), SeparateParts(c1[sp..], c2, ToCharset(c2)))
  {
    hide WF, Total, WalkTotal, FormSound, ToCharset, Interfere, BasicUnion, SeparateParts, PlacePart, FormCode;
    var t2, sp := ToCharset(c2), FirstPart(c1);
    var x := SeparateParts(c1[sp..], c2, t2);
    SeparateStep(c1, c2, t2);
    PartForm(c1, f);
    PlacedForm(c1[..sp], f, x, t2, c1[sp..]);
  }

  lemma SeparateStep(c1: Code, c2: Code, t2: CharsetTag)
    requires FirstPart(c1) > 0
    ensures IsPart(c1[..FirstPart(c1)])
    ensures SeparateParts(c1, c2, t2) == PlacePart(c1[..FirstPart(c1)], SeparateParts(c1[FirstPart(c1)..], c2, t2), t2)
  {
    hide BasicUnion, PlacePart;
  }

  /** The code of the alternative a form stands for, followed by code of length n. */
  lemma PartForm(c: Code, f: Form)
    requires HasForm(c, f)
    ensures var a := FormCode(f); c[..|a|] == a[..|a| - 1] + [SetOffset(a[|a| - 1], |c| - |a| + 1)]
  {
    hide WF, Total, WalkTotal, FormSound;
    WithExitAt(FormCode(f), c[|FormCode(f)|..]);
  }

  lemma PlacedForm(part: Code, f: Form, x: Code, t2: CharsetTag, was: Code)
    requires FormShape(f) && IsPart(part)
    requires var a := FormCode(f); |a| > 1 && part == a[..|a| - 1] + [SetOffset(a[|a| - 1], |was| + 1)]
    ensures var g := if f.Testing? && Interfere(part, t2) then Tested(f.e, 1) else f; FormShape(g) && PlacePart(part, x, t2) == WithExit(FormCode(g), x)
  {
    hide Interfere;
    var a, sp := FormCode(f), |part|;
    assert part[..sp - 1] == a[..sp - 1];
    if f.Testing? && Interfere(part, t2) {
      var e := f.e;
      assert part[1..sp - 1] == e[1..];
      assert FormCode(Tested(e, 1))[..|e| + 1] == [SetOffset(e[0], |e| + 2), Choice(|e| + 1, 1)] + e[1..];
    }
  }

  /** The outcome of the rebuilt choice, when the outcome of the rebuilt rest is known. */
  lemma SeparateExec(c1: Code, sp: nat, b: Code, c2: Code, f: Form, g: Form, x: Code, d: Code, subj: Subject, s: int)
    requires FormShape(f) && FormShape(g) && |FormCode(f)| == sp && d == WithExit(FormCode(g), x)
    requires 0 < sp <= |c1| && b == c1[sp..]
    requires if g == f then f.Testing? ==> !Interfere(c1[..sp], ToCharset(c2)) else f.Testing? && g == Tested(f.e, 1) && (OpStep(f.e[0]) == 1 || FailsAtOnce(f.e))
    requires 0 <= s <= |subj| && Halts(c1, subj, s) && Halts(c2, subj, s)
    requires Total(b) && Total(c2) && UnionOf(x, b, c2) && (f.Option? ==> Transparent(x))
    requires sp == FirstPart(c1) && Good(c1) && Good(b) && Good(c2) && HasForm(c1, f)
    ensures Exec(d, subj, s, OrElse(Res(c1, subj, s), Res(c2, subj, s)))
  {
    hide WF, WalkTotal, Walks, FailsAtOnce, Excludes, Interfere;
    FormExec(c1, f, subj, s);
    assert Halts(c2, subj, s) && Halts(b, subj, s);
    var r1, r2, rb := Res(c1, subj, s), Res(c2, subj, s), Res(b, subj, s);
    assert Exec(x, subj, s, OrElse(rb, r2));
    match f
    case Plain(e) => PlainExec(e, x, subj, s, Res(e, subj, s), OrElse(rb, r2));
    case Tested(e, aux) => TestedExec(e, aux, x, subj, s, Res(e, subj, s), OrElse(rb, r2));
    case Option(a) => OptionExec(a, x, subj, s, r1);
    case Testing(e) =>
      var r := Res(e, subj, s);
      if g == f {
        TestingExec(e, x, subj, s, r, OrElse(rb, r2));
        if r.NoMatch? && Passes(e[0], subj, s) { StillExcluded(c1, c2, f, subj, s); }
      } else {
        TestedExec(e, 1, x, subj, s, r, OrElse(rb, r2));
      }
  }

  /** Where an alternative that keeps its bare test fails past it, the rest and c2 fail too. */
  lemma StillExcluded(c1: Code, c2: Code, f: Form, subj: Subject, s: int)
    requires 0 <= s <= |subj| && Good(c1) && Good(c2) && FirstPart(c1) > 0
    requires HasForm(c1, f) && |FormCode(f)| == FirstPart(c1) && Good(c1[FirstPart(c1)..])
    requires f.Testing? && !Interfere(c1[..FirstPart(c1)], ToCharset(c2)) && Passes(f.e[0], subj, s) && Exec(f.e, subj, s, NoMatch)
    ensures var b := c1[FirstPart(c1)..]; Halts(b, subj, s) && Halts(c2, subj, s) && Res(b, subj, s).NoMatch? && Res(c2, subj, s).NoMatch?
  {
    hide WF, WalkTotal, Walks, Interfere;
    var sp := FirstPart(c1);
    var b := c1[sp..];
    WithExitAt(FormCode(f), b);
    assert c1[0] == FormCode(f)[0];
    assert Halts(b, subj, s) && Halts(c2, subj, s);
    ExecUnique(b, subj, s, Res(b, subj, s), NoMatch);
    NoInterference(f.e, c1[..sp], c2, subj, s);
    ExecUnique(c2, subj, s, Res(c2, subj, s), NoMatch);
  }

  lemma RebuiltHeadFail(c1: Code, f: Form, t2: CharsetTag)
    requires FirstPart(c1) > 0 && RebuildSafe(c1, t2)
    requires HasForm(c1, f) && |FormCode(f)| == FirstPart(c1) && f.Testing? && Interfere(c1[..FirstPart(c1)], t2)
    ensures OpStep(f.e[0]) == 1 || FailsAtOnce(f.e)
  {
    hide WithExit, FormSound, FormCode, AlternativeOf, FailsAtOnce, Interfere, FirstPart;
    TestingPart(c1, f);
  }

  /** What is read of an alternative behind a test. */
  lemma TestingPart(c: Code, f: Form)
    requires FormShape(f) && |FormCode(f)| <= |c| && HasForm(c, f) && f.Testing?
    ensures var sp := |FormCode(f)|;
      sp > 1 && c[sp - 1].Jmp? && IsCheckOp(c[0]) && OpStep(c[0]) == OpStep(f.e[0]) && AlternativeOf(c, sp) == f.e
  {
    hide FormSound, WithExit;
    var sp := |FormCode(f)|;
    WithExitAt(FormCode(f), c[sp..]);
    assert c[1..sp - 1] == FormCode(f)[1..sp - 1] == f.e[1..];
    assert f.e == [f.e[0]] + f.e[1..];
  }

  lemma OptionCodeIs(a: Code)
    requires FormShape(Option(a))
    ensures FormCode(Option(a)) == a
  {
  }

  lemma SeparateWalks(f: Form, g: Form, b: Code, c2: Code, x: Code, v1: bool, v2: bool)
    requires FormShape(f) && FormShape(g) && (g == f || (f.Testing? && g.Tested?)) && FormSound(f, b)
    requires Total(b) && Total(c2) && WalkTotal(b) && UnionOf(x, b, c2)
    requires f.Option? ==> Transparent(x)
    requires Walks(WithExit(FormCode(f), b), v1) && Walks(c2, v2)
    ensures Walks(WithExit(FormCode(g), x), v1 || v2)
  {
    hide WF, Total, Walks, WithExit, FormCode, Excludes, FailsAtOnce;
    var vb := if Walks(b, true) then true else false;
    assert Walks(x, vb || v2);
    match f
    case Plain(e) =>
      var ve := if Walks(e, true) then true else false;
      PlainWalks(e, b, ve, vb);
      WalksUnique(WithExit(FormCode(f), b), v1, ve || vb);
      PlainWalks(e, x, ve, vb || v2);
    case Option(a) =>
      OptionCodeIs(a);
      OptionWalks(a, b);
      WalksUnique(WithExit(FormCode(f), b), v1, true);
      OptionWalks(a, x);
    case _ =>
      TestWalks(f, b, vb);
      WalksUnique(WithExit(FormCode(f), b), v1, vb);
      TestWalks(g, x, vb || v2);
  }

  lemma TransparentUnion(x: Code, b: Code, c2: Code)
    requires Transparent(b) && Total(b) && Total(c2) && UnionOf(x, b, c2) && WalkTotal(c2)
    ensures Transparent(x)
  {
    var v2 := if Walks(c2, true) then true else false;
    assert Walks(x, true || v2);
    forall subj: Subject, s: int | 0 <= s <= |subj|
      ensures Exec(x, subj, s, Match(s, []))
    {
      assert Halts(b, subj, s) && Halts(c2, subj, s);
      ResIs(b, subj, s, Match(s, []));
      assert Exec(x, subj, s, OrElse(Res(b, subj, s), Res(c2, subj, s)));
    }
  }

  /** The failures that justify a bare test are still failures of the rebuilt rest. */
  lemma ExcludesUnion(c1: Code, f: Form, c2: Code, x: Code)
    requires Good(c1) && Good(c2) && FirstPart(c1) > 0
    requires HasForm(c1, f) && |FormCode(f)| == FirstPart(c1) && f.Testing? && Good(c1[FirstPart(c1)..])
    requires UnionOf(x, c1[FirstPart(c1)..], c2) && !Interfere(c1[..FirstPart(c1)], ToCharset(c2))
    ensures Excludes(f.e, x)
  {
    var sp := FirstPart(c1);
    var b := c1[sp..];
    WithExitAt(FormCode(f), b);
    assert c1[0] == FormCode(f)[0];
    forall subj: Subject, s: int | 0 <= s <= |subj| && Passes(f.e[0], subj, s) && Exec(f.e, subj, s, NoMatch)
      ensures Exec(x, subj, s, NoMatch)
    {
      assert Halts(b, subj, s) && Halts(c2, subj, s);
      ExecUnique(b, subj, s, Res(b, subj, s), NoMatch);
      NoInterference(f.e, c1[..sp], c2, subj, s);
      ExecUnique(c2, subj, s, Res(c2, subj, s), NoMatch);
      assert Exec(x, subj, s, OrElse(Res(b, subj, s), Res(c2, subj, s)));
    }
  }

  lemma SeparateUnion(c1: Code, b: Code, c2: Code, f: Form, g: Form, x: Code, d: Code)
    requires FirstPart(c1) > 0 && b == c1[FirstPart(c1)..] && Total(c1) && Total(b) && Total(c2) && UnionOf(x, b, c2)
    requires FormShape(f) && FormShape(g) && |FormCode(f)| == FirstPart(c1) && HasForm(c1, f) && (f.Option? ==> Transparent(x))
    requires g == NewForm(c1, f, ToCharset(c2)) && d == WithExit(FormCode(g), x) && RebuildSafe(c1, ToCharset(c2))
    requires Good(c1) && Good(b) && Good(c2)
    ensures UnionOf(d, c1, c2)
  {
    hide WF, FormWF, FormSound, FormShape, RebuildSafe, WithExit, FormCode;
    var t2, sp := ToCharset(c2), FirstPart(c1);
    if g != f { RebuiltHeadFail(c1, f, t2); }
    forall subj: Subject, s: int | 0 <= s <= |subj|
      ensures Halts(c1, subj, s) && Halts(c2, subj, s) && Exec(d, subj, s, OrElse(Res(c1, subj, s), Res(c2, subj, s)))
    {
      assert Halts(c1, subj, s) && Halts(c2, subj, s);
      SeparateExec(c1, sp, b, c2, f, g, x, d, subj, s);
    }
    forall v1, v2 | Walks(c1, v1) && Walks(c2, v2)
      ensures Walks(d, v1 || v2)
    {
      SeparateWalks(f, g, b, c2, x, v1, v2);
    }
  }

  /** Re-associating a choice preserves its meaning: taking (a / b) apart and rebuilding it with
      c2 gives code for "c1, else c2", and that code can be taken apart again. */
  lemma {:induction false} SeparateGood(c1: Code, c2: Code)
    requires Good(c1) && Good(c2) && RebuildSafe(c1, ToCharset(c2))
    ensures var d := SeparateParts(c1, c2, ToCharset(c2)); d != [] && UnionOf(d, c1, c2) && Good(d)
    decreases |c1|
  {
    hide WF, Walks, UnionOf, FormShape, FormWF, WithExit, FormCode, ToCharset, NewForm;
    var t2, sp := ToCharset(c2), FirstPart(c1);
    var d := SeparateParts(c1, c2, t2);
    if sp == 0 {
      BasicUnionGood(c1, c2);
    } else {
      var b := c1[sp..];
      var x := SeparateParts(b, c2, t2);
      SeparateGood(b, c2);
      var f :| HasForm(c1, f) && |FormCode(f)| == sp;
      SeparateForm(c1, c2, f);
      if f.Option? { TransparentUnion(x, b, c2); }
      SeparateUnion(c1, b, c2, f, NewForm(c1, f, t2), x, d);
      UnionTotal(d, c1, c2);
      UnionWalkTotal(d, c1, c2);
      SeparateSound(c1, c2, f, x);
      GoodWithExit(NewForm(c1, f, t2), x);
    }
  }

  lemma SeparateSound(c1: Code, c2: Code, f: Form, x: Code)
    requires Good(c1) && Good(c2) && FirstPart(c1) > 0 && RebuildSafe(c1, ToCharset(c2))
    requires HasForm(c1, f) && |FormCode(f)| == FirstPart(c1) && Good(c1[FirstPart(c1)..])
    requires UnionOf(x, c1[FirstPart(c1)..], c2) && (f.Option? ==> Transparent(x))
    ensures var g := NewForm(c1, f, ToCharset(c2)); FormShape(g) && FormWF(g) && FormSound(g, x)
  {
    var t2 := ToCharset(c2);
    if f.Testing? {
      if Interfere(c1[..FirstPart(c1)], t2) { RebuiltHeadFail(c1, f, t2); }
      else { ExcludesUnion(c1, f, c2, x); }
    }
  }
}
