/** Outcomes of the repetition combinators: body^n and body^-n. */
module LpegRepetition {
  import opened LpegMachine
  import opened LpegReference
  import opened LpegCombinators
  import opened LpegSimulation
  import opened LpegVerifier
  import opened LpegWellFormed
  import opened LpegSequence

  /** Running c gives what pattern p means, everywhere on every subject. */
  ghost predicate Means(c: Code, p: Pattern) {
    forall subj: Subject, s: int :: 0 <= s <= |subj| ==> Exec(c, subj, s, Eval(p, subj, s))
  }

  /** The body advances whenever it matches. */
  ghost predicate Advances(p: Pattern) {
    forall subj: Subject, s: int :: 0 <= s <= |subj| && Eval(p, subj, s).Match? ==> s < Eval(p, subj, s).end
  }

  // ---------- n copies, then the loop ----------

  lemma {:induction false} TimesExec(c: Code, tail: Code, a: Pattern, n: nat, subj: Subject, s: int)
    requires Means(c, a) && 0 <= s <= |subj|
    requires forall t :: 0 <= t <= |subj| ==> Exec(tail, subj, t, EvalStar(a, subj, t))
    ensures Exec(Times(c, n) + tail, subj, s, EvalTimes(a, n, subj, s))
    decreases n
  {
    if n == 0 {
      assert Times(c, 0) + tail == tail;
      assert Exec(tail, subj, s, EvalStar(a, subj, s));
    } else {
      var r1 := Eval(a, subj, s);
      EvalBounds(a, subj, s);
      assert Times(c, n) + tail == c + (Times(c, n - 1) + tail);
      if r1.Match? {
        TimesExec(c, tail, a, n - 1, subj, r1.end);
        SeqExec(c, Times(c, n - 1) + tail, subj, s, r1, EvalTimes(a, n - 1, subj, r1.end));
      } else {
        SeqExec(c, Times(c, n - 1) + tail, subj, s, r1, NoMatch);
      }
    }
  }

  lemma {:induction false} TimesWalks(c: Code, tail: Code, n: nat, v: bool, vt: bool)
    requires WF(c) && Walks(c, v) && Walks(tail, vt) && !IsFail(tail)
    ensures Walks(Times(c, n) + tail, (n == 0 || v) && vt)
    decreases n
  {
    if n == 0 {
      assert Times(c, 0) + tail == tail;
    } else {
      assert Times(c, n) + tail == c + (Times(c, n - 1) + tail);
      TimesWalks(c, tail, n - 1, v, vt);
      TimesLast(c, n - 1);
      SeqWalks(c, Times(c, n - 1) + tail, v, (n == 1 || v) && vt);
    }
  }

  // ---------- charsets ----------

  lemma {:induction false} SpanIsStar(c: Code, a: Pattern, subj: Subject, s: int)
    requires ToCharset(c).IsCharset? && Means(c, a) && 0 <= s <= |subj|
    ensures s <= SpanEnd(ToCharset(c).cs, subj, s) <= |subj|
    ensures EvalStar(a, subj, s) == Match(SpanEnd(ToCharset(c).cs, subj, s), [])
    decreases |subj| - s
  {
    CharsetExec(c, subj, s, Eval(a, subj, s));
    if s < |subj| && subj[s] in ToCharset(c).cs {
      SpanIsStar(c, a, subj, s + 1);
    }
  }

  lemma SpanExec(c: Code, a: Pattern, subj: Subject, s: int)
    requires ToCharset(c).IsCharset? && Means(c, a) && 0 <= s <= |subj|
    ensures Exec([Span(ToCharset(c).cs)], subj, s, EvalStar(a, subj, s))
  {
    SpanIsStar(c, a, subj, s);
    var d := [Span(ToCharset(c).cs)];
    ReachStep(d, subj, Start(s), Run(1, SpanEnd(ToCharset(c).cs, subj, s), Empty, []));
  }

  lemma SpanShape(cs: set<Byte>)
    ensures WF([Span(cs)]) && Walks([Span(cs)], true)
  {
    WalkRefl([Span(cs)], Visit(1, None));
    WalkCons([Span(cs)], Visit(0, None), Visit(1, None));
  }

  // ---------- head-fail bodies: test, rest, jump back ----------

  function HeadLoop(c: Code): Code
    requires IsHeadFail(c)
  {
    CheckToTest(c, |c| + 1) + [Jmp(-|c|)]
  }

  lemma {:induction false} HeadLoopRun(c: Code, a: Pattern, subj: Subject, s: int, k: seq<Capture>)
    requires IsHeadFail(c) && WF(c) && Means(c, a) && Advances(a) && 0 <= s <= |subj|
    ensures EvalStar(a, subj, s).Match?
    ensures Reaches(HeadLoop(c), subj, Run(0, s, Empty, k),
                    Run(|c| + 1, EvalStar(a, subj, s).end, Empty, k + EvalStar(a, subj, s).caps))
    decreases |subj| - s
  {
    hide WF, Eval, HeadLoop, Passes, Reaches, IsHeadFail;
    var r := Eval(a, subj, s);
    EvalBounds(a, subj, s);
    HeadTurn(c, subj, s, k, r);
    if r.Match? {
      HeadLoopRun(c, a, subj, r.end, k + r.caps);
      var rest := EvalStar(a, subj, r.end);
      assert k + r.caps + rest.caps == k + (r.caps + rest.caps);
      ReachTrans(HeadLoop(c), subj, Run(0, s, Empty, k), Run(0, r.end, Empty, k + r.caps), Run(|c| + 1, rest.end, Empty, k + r.caps + rest.caps));
    } else {
      assert k + [] == k;
    }
  }

  /** One turn of the loop goes back to its head, or leaves the loop. */
  lemma HeadTurn(c: Code, subj: Subject, s: int, k: seq<Capture>, r: Outcome)
    requires IsHeadFail(c) && WF(c) && Exec(c, subj, s, r)
    ensures Reaches(HeadLoop(c), subj, Run(0, s, Empty, k),
                    if r.Match? then Run(0, r.end, Empty, k + r.caps) else Run(|c| + 1, s, Empty, k))
  {
    hide WF, Exec, Reaches;
    var d := HeadLoop(c);
    WFClear(c);
    HeadFailExec(c, subj, s, r);
    if Passes(c[0], subj, s) {
      TailExec(c, subj, s, r);
      assert d[1..1 + |c[1..]|] == c[1..];
      ExecIn(c[1..], d, 1, subj, s + OpStep(c[0]), Empty, k, r);
      ReachCons(d, subj, Run(0, s, Empty, k), Run(|c|, r.end, Empty, k + r.caps));
      ReachStep(d, subj, Run(|c|, r.end, Empty, k + r.caps), Run(0, r.end, Empty, k + r.caps));
      ReachTrans(d, subj, Run(0, s, Empty, k), Run(|c|, r.end, Empty, k + r.caps), Run(0, r.end, Empty, k + r.caps));
    } else {
      ReachStep(d, subj, Run(0, s, Empty, k), Run(|c| + 1, s, Empty, k));
    }
  }

  lemma HeadLoopExec(c: Code, a: Pattern, subj: Subject, s: int)
    requires IsHeadFail(c) && WF(c) && Means(c, a) && Advances(a) && 0 <= s <= |subj|
    ensures Exec(HeadLoop(c), subj, s, EvalStar(a, subj, s))
  {
    HeadLoopRun(c, a, subj, s, []);
    var r := EvalStar(a, subj, s);
    assert [] + r.caps == r.caps;
  }

  lemma HeadLoopInst(c: Code, i: nat)
    requires WF(c) && IsHeadFail(c) && i <= |c|
    ensures InstOk(HeadLoop(c), i)
  {
    var d := HeadLoop(c);
    HeadFailNoJumps(c);
    assert InstOk(c, 0);
    if 1 <= i < |c| {
      assert d[i] == c[i] && InstOk(c, i);
    }
  }

  lemma HeadLoopShape(c: Code)
    requires WF(c) && IsHeadFail(c)
    ensures WF(HeadLoop(c)) && Walks(HeadLoop(c), true)
  {
    var d := HeadLoop(c);
    forall i | 0 <= i < |d|
      ensures InstOk(d, i)
    {
      HeadLoopInst(c, i);
    }
    HasATest(d, 0);
    WalkRefl(d, Visit(|d|, None));
    WalkCons(d, Visit(0, None), Visit(|d|, None));
  }

  // ---------- other bodies: choice, body, partial commit back ----------

  function ChoiceLoop(c: Code): Code { [Choice(|c| + 2, 0)] + c + [PartialCommit(-|c|)] }

  /** In the loop the pending choice always points at where the last complete match ended. */
  lemma {:induction false} ChoiceLoopRun(c: Code, a: Pattern, subj: Subject, s: int, k: seq<Capture>)
    requires Means(c, a) && Advances(a) && 0 <= s <= |subj|
    ensures EvalStar(a, subj, s).Match?
    ensures Reaches(ChoiceLoop(c), subj, Run(1, s, Push(Frame(|c| + 2, s, |k|), Empty), k),
                    Run(|c| + 2, EvalStar(a, subj, s).end, Empty, k + EvalStar(a, subj, s).caps))
    decreases |subj| - s
  {
    var d := ChoiceLoop(c);
    var stk := Push(Frame(|c| + 2, s, |k|), Empty);
    var r := Eval(a, subj, s);
    EvalBounds(a, subj, s);
    assert d[1..1 + |c|] == c;
    ExecIn(c, d, 1, subj, s, stk, k, r);
    if r.Match? {
      ChoiceLoopRun(c, a, subj, r.end, k + r.caps);
      var rest := EvalStar(a, subj, r.end);
      assert k + r.caps + rest.caps == k + (r.caps + rest.caps);
      var end := Run(|c| + 2, rest.end, Empty, k + r.caps + rest.caps);
      ReachCons(d, subj, Run(1 + |c|, r.end, stk, k + r.caps), end);
      ReachTrans(d, subj, Run(1, s, stk, k), Run(1 + |c|, r.end, stk, k + r.caps), end);
    } else {
      assert k[..|k|] == k && k + [] == k;
    }
  }

  lemma ChoiceLoopExec(c: Code, a: Pattern, subj: Subject, s: int)
    requires Means(c, a) && Advances(a) && 0 <= s <= |subj|
    ensures Exec(ChoiceLoop(c), subj, s, EvalStar(a, subj, s))
  {
    var r := EvalStar(a, subj, s);
    ChoiceLoopRun(c, a, subj, s, []);
    assert [] + r.caps == r.caps;
    ReachCons(ChoiceLoop(c), subj, Start(s), Final(ChoiceLoop(c), r));
  }

  lemma ChoiceLoopInst(c: Code, i: nat)
    requires WF(c) && i < |c| + 2
    ensures InstOk(ChoiceLoop(c), i)
  {
    var d := ChoiceLoop(c);
    if 1 <= i < 1 + |c| {
      assert d[1..1 + |c|] == c;
      assert Sits(d, 1, c, 0);
      SitsInst(d, 1, c, 0, i - 1);
    }
    if c != [] { assert d[1] == c[0]; }
  }

  lemma ChoiceLoopShape(c: Code)
    requires WF(c) && Walks(c, false)
    ensures WF(ChoiceLoop(c)) && Walks(ChoiceLoop(c), true)
  {
    var d := ChoiceLoop(c);
    forall i | 0 <= i < |d|
      ensures InstOk(d, i)
    {
      ChoiceLoopInst(c, i);
    }
    JoinJumps([Choice(|c| + 2, 0)], c);
    JoinJumps([Choice(|c| + 2, 0)] + c, [PartialCommit(-|c|)]);
    assert d[1..1 + |c|] == c;
    WalkIn(c, d, 1, More(|c| + 2, None), false);
    WalkCons(d, Visit(0, None), Visit(|d|, None));
  }

  // ---------- body^n ----------

  /** Before the two whole-code passes. */
  function RawAtLeast(c: Code, n: nat): Code {
    if ToCharset(c).IsCharset? then RepeatCharset(c, ToCharset(c).cs, n)
    else if IsHeadFail(c) then RepeatHeadFail(c, n)
    else Repeats(c, n)
  }

  function Loop(c: Code): Code {
    if ToCharset(c).IsCharset? then [Span(ToCharset(c).cs)]
    else if IsHeadFail(c) then HeadLoop(c) else ChoiceLoop(c)
  }

  lemma RawIsTimes(c: Code, n: nat)
    ensures RawAtLeast(c, n) == Times(c, n) + Loop(c)
  {
    if !ToCharset(c).IsCharset? {
      if IsHeadFail(c) {
        assert Times(c, n) + CheckToTest(c, |c| + 1) + [Jmp(-|c|)] == Times(c, n) + HeadLoop(c);
      } else {
        assert Times(c, n) + [Choice(|c| + 2, 0)] + c + [PartialCommit(-|c|)] == Times(c, n) + ChoiceLoop(c);
      }
    }
  }

  lemma RawAtLeastExec(c: Code, a: Pattern, n: nat, subj: Subject, s: int)
    requires WF(c) && Means(c, a) && Advances(a) && 0 <= s <= |subj|
    ensures Exec(RawAtLeast(c, n), subj, s, EvalTimes(a, n, subj, s))
  {
    RawIsTimes(c, n);
    forall t | 0 <= t <= |subj|
      ensures Exec(Loop(c), subj, t, EvalStar(a, subj, t))
    {
      if ToCharset(c).IsCharset? { SpanExec(c, a, subj, t); }
      else if IsHeadFail(c) { HeadLoopExec(c, a, subj, t); }
      else { ChoiceLoopExec(c, a, subj, t); }
    }
    TimesExec(c, Loop(c), a, n, subj, s);
  }

  lemma LoopShape(c: Code)
    requires WF(c) && Walks(c, false)
    ensures WF(Loop(c)) && Walks(Loop(c), true)
  {
    if ToCharset(c).IsCharset? { SpanShape(ToCharset(c).cs); }
    else if IsHeadFail(c) { HeadLoopShape(c); }
    else { ChoiceLoopShape(c); }
  }

  lemma RawAtLeastShape(c: Code, n: nat)
    requires WF(c) && Walks(c, false)
    ensures WF(RawAtLeast(c, n)) && Walks(RawAtLeast(c, n), n == 0)
  {
    RawIsTimes(c, n);
    LoopShape(c);
    TimesWF(c, n);
    SeqWF(Times(c, n), Loop(c));
    TimesWalks(c, Loop(c), n, false, true);
  }

  lemma LoopNoExit(c: Code)
    requires WF(c)
    ensures NoExit(Loop(c))
  {
    var d := Loop(c);
    if IsHeadFail(c) { HeadFailNoJumps(c); }
    forall i | 0 <= i < |d| && (d[i].Jmp? || d[i].Commit?)
      ensures Dest(d, i) != |d|
    {
      if !ToCharset(c).IsCharset? && !IsHeadFail(c) {
        assert d[i] == c[i - 1] && InstOk(c, i - 1);
      }
    }
  }

  /** A repetition is never taken for an ordered choice. */
  lemma RawAtLeastNoExit(c: Code, n: nat)
    requires WF(c)
    ensures NoExit(RawAtLeast(c, n))
  {
    RawIsTimes(c, n);
    TimesWF(c, n);
    LoopNoExit(c);
    SeqNoExit(Times(c, n), Loop(c));
  }

  // ---------- body^-n ----------

  lemma OptionalStep(c: Code, rest: Code, subj: Subject, s: int, r: Outcome, r2: Outcome)
    requires WF(c) && IsHeadFail(c) && Exec(c, subj, s, r)
    requires r.Match? ==> Exec(rest, subj, r.end, r2)
    ensures Exec(CheckToTest(c, |c| + |rest|) + rest, subj, s, if r.Match? then Then(r, r2) else Match(s, []))
  {
    var d := CheckToTest(c, |c| + |rest|) + rest;
    WFClear(c);
    HeadFailExec(c, subj, s, r);
    if r.Match? {
      TailExec(c, subj, s, r);
      var s1 := s + OpStep(c[0]);
      SeqExec(c[1..], rest, subj, s1, r, r2);
      assert d[1..1 + |c[1..] + rest|] == c[1..] + rest;
      var k := Then(r, r2);
      ExecIn(c[1..] + rest, d, 1, subj, s1, Empty, [], k);
      if k.Match? { assert [] + k.caps == k.caps; }
      ReachCons(d, subj, Start(s), Final(d, k));
    } else {
      ReachStep(d, subj, Start(s), Run(|d|, s, Empty, []));
    }
  }

  lemma {:induction false} OptionalHeadFailSize(c: Code, n: nat)
    requires IsHeadFail(c)
    ensures |OptionalHeadFail(c, n)| == n * |c|
    ensures n > 0 ==> OptionalHeadFail(c, n) == CheckToTest(c, |c| + |OptionalHeadFail(c, n - 1)|) + OptionalHeadFail(c, n - 1)
    decreases n
  {
    if n > 0 {
      OptionalHeadFailSize(c, n - 1);
      assert n * |c| == |c| + (n - 1) * |c|;
    }
  }

  lemma {:induction false} OptionalHeadFailExec(c: Code, a: Pattern, n: nat, subj: Subject, s: int)
    requires WF(c) && IsHeadFail(c) && Means(c, a) && 0 <= s <= |subj|
    ensures Exec(OptionalHeadFail(c, n), subj, s, EvalUpTo(a, n, subj, s))
    decreases n
  {
    if n == 0 {
      EmptyExec(subj, s);
    } else {
      var r := Eval(a, subj, s);
      EvalBounds(a, subj, s);
      OptionalHeadFailSize(c, n);
      var r2 := NoMatch;
      if r.Match? {
        OptionalHeadFailExec(c, a, n - 1, subj, r.end);
        r2 := EvalUpTo(a, n - 1, subj, r.end);
      }
      OptionalStep(c, OptionalHeadFail(c, n - 1), subj, s, r, r2);
    }
  }

  lemma OptionalHeadFailInst(c: Code, n: nat, i: nat)
    requires WF(c) && IsHeadFail(c) && n > 0 && WF(OptionalHeadFail(c, n - 1))
    requires |OptionalHeadFail(c, n)| == n * |c| && i < |OptionalHeadFail(c, n)|
    ensures InstOk(OptionalHeadFail(c, n), i)
  {
    var d, rest := OptionalHeadFail(c, n), OptionalHeadFail(c, n - 1);
    HeadFailNoJumps(c);
    assert InstOk(c, 0);
    if 1 <= i < |c| {
      assert d[i] == c[i] && InstOk(c, i);
    } else if i >= |c| {
      assert d[|c|..|c| + |rest|] == rest;
      assert Sits(d, |c|, rest, 0);
      SitsInst(d, |c|, rest, 0, i - |c|);
    }
  }

  lemma {:induction false} OptionalHeadFailShape(c: Code, n: nat)
    requires WF(c) && IsHeadFail(c)
    ensures var d := OptionalHeadFail(c, n); |d| == n * |c| && WF(d) && NoExit(d) && Walks(d, true)
    decreases n
  {
    var d := OptionalHeadFail(c, n);
    if n == 0 {
      EmptyExec([], 0);
    } else {
      OptionalHeadFailShape(c, n - 1);
      assert n * |c| == |c| + (n - 1) * |c|;
      forall i | 0 <= i < |d|
        ensures InstOk(d, i)
      {
        OptionalHeadFailInst(c, n, i);
      }
      HasATest(d, 0);
      HeadFailNoJumps(c);
      OptionalHeadFailEnds(c, n);
      WalkRefl(d, Visit(|d|, None));
      WalkCons(d, Visit(0, None), Visit(|d|, None));
    }
  }

  lemma {:induction false} OptionalHeadFailEnds(c: Code, n: nat)
    requires WF(c) && IsHeadFail(c)
    ensures forall i :: 0 <= i < |OptionalHeadFail(c, n)| ==> !IsJmp(OptionalHeadFail(c, n)[i])
    decreases n
  {
    if n > 0 {
      OptionalHeadFailEnds(c, n - 1);
      HeadFailNoJumps(c);
    }
  }

  /** The first body of an option inside code d that ends with it, and the commit after it. */
  lemma OptionalBodyAt(c: Code, d: Code, off: nat, n: nat)
    requires n > 0 && off <= |d| && d[off..] == OptionalBody(c, n)
    ensures At(d, off, c) && off + |c| < |d|
    ensures d[off + |c|] == if n == 1 then Commit(1) else PartialCommit(1)
    ensures if n == 1 then off + |c| + 1 == |d| else d[off + |c| + 1..] == OptionalBody(c, n - 1)
  {
    assert d[off..][..|c|] == c;
    assert d[off..off + |c|] == c;
    assert d[off + |c|] == d[off..][|c|];
    if n > 1 { assert d[off + |c| + 1..] == d[off..][|c| + 1..]; }
  }

  /** The body of an option inside code d that ends with it: the pending choice always points at
      where the last complete match ended, and nothing fails. */
  lemma {:induction false} OptionalBodyRun(c: Code, d: Code, off: nat, a: Pattern, n: nat, subj: Subject, s: int, k: seq<Capture>)
    requires Means(c, a) && 0 <= s <= |subj| && n > 0
    requires off <= |d| && d[off..] == OptionalBody(c, n)
    ensures EvalUpTo(a, n, subj, s).Match?
    ensures Reaches(d, subj, Run(off, s, Push(Frame(|d|, s, |k|), Empty), k),
                    Run(|d|, EvalUpTo(a, n, subj, s).end, Empty, k + EvalUpTo(a, n, subj, s).caps))
    decreases n
  {
    hide Reaches;
    var stk := Push(Frame(|d|, s, |k|), Empty);
    var r := Eval(a, subj, s);
    EvalBounds(a, subj, s);
    OptionalBodyAt(c, d, off, n);
    ExecIn(c, d, off, subj, s, stk, k, r);
    if r.NoMatch? {
      assert k[..|k|] == k && k + [] == k;
    } else {
      var here := Run(off + |c|, r.end, stk, k + r.caps);
      var rest := EvalUpTo(a, n - 1, subj, r.end);
      if n > 1 { OptionalBodyRun(c, d, off + |c| + 1, a, n - 1, subj, r.end, k + r.caps); }
      assert k + r.caps + rest.caps == k + (r.caps + rest.caps);
      var b := Run(|d|, rest.end, Empty, k + r.caps + rest.caps);
      if n == 1 {
        assert k + r.caps + [] == k + r.caps;
        ReachStep(d, subj, here, b);
      } else {
        ReachCons(d, subj, here, b);
      }
      ReachTrans(d, subj, Run(off, s, stk, k), here, b);
    }
  }

  /** An option before its first check is turned into a test. */
  function RawOptionals(c: Code, n: nat): Code
    requires n > 0
  {
    [Choice(1 + n * (|c| + 1), 0)] + OptionalBody(c, n)
  }

  lemma {:induction false} OptionalBodySize(c: Code, n: nat)
    requires n > 0
    ensures |OptionalBody(c, n)| == n * (|c| + 1)
    ensures OptionalBody(c, n)[|OptionalBody(c, n)| - 1] == Commit(1)
    ensures OptionalBody(c, n)[..|c|] == c
    decreases n
  {
    if n > 1 {
      OptionalBodySize(c, n - 1);
      assert n * (|c| + 1) == (|c| + 1) + (n - 1) * (|c| + 1);
    }
  }

  lemma RawOptionalsExec(c: Code, a: Pattern, n: nat, subj: Subject, s: int)
    requires Means(c, a) && 0 <= s <= |subj| && n > 0
    ensures Exec(RawOptionals(c, n), subj, s, EvalUpTo(a, n, subj, s))
    ensures EvalUpTo(a, n, subj, s).Match?
  {
    var d := RawOptionals(c, n);
    OptionalBodySize(c, n);
    assert d[1..] == OptionalBody(c, n);
    OptionalBodyRun(c, d, 1, a, n, subj, s, []);
    var r := EvalUpTo(a, n, subj, s);
    assert [] + r.caps == r.caps;
    ReachCons(d, subj, Start(s), Final(d, r));
  }

  /** Where the first copy of the body is, what is behind it, and where the others are. */
  lemma BodyPlace(c: Code, d: Code, off: nat, n: nat)
    requires n > 0 && off <= |d| && d[off..] == OptionalBody(c, n)
    ensures var end := off + |c|;
      && end < |d| && At(d, off, c) && Sits(d, off, c, 0) && d[end] == (if n == 1 then Commit(1) else PartialCommit(1))
      && (n == 1 ==> end + 1 == |d|)
      && (n > 1 ==> d[end + 1..] == OptionalBody(c, n - 1) && (c != [] ==> end + 1 < |d| && d[end + 1] == c[0]) && (c == [] ==> end + 1 < |d| && d[end + 1] == d[end + 1..][0] && !d[end + 1].Jmp?))
  {
    OptionalBodySize(c, n);
    BodyParts(c, n);
    var b, end := d[off..], off + |c|;
    assert b[..|c|] == d[off..end];
    assert d[end] == b[|c|];
    assert d[end + 1..] == b[|c| + 1..];
    if n > 1 {
      assert d[end + 1] == b[|c| + 1];
    }
  }

  lemma BodyParts(c: Code, n: nat)
    requires n > 0
    ensures var b := OptionalBody(c, n);
      && |b| > |c| && b[..|c|] == c && b[|c|] == (if n == 1 then Commit(1) else PartialCommit(1))
      && (n == 1 ==> |b| == |c| + 1)
      && (n > 1 ==> b[|c| + 1..] == OptionalBody(c, n - 1) && |b| > |c| + 1 && b[|c| + 1] == (if c != [] then c[0] else if n == 2 then Commit(1) else PartialCommit(1)))
  {
    if n > 1 {
      OptionalBodySize(c, n - 1);
      if c != [] { assert OptionalBody(c, n - 1)[..|c|][0] == c[0]; }
    }
  }

  /** Well-formedness of the body in place, at the end of a larger code. */
  lemma {:induction false} OptionalBodyInst(c: Code, d: Code, off: nat, n: nat, i: nat)
    requires WF(c) && n > 0 && off <= |d| && d[off..] == OptionalBody(c, n) && off <= i < |d|
    ensures InstOk(d, i)
    ensures HasTarget(d[i]) ==> Dest(d, i) >= off + if StartsWithCheck(c) && i > off then 1 else 0
    decreases n
  {
    hide WF, InstOk, OptionalBody;
    var end := off + |c|;
    BodyPlace(c, d, off, n);
    NoFirstJump(c);
    if i < end {
      SitsInst(d, off, c, 0, i - off);
    } else if i > end {
      OptionalBodyInst(c, d, end + 1, n - 1, i);
    } else {
      BodyEndOk(d, end);
    }
  }

  lemma NoFirstJump(c: Code)
    requires WF(c)
    ensures c != [] ==> !c[0].Jmp?
  {
  }

  /** A step out of a body is well formed if no jump stands behind it. */
  lemma BodyEndOk(d: Code, i: nat)
    requires i < |d| && (d[i] == Commit(1) || d[i] == PartialCommit(1)) && (i + 1 < |d| ==> !d[i + 1].Jmp?)
    ensures InstOk(d, i)
  {
  }

  lemma {:induction false} OptionalBodyJumps(c: Code, n: nat)
    requires WF(c) && n > 0
    ensures JumpsHaveTests(OptionalBody(c, n))
    decreases n
  {
    if n == 1 {
      JoinJumps(c, [Commit(1)]);
    } else {
      OptionalBodyJumps(c, n - 1);
      JoinJumps(c, [PartialCommit(1)]);
      JoinJumps(c + [PartialCommit(1)], OptionalBody(c, n - 1));
    }
  }

  lemma RawOptionalsWF(c: Code, n: nat)
    requires WF(c) && n > 0
    ensures var d := RawOptionals(c, n); WF(d) && (StartsWithCheck(c) ==> ClearFrom(d, 2))
  {
    var d := RawOptionals(c, n);
    OptionalBodySize(c, n);
    assert d[1..] == OptionalBody(c, n);
    forall i | 0 <= i < |d|
      ensures InstOk(d, i)
      ensures StartsWithCheck(c) && i >= 2 && HasTarget(d[i]) ==> Dest(d, i) >= 2
    {
      if i > 0 { OptionalBodyInst(c, d, 1, n, i); }
    }
    OptionalBodyJumps(c, n);
    JoinJumps([Choice(1 + n * (|c| + 1), 0)], OptionalBody(c, n));
    assert d[|d| - 1] == OptionalBody(c, n)[|d| - 2];
  }

  lemma {:induction false} OptionalBodyWalk(c: Code, d: Code, off: nat, n: nat, v: bool)
    requires WF(c) && Walks(c, v) && n > 0 && 0 < off <= |d| && d[off..] == OptionalBody(c, n)
    requires !d[off - 1].BackCommit? && !HasCharset(d[off - 1])
    ensures WalkReaches(d, Visit(off, More(|d|, None)), Visit(|d|, None))
    decreases n
  {
    hide WF, Walks, OptionalBody, WalkReaches;
    var end, p := off + |c|, More(|d|, None);
    BodyPlace(c, d, off, n);
    WalkIn(c, d, off, p, v);
    if v {
      if n == 1 { WalkRefl(d, Visit(|d|, None)); } else { OptionalBodyWalk(c, d, end + 1, n - 1, v); }
      WalkCons(d, Visit(end, p), Visit(|d|, None));
      WalkTrans(d, Visit(off, p), Visit(end, p), Visit(|d|, None));
    }
  }

  lemma RawOptionalsWalks(c: Code, n: nat, v: bool)
    requires WF(c) && Walks(c, v) && n > 0
    ensures Walks(RawOptionals(c, n), true)
  {
    var d := RawOptionals(c, n);
    OptionalBodySize(c, n);
    assert d[1..] == OptionalBody(c, n);
    OptionalBodyWalk(c, d, 1, n, v);
    WalkCons(d, Visit(0, None), Visit(|d|, None));
  }

  /** Options that are not head-fail: the code never fails and always counts as matching the
      empty string, with or without the test in front; it ends with a commit to its end. */
  lemma OptionalsCorrect(c: Code, a: Pattern, n: nat, v: bool)
    requires WF(c) && Walks(c, v) && Means(c, a) && n > 0
    ensures var d := Optionals(c, n);
      && WF(d) && Walks(d, true) && |d| > 1 && d[|d| - 1] == Commit(1) && (d[0].Choice? || IsTest(d[0])) && d[0].offset == |d|
      && forall subj: Subject, s: int :: 0 <= s <= |subj| ==>
           Exec(d, subj, s, EvalUpTo(a, n, subj, s)) && EvalUpTo(a, n, subj, s).Match?
  {
    var raw, d := RawOptionals(c, n), Optionals(c, n);
    OptionalBodySize(c, n);
    RawOptionalsWF(c, n);
    RawOptionalsWalks(c, n, v);
    assert raw[|raw| - 1] == OptionalBody(c, n)[|raw| - 2] == Commit(1);
    if c != [] { assert raw[1] == OptionalBody(c, n)[..|c|][0] == c[0]; }
    else { assert raw[1] == OptionalBody(c, n)[0]; }
    if IsCheck(raw[1]) {
      OptimizeChoiceWF(raw);
      OptimizeChoiceWalks(raw, true);
      assert |raw| > 2;
    }
    forall subj: Subject, s: int | 0 <= s <= |subj|
      ensures Exec(d, subj, s, EvalUpTo(a, n, subj, s)) && EvalUpTo(a, n, subj, s).Match?
    {
      RawOptionalsExec(c, a, n, subj, s);
      if IsCheck(raw[1]) { OptimizeChoiceExec(raw, subj, s, EvalUpTo(a, n, subj, s)); }
    }
  }
}
