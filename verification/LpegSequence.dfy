/** Outcomes of the straight-line combinators: literals, concatenation, difference, predicates,
    captures and options.  Each lemma runs the emitted code on the outcomes of its parts. */
module LpegSequence {
  import opened LpegMachine
  import opened LpegReference
  import opened LpegCombinators
  import opened LpegSimulation
  import opened LpegVerifier
  import opened LpegWellFormed

  // ---------- one instruction, then two fragments ----------

  lemma CheckExec(i: Inst, subj: Subject, s: int)
    requires IsCheck(i)
    ensures Exec([i], subj, s, if Passes(i, subj, s) then Match(s + OpStep(i), []) else NoMatch)
  {
    ReachStep([i], subj, Start(s), Step([i], subj, Start(s)));
  }

  lemma CheckWalks(c: Code)
    requires StartsWithCheck(c)
    ensures Walks(c, false)
  {
    WalkRefl(c, Exhausted);
    WalkCons(c, Visit(0, None), Exhausted);
  }

  lemma CheckWF(i: Inst)
    requires IsCheck(i) && (i.Any? ==> 1 <= i.n <= UCHAR_MAX)
    ensures WF([i]) && FirstPart([i]) == 0
  {
  }

  lemma EmptyExec(subj: Subject, s: int)
    ensures Exec([], subj, s, Match(s, [])) && Walks([], true) && WF([])
  {
    ReachRefl([], subj, Start(s));
    WalkRefl([], Visit(0, None));
  }

  lemma FailExec(c: Code, subj: Subject, s: int)
    requires IsFail(c)
    ensures Exec(c, subj, s, NoMatch) && Walks(c, false)
  {
    ReachStep(c, subj, Start(s), Failed);
    WalkRefl(c, Exhausted);
    WalkCons(c, Visit(0, None), Exhausted);
  }

  function Then(r1: Outcome, r2: Outcome): Outcome {
    match r1
    case NoMatch => NoMatch
    case Match(_, k) => Prepend(k, r2)
  }

  lemma SeqExec(c1: Code, c2: Code, subj: Subject, s: int, r1: Outcome, r2: Outcome)
    requires Exec(c1, subj, s, r1)
    requires r1.Match? ==> Exec(c2, subj, r1.end, r2)
    ensures Exec(c1 + c2, subj, s, Then(r1, r2))
  {
    var c := c1 + c2;
    assert c[0..0 + |c1|] == c1 && c[|c1|..|c1| + |c2|] == c2;
    ExecIn(c1, c, 0, subj, s, Empty, [], r1);
    if r1.Match? {
      assert [] + r1.caps == r1.caps;
      ExecIn(c2, c, |c1|, subj, r1.end, Empty, r1.caps, r2);
      ReachTrans(c, subj, Start(s), Run(|c1|, r1.end, Empty, r1.caps), Final(c, Then(r1, r2)));
    }
  }

  lemma SeqWalks(c1: Code, c2: Code, v1: bool, v2: bool)
    requires Walks(c1, v1) && (v1 ==> Walks(c2, v2))
    requires c1 != [] ==> QuietBefore(c1[|c1| - 1], c2)
    ensures Walks(c1 + c2, v1 && v2)
  {
    var c := c1 + c2;
    assert c[0..0 + |c1|] == c1 && c[|c1|..|c1| + |c2|] == c2;
    WalkIn(c1, c, 0, None, v1);
    if v1 {
      WalkIn(c2, c, |c1|, None, v2);
      WalkTrans(c, Visit(0, None), Visit(|c1|, None), WalkEnd(c, v2));
    }
  }

  // ---------- literals and numbers ----------

  lemma {:induction false} LiteralExec(text: seq<Byte>, subj: Subject, s: int)
    ensures Exec(LiteralCode(text), subj, s, Literally(text, subj, s))
    decreases |text|
  {
    if text == [] {
      EmptyExec(subj, s);
    } else {
      CheckExec(Char(text[0], 0), subj, s);
      LiteralExec(text[1..], subj, s + 1);
      var r1 := if Passes(Char(text[0], 0), subj, s) then Match(s + 1, []) else NoMatch;
      var r2 := Literally(text[1..], subj, s + 1);
      SeqExec([Char(text[0], 0)], LiteralCode(text[1..]), subj, s, r1, r2);
      if r2.Match? { assert [] + r2.caps == r2.caps; }
    }
  }

  lemma {:induction false} LiteralShape(text: seq<Byte>)
    ensures WF(LiteralCode(text)) && FirstPart(LiteralCode(text)) == 0
    ensures Walks(LiteralCode(text), text == [])
    decreases |text|
  {
    if text == [] {
      WalkRefl([], Visit(0, None));
    } else {
      LiteralShape(text[1..]);
      CheckWF(Char(text[0], 0));
      SeqWF([Char(text[0], 0)], LiteralCode(text[1..]));
      CheckWalks(LiteralCode(text));
    }
  }

  function AnyOutcome(n: nat, subj: Subject, s: int): Outcome {
    if n <= |subj| - s then Match(s + n, []) else NoMatch
  }

  lemma {:induction false} AnyExec(n: nat, subj: Subject, s: int)
    ensures Exec(AnyCode(n), subj, s, AnyOutcome(n, subj, s))
    decreases n
  {
    if n > UCHAR_MAX {
      CheckExec(Any(UCHAR_MAX, 0), subj, s);
      AnyExec(n - UCHAR_MAX, subj, s + UCHAR_MAX);
      SeqExec([Any(UCHAR_MAX, 0)], AnyCode(n - UCHAR_MAX), subj, s,
              AnyOutcome(UCHAR_MAX, subj, s), AnyOutcome(n - UCHAR_MAX, subj, s + UCHAR_MAX));
    } else {
      CheckExec(Any(n, 0), subj, s);
    }
  }

  lemma {:induction false} AnyShape(n: nat)
    requires n > 0
    ensures WF(AnyCode(n)) && FirstPart(AnyCode(n)) == 0 && StartsWithCheck(AnyCode(n)) && Walks(AnyCode(n), false)
    decreases n
  {
    if n > UCHAR_MAX {
      AnyShape(n - UCHAR_MAX);
      CheckWF(Any(UCHAR_MAX, 0));
      SeqWF([Any(UCHAR_MAX, 0)], AnyCode(n - UCHAR_MAX));
    }
    CheckWalks(AnyCode(n));
  }

  lemma NotAnyExec(n: nat, subj: Subject, s: int)
    requires n > 0 && 0 <= s
    ensures Exec(NotAnyCode(n), subj, s, if n <= |subj| - s then NoMatch else Match(s, []))
    ensures Walks(NotAnyCode(n), true)
  {
    var c := NotAnyCode(n);
    WalkRefl(c, Visit(|c|, None));
    WalkCons(c, Visit(0, None), Visit(|c|, None));
    if n <= UCHAR_MAX {
      if n <= |subj| - s {
        ReachStep(c, subj, Run(1, s + n, Empty, []), Failed);
        ReachCons(c, subj, Start(s), Failed);
      } else {
        ReachStep(c, subj, Start(s), Run(2, s, Empty, []));
      }
    } else {
      var k := AnyCode(n - UCHAR_MAX);
      assert c[2..2 + |k|] == k;
      if UCHAR_MAX <= |subj| - s {
        var stk := Push(Frame(|c|, s, 0), Empty);
        AnyExec(n - UCHAR_MAX, subj, s + UCHAR_MAX);
        ExecIn(k, c, 2, subj, s + UCHAR_MAX, stk, [], AnyOutcome(n - UCHAR_MAX, subj, s + UCHAR_MAX));
        var b := if n <= |subj| - s then Failed else Run(|c|, s, Empty, []);
        if n <= |subj| - s {
          ReachStep(c, subj, Run(2 + |k|, s + n, stk, []), Failed);
          ReachTrans(c, subj, Run(2, s + UCHAR_MAX, stk, []), Run(2 + |k|, s + n, stk, []), Failed);
        }
        ReachCons(c, subj, Run(1, s + UCHAR_MAX, Empty, []), b);
        ReachCons(c, subj, Start(s), b);
      } else {
        ReachStep(c, subj, Start(s), Run(|c|, s, Empty, []));
      }
    }
  }

  lemma NotAnyShape(n: nat)
    requires n > 0
    ensures WF(NotAnyCode(n)) && FirstPart(NotAnyCode(n)) == 0
  {
    hide JumpsHaveTests, InstOk, AnyCode;
    var c := NotAnyCode(n);
    forall i | 0 <= i < |c| ensures InstOk(c, i) { NotAnyInst(n, i); }
    HasATest(c, 0);
  }

  lemma NotAnyInst(n: nat, i: nat)
    requires n > 0 && i < |NotAnyCode(n)|
    ensures InstOk(NotAnyCode(n), i)
  {
    hide WF, AnyCode;
    var c := NotAnyCode(n);
    if n > UCHAR_MAX {
      var k := AnyCode(n - UCHAR_MAX);
      AnyShape(n - UCHAR_MAX);
      assert c[2..2 + |k|] == k;
      if 2 <= i < 2 + |k| { SitsInst(c, 2, k, 0, i - 2); }
    }
  }

  // ---------- a choice turned into a test ----------

  lemma OptimizeChoiceExec(c: Code, subj: Subject, s: int, r: Outcome)
    requires |c| > 1 && c[0].Choice? && c[0].aux == 0 && c[0].offset >= 2 && ClearFrom(c, 2)
    requires Exec(c, subj, s, r)
    ensures Exec(OptimizeChoice(c), subj, s, r)
  {
    var d := OptimizeChoice(c);
    if IsCheck(c[1]) {
      var n: nat :| RunN(c, subj, Start(s), n) == Final(c, r);
      var o := c[0].offset;
      var stk := Push(Frame(o, s, 0), Empty);
      assert c[2..] == d[2..];
      if Passes(c[1], subj, s) {
        var a := Run(2, s + OpStep(c[1]), stk, []);
        ReachStep(c, subj, Run(1, s, stk, []), a);
        ReachCons(c, subj, Start(s), a);
        FromReach(c, subj, Start(s), a, Final(c, r));
        AgreeReach(c, d, 2, subj, a, Final(c, r));
        ReachCons(d, subj, Run(1, s + OpStep(c[1]), Empty, []), Final(c, r));
        ReachCons(d, subj, Start(s), Final(c, r));
      } else {
        var a := Run(o, s, Empty, []);
        ReachStep(c, subj, Run(1, s, stk, []), a);
        ReachCons(c, subj, Start(s), a);
        FromReach(c, subj, Start(s), a, Final(c, r));
        AgreeReach(c, d, 2, subj, a, Final(c, r));
        ReachCons(d, subj, Start(s), Final(c, r));
      }
    }
  }

  /** The end of a run is still ahead of any state the run passes through. */
  lemma FromReach(c: Code, subj: Subject, a: State, b: State, e: State)
    requires Reaches(c, subj, a, b) && Reaches(c, subj, a, e) && Halted(c, e)
    ensures Reaches(c, subj, b, e)
  {
    var k: nat :| RunN(c, subj, a, k) == b;
    var m: nat :| RunN(c, subj, a, m) == e;
    var m1 := FromHere(c, subj, a, k, b, m, e);
  }

  lemma OptimizeChoiceWalks(c: Code, v: bool)
    requires |c| > 1 && c[0].Choice? && c[0].offset >= 2 && ClearFrom(c, 2)
    requires Walks(c, v)
    ensures Walks(OptimizeChoice(c), v)
  {
    var d := OptimizeChoice(c);
    if IsCheck(c[1]) {
      var m: nat :| WalkN(c, Visit(0, None), m) == WalkEnd(c, v);
      var o := c[0].offset;
      var a := Visit(o, None);
      assert WalkN(c, Visit(1, More(o, None)), 1) == WalkN(c, a, 0) == a;
      assert WalkN(c, Visit(0, None), 2) == a;
      var m1 := WalkFromHere(c, Visit(0, None), 2, a, m, WalkEnd(c, v));
      assert c[2..] == d[2..];
      WalkAgree(c, d, 2, a, m1);
      WalkCons(d, Visit(0, None), WalkEnd(c, v));
    }
  }

  lemma OptimizeChoiceInst(c: Code, i: nat)
    requires |c| > 1 && c[0].Choice? && c[0].offset >= 2 && ClearFrom(c, 2) && IsCheck(c[1])
    requires i < |c| && InstOk(c, 0) && InstOk(c, 1) && InstOk(c, i)
    ensures InstOk(OptimizeChoice(c), i)
  {
    var d := OptimizeChoice(c);
    if i >= 2 {
      assert d[i] == c[i];
      if HasTarget(c[i]) {
        var t := Dest(c, i);
        assert t >= 2;
        if t < |c| { assert d[t] == c[t]; }
        if 2 < t <= |c| { assert d[t - 1] == c[t - 1]; }
      }
    } else {
      var o := c[0].offset;
      assert 2 <= o <= |c|;
      if o < |c| { assert d[o] == c[o]; }
    }
  }

  lemma OptimizeChoiceWF(c: Code)
    requires |c| > 1 && c[0].Choice? && c[0].offset >= 2 && ClearFrom(c, 2)
    requires WF(c)
    ensures WF(OptimizeChoice(c))
  {
    var d := OptimizeChoice(c);
    if IsCheck(c[1]) {
      forall i | 0 <= i < |d|
        ensures InstOk(d, i)
      {
        OptimizeChoiceInst(c, i);
      }
      HasATest(d, 0);
      if |c| > 2 { assert d[|d| - 1] == c[|c| - 1]; }
    }
  }

  // ---------- difference and negation ----------

  function Except(r1: Outcome, r2: Outcome): Outcome { if r2.NoMatch? then r1 else NoMatch }

  lemma CharsetExec(c: Code, subj: Subject, s: int, r: Outcome)
    requires ToCharset(c).IsCharset? && Exec(c, subj, s, r) && 0 <= s
    ensures r == if s < |subj| && subj[s] in ToCharset(c).cs then Match(s + 1, []) else NoMatch
  {
    CheckExec(c[0], subj, s);
    assert c == [c[0]];
    ExecUnique(c, subj, s, r, if Passes(c[0], subj, s) then Match(s + OpStep(c[0]), []) else NoMatch);
    if s < |subj| { assert subj[s] in AllBytes; }
  }

  lemma DiffHeadFailExec(c1: Code, c2: Code, subj: Subject, s: int, r1: Outcome, r2: Outcome)
    requires WF(c2) && IsHeadFail(c2)
    requires Exec(c1, subj, s, r1) && Exec(c2, subj, s, r2)
    ensures Exec(CheckToTest(c2, |c2| + 1) + [Fail] + c1, subj, s, Except(r1, r2))
  {
    var d := CheckToTest(c2, |c2| + 1) + [Fail] + c1;
    WFClear(c2);
    HeadFailExec(c2, subj, s, r2);
    if Passes(c2[0], subj, s) {
      TailExec(c2, subj, s, r2);
      assert d[1..1 + |c2[1..]|] == c2[1..];
      var s1 := s + OpStep(c2[0]);
      ExecIn(c2[1..], d, 1, subj, s1, Empty, [], r2);
      var b := Run(|c2|, r2.end, Empty, [] + r2.caps);
      ReachStep(d, subj, b, Failed);
      ReachTrans(d, subj, Run(1, s1, Empty, []), b, Failed);
      ReachCons(d, subj, Start(s), Failed);
    } else {
      assert d[|c2| + 1..|c2| + 1 + |c1|] == c1;
      ExecIn(c1, d, |c2| + 1, subj, s, Empty, [], r1);
      if r1.Match? { assert [] + r1.caps == r1.caps; }
      ReachCons(d, subj, Start(s), Final(d, r1));
    }
  }

  lemma DiffPlainExec(c1: Code, c2: Code, subj: Subject, s: int, r1: Outcome, r2: Outcome)
    requires Exec(c1, subj, s, r1) && Exec(c2, subj, s, r2)
    ensures Exec([Choice(|c2| + 2, 0)] + c2 + [FailTwice] + c1, subj, s, Except(r1, r2))
  {
    var d := [Choice(|c2| + 2, 0)] + c2 + [FailTwice] + c1;
    var stk := Push(Frame(|c2| + 2, s, 0), Empty);
    assert d[1..1 + |c2|] == c2 && d[|c2| + 2..|c2| + 2 + |c1|] == c1;
    var end := Final(d, Except(r1, r2));
    ExecIn(c2, d, 1, subj, s, stk, [], r2);
    if r2.Match? {
      var b := Run(1 + |c2|, r2.end, stk, [] + r2.caps);
      ReachStep(d, subj, b, Failed);
      ReachTrans(d, subj, Run(1, s, stk, []), b, Failed);
    } else {
      ExecIn(c1, d, |c2| + 2, subj, s, Empty, [], r1);
      if r1.Match? { assert [] + r1.caps == r1.caps; }
      ReachTrans(d, subj, Run(1, s, stk, []), Run(|c2| + 2, s, Empty, []), end);
    }
    ReachCons(d, subj, Start(s), end);
  }

  lemma FailTwiceOk(d: Code, i: nat)
    requires i < |d| && d[i].FailTwice?
    ensures InstOk(d, i)
  {
  }

  lemma DiffPlainFirst(c1: Code, c2: Code)
    requires WF(c1)
    ensures InstOk([Choice(|c2| + 2, 0)] + c2 + [FailTwice] + c1, 0)
  {
    var d := [Choice(|c2| + 2, 0)] + c2 + [FailTwice] + c1;
    assert c1 != [] ==> d[|c2| + 2] == c1[0];
  }

  lemma DiffPlainInst(c1: Code, c2: Code, i: nat)
    requires WF(c1) && WF(c2) && i < |c2| + 2 + |c1|
    ensures var d := [Choice(|c2| + 2, 0)] + c2 + [FailTwice] + c1;
      InstOk(d, i) && (StartsWithCheck(c2) && i >= 2 && HasTarget(d[i]) ==> Dest(d, i) >= 2)
  {
    hide WF, InstOk;
    var d := [Choice(|c2| + 2, 0)] + c2 + [FailTwice] + c1;
    if i == 0 {
      DiffPlainFirst(c1, c2);
    } else if i == |c2| + 1 {
      assert d[i] == FailTwice;
      FailTwiceOk(d, i);
    } else if i < 1 + |c2| {
      assert d[1..1 + |c2|] == c2;
      assert Sits(d, 1, c2, 0);
      SitsInst(d, 1, c2, 0, i - 1);
    } else if i >= |c2| + 2 {
      assert d[|c2| + 2..|c2| + 2 + |c1|] == c1;
      assert Sits(d, |c2| + 2, c1, 0);
      SitsInst(d, |c2| + 2, c1, 0, i - |c2| - 2);
    }
  }

  lemma DiffPlainWF(c1: Code, c2: Code)
    requires WF(c1) && WF(c2)
    ensures var d := [Choice(|c2| + 2, 0)] + c2 + [FailTwice] + c1;
      WF(d) && (StartsWithCheck(c2) ==> ClearFrom(d, 2))
  {
    var d := [Choice(|c2| + 2, 0)] + c2 + [FailTwice] + c1;
    forall i | 0 <= i < |d|
      ensures InstOk(d, i)
      ensures StartsWithCheck(c2) && i >= 2 && HasTarget(d[i]) ==> Dest(d, i) >= 2
    {
      DiffPlainInst(c1, c2, i);
    }
    JoinJumps([Choice(|c2| + 2, 0)], c2);
    JoinJumps([Choice(|c2| + 2, 0)] + c2, [FailTwice]);
    JoinJumps([Choice(|c2| + 2, 0)] + c2 + [FailTwice], c1);
    if c1 != [] { assert d[|d| - 1] == c1[|c1| - 1]; }
  }

  lemma DiffHeadFailInst(c1: Code, c2: Code, i: nat)
    requires WF(c1) && WF(c2) && IsHeadFail(c2) && i < |c2| + 1 + |c1|
    ensures InstOk(CheckToTest(c2, |c2| + 1) + [Fail] + c1, i)
  {
    var d := CheckToTest(c2, |c2| + 1) + [Fail] + c1;
    if i == 0 {
      assert InstOk(c2, 0);
      assert c1 != [] ==> d[|c2| + 1] == c1[0];
    } else if i < |c2| {
      assert d[1..|c2|] == c2[1..];
      assert Sits(d, 0, c2, 1);
      SitsInst(d, 0, c2, 1, i);
    } else if i > |c2| {
      assert d[|c2| + 1..|c2| + 1 + |c1|] == c1;
      assert Sits(d, |c2| + 1, c1, 0);
      SitsInst(d, |c2| + 1, c1, 0, i - |c2| - 1);
    }
  }

  lemma DiffHeadFailWF(c1: Code, c2: Code)
    requires WF(c1) && WF(c2) && IsHeadFail(c2)
    ensures WF(CheckToTest(c2, |c2| + 1) + [Fail] + c1)
  {
    var d := CheckToTest(c2, |c2| + 1) + [Fail] + c1;
    forall i | 0 <= i < |d|
      ensures InstOk(d, i)
    {
      DiffHeadFailInst(c1, c2, i);
    }
    HasATest(d, 0);
    if c1 != [] { assert d[|d| - 1] == c1[|c1| - 1]; }
  }

  lemma DiffExec(c1: Code, c2: Code, subj: Subject, s: int, r1: Outcome, r2: Outcome)
    requires WF(c1) && WF(c2) && 0 <= s
    requires Exec(c1, subj, s, r1) && Exec(c2, subj, s, r2)
    ensures Exec(DiffCode(c1, c2), subj, s, Except(r1, r2))
  {
    var t1, t2 := ToCharset(c1), ToCharset(c2);
    if t1.IsCharset? && t2.IsCharset? {
      CharsetExec(c1, subj, s, r1);
      CharsetExec(c2, subj, s, r2);
      CheckExec(Set(t1.cs - t2.cs, 0), subj, s);
    } else if IsHeadFail(c2) {
      DiffHeadFailExec(c1, c2, subj, s, r1, r2);
    } else {
      DiffPlainExec(c1, c2, subj, s, r1, r2);
      DiffPlainWF(c1, c2);
      if StartsWithCheck(c2) {
        OptimizeChoiceExec([Choice(|c2| + 2, 0)] + c2 + [FailTwice] + c1, subj, s, Except(r1, r2));
      }
    }
  }

  lemma DiffPlainWalks(c1: Code, c2: Code, v1: bool, v2: bool)
    requires WF(c2) && Walks(c1, v1) && Walks(c2, v2)
    ensures Walks([Choice(|c2| + 2, 0)] + c2 + [FailTwice] + c1, v1)
  {
    var d := [Choice(|c2| + 2, 0)] + c2 + [FailTwice] + c1;
    assert d[1..1 + |c2|] == c2 && d[|c2| + 2..|c2| + 2 + |c1|] == c1;
    var p := More(|c2| + 2, None);
    WalkIn(c2, d, 1, p, v2);
    if v2 {
      WalkRefl(d, Visit(|c2| + 2, None));
      WalkCons(d, Visit(1 + |c2|, p), Visit(|c2| + 2, None));
      WalkTrans(d, Visit(1, p), Visit(1 + |c2|, p), Visit(|c2| + 2, None));
    }
    WalkIn(c1, d, |c2| + 2, None, v1);
    WalkTrans(d, Visit(1, p), Visit(|c2| + 2, None), WalkEnd(d, v1));
    WalkCons(d, Visit(0, None), WalkEnd(d, v1));
  }

  lemma DiffHeadFailWalks(c1: Code, c2: Code, v1: bool)
    requires StartsWithCheck(c2) && Walks(c1, v1)
    ensures Walks(CheckToTest(c2, |c2| + 1) + [Fail] + c1, v1)
    ensures (CheckToTest(c2, |c2| + 1) + [Fail] + c1)[|c2|] == Fail
  {
    var d := CheckToTest(c2, |c2| + 1) + [Fail] + c1;
    assert d[|c2| + 1..|c2| + 1 + |c1|] == c1 && d[|c2|] == Fail;
    WalkIn(c1, d, |c2| + 1, None, v1);
    WalkCons(d, Visit(0, None), WalkEnd(d, v1));
  }

  lemma DiffShape(c1: Code, c2: Code, v1: bool, v2: bool)
    requires WF(c1) && WF(c2) && Walks(c1, v1) && Walks(c2, v2)
    ensures WF(DiffCode(c1, c2)) && FirstPart(DiffCode(c1, c2)) == 0 && Walks(DiffCode(c1, c2), v1)
  {
    hide WF, Walks;
    var t1, t2 := ToCharset(c1), ToCharset(c2);
    var d := DiffCode(c1, c2);
    if t1.IsCharset? && t2.IsCharset? {
      CheckWF(d[0]);
      CheckWalks(d);
      CheckWalks(c1);
      WalksUnique(c1, v1, false);
    } else if IsHeadFail(c2) {
      DiffHeadFailWF(c1, c2);
      DiffHeadFailWalks(c1, c2, v1);
    } else {
      var d0 := [Choice(|c2| + 2, 0)] + c2 + [FailTwice] + c1;
      DiffPlainWF(c1, c2);
      DiffPlainWalks(c1, c2, v1, v2);
      assert d0[|c2| + 1] == FailTwice;
      if StartsWithCheck(c2) {
        OptimizeChoiceWF(d0);
        OptimizeChoiceWalks(d0, v1);
        assert d[|c2| + 1] == FailTwice;
      }
    }
  }

  // ---------- the and-predicate ----------

  function AndOutcome(s: int, r: Outcome): Outcome { if r.Match? then Match(s, r.caps) else NoMatch }

  lemma AndPlainExec(c: Code, subj: Subject, s: int, r: Outcome)
    requires Exec(c, subj, s, r)
    ensures Exec([Choice(|c| + 2, 0)] + c + [BackCommit(2), Fail], subj, s, AndOutcome(s, r))
  {
    var d := [Choice(|c| + 2, 0)] + c + [BackCommit(2), Fail];
    var stk := Push(Frame(|c| + 2, s, 0), Empty);
    assert d[1..1 + |c|] == c;
    ExecIn(c, d, 1, subj, s, stk, [], r);
    var end := Final(d, AndOutcome(s, r));
    if r.Match? {
      assert [] + r.caps == r.caps;
      ReachStep(d, subj, Run(1 + |c|, r.end, stk, r.caps), end);
      ReachTrans(d, subj, Run(1, s, stk, []), Run(1 + |c|, r.end, stk, r.caps), end);
    } else {
      ReachStep(d, subj, Run(|c| + 2, s, Empty, []), Failed);
      ReachTrans(d, subj, Run(1, s, stk, []), Run(|c| + 2, s, Empty, []), Failed);
    }
    ReachCons(d, subj, Start(s), end);
  }

  lemma AndPlainShape(c: Code, v: bool)
    requires WF(c) && Walks(c, v)
    ensures var d := [Choice(|c| + 2, 0)] + c + [BackCommit(2), Fail];
      WF(d) && FirstPart(d) == 0 && Walks(d, true)
  {
    hide InstOk, JumpsHaveTests;
    var d := [Choice(|c| + 2, 0)] + c + [BackCommit(2), Fail];
    assert d[1..1 + |c|] == c;
    forall i | 0 <= i < |d| ensures InstOk(d, i) { AndPlainInst(c, i); }
    AndPlainJumps(c);
    AndPlainWalks(c, v);
  }

  lemma AndPlainInst(c: Code, i: nat)
    requires WF(c) && i < |c| + 3
    ensures InstOk([Choice(|c| + 2, 0)] + c + [BackCommit(2), Fail], i)
  {
    hide WF;
    var d := [Choice(|c| + 2, 0)] + c + [BackCommit(2), Fail];
    assert d[1..1 + |c|] == c;
    if 1 <= i < 1 + |c| { SitsInst(d, 1, c, 0, i - 1); }
  }

  lemma AndPlainJumps(c: Code)
    requires JumpsHaveTests(c)
    ensures JumpsHaveTests([Choice(|c| + 2, 0)] + c + [BackCommit(2), Fail])
  {
    JoinJumps([Choice(|c| + 2, 0)], c);
    JoinJumps([Choice(|c| + 2, 0)] + c, [BackCommit(2), Fail]);
  }

  lemma AndPlainWalks(c: Code, v: bool)
    requires Walks(c, v)
    ensures Walks([Choice(|c| + 2, 0)] + c + [BackCommit(2), Fail], true)
  {
    var d := [Choice(|c| + 2, 0)] + c + [BackCommit(2), Fail];
    assert d[1..1 + |c|] == c;
    var p := More(|c| + 2, None);
    WalkIn(c, d, 1, p, v);
    WalkRefl(d, Visit(|d|, None));
    if v {
      WalkCons(d, Visit(1 + |c|, p), Visit(|d|, None));
      WalkTrans(d, Visit(1, p), Visit(1 + |c|, p), Visit(|d|, None));
    } else {
      WalkCons(d, Visit(|c| + 2, None), Visit(|d|, None));
      WalkTrans(d, Visit(1, p), Visit(|c| + 2, None), Visit(|d|, None));
    }
    WalkCons(d, Visit(0, None), Visit(|d|, None));
  }

  /** The charset shortcut of the and-predicate takes the end of the subject for a success. */
  lemma AndCharsetExec(c: Code, subj: Subject, s: int, r: Outcome)
    requires ToCharset(c).IsCharset? && Exec(c, subj, s, r) && 0 <= s <= |subj|
    ensures Exec(AndCode(c), subj, s, if s == |subj| then Match(s, []) else AndOutcome(s, r))
    ensures s == |subj| ==> r == NoMatch
  {
    var d := AndCode(c);
    CharsetExec(c, subj, s, r);
    if s < |subj| && subj[s] !in ToCharset(c).cs {
      assert subj[s] in AllBytes;
      ReachStep(d, subj, Run(1, s + 1, Empty, []), Failed);
      ReachCons(d, subj, Start(s), Failed);
    } else {
      ReachStep(d, subj, Start(s), Run(2, s, Empty, []));
    }
  }

  // ---------- captures ----------

  lemma {:induction false} WholeChecks(c: Code, i: nat, up: nat)
    requires up <= MAXOFF && i <= |c| && SkipChecks(c, i, up).0 == |c| - i
    ensures forall j :: i <= j < |c| ==> IsCheck(c[j])
    ensures SkipChecks(c, i, up).1 == TotalStep(c[i..])
    decreases |c| - i
  {
    if i < |c| {
      WholeChecks(c, i + 1, up + OpStep(c[i]));
      assert c[i..][1..] == c[i + 1..];
    }
  }

  lemma ChecksExec(c: Code, subj: Subject, s: int, r: Outcome)
    requires SkipChecks(c, 0, 0).0 == |c| && Exec(c, subj, s, r)
    ensures SkipChecks(c, 0, 0).1 <= MAXOFF && (r.Match? ==> r == Match(s + SkipChecks(c, 0, 0).1, []))
  {
    hide SkipChecks;
    WholeChecks(c, 0, 0);
    SkipChecksBounds(c, 0, 0);
    assert c[0..] == c && c[0..0 + |c|] == c;
    var k := ChecksRun(c, 0, c, subj, s, Empty, []);
    var r0 := if AllPass(c, subj, s) then Match(s + SkipChecks(c, 0, 0).1, []) else NoMatch;
    assert RunN(c, subj, Start(s), k) == Final(c, r0);
    ExecUnique(c, subj, s, r, r0);
  }

  lemma OneFullCapture(idx: int, kind: CapKind, n: nat, subj: Subject, e: int)
    requires n <= MAXOFF
    ensures Exec([FullCapture(idx, kind, n)], subj, e, Match(e, [Capture(e - n, idx, kind, n + 1)]))
  {
    var f, k1 := FullCapture(idx, kind, n), [Capture(e - n, idx, kind, n + 1)];
    ReachStep([f], subj, Start(e), Final([f], Match(e, k1)));
  }

  lemma FullCaptureExec(c: Code, kind: CapKind, idx: int, subj: Subject, s: int, r: Outcome)
    requires SkipChecks(c, 0, 0).0 == |c| && Exec(c, subj, s, r)
    ensures r.Match? ==> s <= r.end && r.end - s <= MAXOFF && r.caps == []
    ensures Exec(c + [FullCapture(idx, kind, SkipChecks(c, 0, 0).1)], subj, s,
                 if r.Match? then Match(r.end, Wrap(kind, idx, s, r.end, r.caps)) else NoMatch)
  {
    hide SkipChecks, Exec;
    var n := SkipChecks(c, 0, 0).1;
    ChecksExec(c, subj, s, r);
    var f := FullCapture(idx, kind, n);
    if r.Match? {
      var k1 := [Capture(r.end - n, idx, kind, n + 1)];
      OneFullCapture(idx, kind, n, subj, r.end);
      SeqExec(c, [f], subj, s, r, Match(r.end, k1));
      assert r.caps + k1 == k1;
    } else {
      SeqExec(c, [f], subj, s, r, r);
    }
  }

  lemma OpenCloseExec(c: Code, kind: CapKind, idx: int, subj: Subject, s: int, r: Outcome)
    requires Exec(c, subj, s, r) && InBounds(subj, s, r) && Closed(r)
    ensures Exec([OpenCapture(idx, kind, 0)] + c + [CloseCapture(0, Cclose, 0)], subj, s,
                 if r.Match? then Match(r.end, Wrap(kind, idx, s, r.end, r.caps)) else NoMatch)
  {
    var d := [OpenCapture(idx, kind, 0)] + c + [CloseCapture(0, Cclose, 0)];
    var open := [Capture(s, idx, kind, 0)];
    assert d[1..1 + |c|] == c;
    ExecIn(c, d, 1, subj, s, Empty, open, r);
    var end := Final(d, if r.Match? then Match(r.end, Wrap(kind, idx, s, r.end, r.caps)) else NoMatch);
    if r.Match? {
      CloseStep(kind, idx, s, r.end, r.caps);
      ReachStep(d, subj, Run(1 + |c|, r.end, Empty, open + r.caps), end);
      ReachTrans(d, subj, Run(1, s, Empty, open), Run(1 + |c|, r.end, Empty, open + r.caps), end);
    }
    assert Step(d, subj, Start(s)) == Run(1, s, Empty, open);
    ReachCons(d, subj, Start(s), end);
  }

  lemma CloseStep(kind: CapKind, idx: int, s: int, e: int, k: seq<Capture>)
    requires s <= e && (k != [] ==> k[|k| - 1].siz != 0)
    ensures CaptureStep(CloseCapture(0, Cclose, 0), e, Empty, [Capture(s, idx, kind, 0)] + k)
         == Caps(Wrap(kind, idx, s, e, k))
  {
    var open := [Capture(s, idx, kind, 0)];
    if k == [] {
      assert open + k == open;
      assert (open + k)[0 := Capture(s, idx, kind, e - s + 1)] == [Capture(s, idx, kind, e - s + 1)];
    } else {
      assert (open + k)[|open + k| - 1] == k[|k| - 1];
    }
  }

  lemma FullCaptureShape(c: Code, kind: CapKind, idx: int, v: bool)
    requires WF(c) && Walks(c, v) && SkipChecks(c, 0, 0).0 == |c|
    ensures var d := c + [FullCapture(idx, kind, SkipChecks(c, 0, 0).1)]; WF(d) && FirstPart(d) == 0 && Walks(d, v)
  {
    var f := [FullCapture(idx, kind, SkipChecks(c, 0, 0).1)];
    SkipChecksBounds(c, 0, 0);
    WholeChecks(c, 0, 0);
    CaptureWalks(f[0]);
    SeqWF(c, f);
    SeqWalks(c, f, v, true);
  }

  lemma OpenCloseShape(c: Code, kind: CapKind, idx: int, v: bool)
    requires WF(c) && Walks(c, v)
    ensures var d := [OpenCapture(idx, kind, 0)] + c + [CloseCapture(0, Cclose, 0)];
      WF(d) && FirstPart(d) == 0 && Walks(d, v)
  {
    var o, e := [OpenCapture(idx, kind, 0)], [CloseCapture(0, Cclose, 0)];
    CaptureWalks(o[0]);
    CaptureWalks(e[0]);
    SeqWF(o, c);
    SeqWF(o + c, e);
    SeqWalks(o, c, true, v);
    SeqWalks(o + c, e, v, true);
  }

  lemma CaptureWalks(i: Inst)
    requires (i.FullCapture? || IsMovable(i)) && i.off <= MAXOFF
    ensures WF([i]) && Walks([i], true)
  {
    WalkRefl([i], Visit(1, None));
    WalkCons([i], Visit(0, None), Visit(1, None));
  }

  lemma EmptyCaptureExec(kind: CapKind, idx: int, subj: Subject, s: int)
    ensures Exec([EmptyCapture(idx, kind, 0)], subj, s, Match(s, [Capture(s, idx, kind, 1)]))
  {
    var c := [EmptyCapture(idx, kind, 0)];
    ReachStep(c, subj, Start(s), Run(1, s, Empty, [Capture(s, idx, kind, 1)]));
  }
}
