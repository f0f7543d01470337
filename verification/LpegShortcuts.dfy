/** Shortcuts that are not right everywhere, seen in the instructions: exactly when each is (for moved
    captures in LpegLandings), and an input on which it is not. */
module LpegShortcuts {
  import opened LpegMachine
  import opened LpegReference
  import opened LpegCombinators
  import opened LpegWellFormed
  import opened LpegSequence
  import opened LpegRepetition
  import opened LpegChoice
  import opened LpegCompiler

  /** A code whose run from s ends with r does not mean a pattern whose value there is different. */
  lemma DoesNotMean(c: Code, p: Pattern, subj: Subject, s: int, r: Outcome)
    requires 0 <= s <= |subj| && Exec(c, subj, s, r) && Eval(p, subj, s) != r
    ensures !Means(c, p)
  {
    if Means(c, p) {
      ExecUnique(c, subj, s, r, Eval(p, subj, s));
    }
  }

  /** The and-predicate is right exactly when its charset shortcut is not taken: with it,
      the end of the subject counts as a success. */
  lemma AndExact(c: Code, a: Pattern)
    requires Implements(c, a)
    ensures Means(AndCode(c), And(a)) <==> AndSafe(c)
  {
    if AndSafe(c) {
      AndImplements(c, a);
    } else {
      assert Exec(c, [], 0, Eval(a, [], 0));
      AndCharsetExec(c, [], 0, Eval(a, [], 0));
      DoesNotMean(AndCode(c), And(a), [], 0, Match(0, []));
    }
  }

  /** Some subject of a given length. */
  function Zeros(n: nat): (r: Subject)
    ensures |r| == n
  {
    seq(n, i => 0)
  }

  lemma MergeBreaks(c1: Code, c2: Code, a: Pattern, b: Pattern)
    requires Implements(c1, a) && Implements(c2, b) && IsAnyCode(c1) && IsAnyCode(c2)
    requires !MergeSafe(c1[0], c2[0]) && c1[0].n > 0 && c2[0].n > 0
    ensures !Means(AnyCode(c1[0].n + c2[0].n), Seq(a, b))
  {
    var n1, n2 := c1[0].n, c2[0].n;
    var len := if c2[0].offset != 0 then (if c1[0].offset == 0 then n1 else 0) else n2;
    var subj := Zeros(len);
    AnyExec(n1 + n2, subj, 0);
    AnyAloneMeans(c1, a, subj, 0);
    assert Eval(a, subj, 0).Match? && 0 <= Eval(a, subj, 0).end <= |subj|;
    AnyAloneMeans(c2, b, subj, Eval(a, subj, 0).end);
    DoesNotMean(AnyCode(n1 + n2), Seq(a, b), subj, 0, NoMatch);
  }

  /** Two "any" codes are merged rightly exactly when the second is a check and the first is a
      check or asks for no more than the second.  (The source looks at neither offset.) */
  lemma MergeExact(c1: Code, c2: Code, a: Pattern, b: Pattern)
    requires Implements(c1, a) && Implements(c2, b) && IsAnyCode(c1) && IsAnyCode(c2)
    ensures Means(ConcatCode(c1, c2), Seq(a, b)) <==> MergeSafe(c1[0], c2[0])
  {
    assert ConcatCode(c1, c2) == AnyCode(c1[0].n + c2[0].n);
    if MergeSafe(c1[0], c2[0]) {
      MergeImplements(c1, c2, a, b);
    } else {
      assert InstOk(c1, 0) && InstOk(c2, 0);
      MergeBreaks(c1, c2, a, b);
    }
  }

  /** The rebuilt choice of e and x means "e, or else x" on every subject. */
  ghost predicate RebuiltMeans(e: Code, x: Code)
    requires StartsWithCheck(e) && Total(e) && Total(x)
  {
    forall subj: Subject, s: int :: 0 <= s <= |subj| ==>
      Halts(e, subj, s) && Halts(x, subj, s) && Exec(WithExit(FormCode(Tested(e, 1)), x), subj, s, OrElse(Res(e, subj, s), Res(x, subj, s)))
  }

  lemma RebuiltRight(e: Code, x: Code)
    requires WF(e) && StartsWithCheck(e) && Total(e) && Total(x)
    requires OpStep(e[0]) == 1 || FailsAtOnce(e)
    ensures RebuiltMeans(e, x)
  {
    hide WF, FailsAtOnce;
    forall subj: Subject, s: int | 0 <= s <= |subj|
      ensures Halts(e, subj, s) && Halts(x, subj, s) && Exec(WithExit(FormCode(Tested(e, 1)), x), subj, s, OrElse(Res(e, subj, s), Res(x, subj, s)))
    {
      assert Halts(e, subj, s) && Halts(x, subj, s);
      TestedExec(e, 1, x, subj, s, Res(e, subj, s), Res(x, subj, s));
    }
  }

  /** A capture of the position tells where the rebuilt choice goes on. */
  lemma RebuiltWrong(e: Code, subj: Subject, s: int)
    requires WF(e) && StartsWithCheck(e) && Total(e) && 0 <= s <= |subj|
    requires OpStep(e[0]) != 1 && Passes(e[0], subj, s) && Exec(e, subj, s, NoMatch)
    ensures var x := [EmptyCapture(0, Cposition, 0)]; Total(x) && !RebuiltMeans(e, x)
  {
    hide WF, WithExit, FormCode, Exec;
    var x := [EmptyCapture(0, Cposition, 0)];
    forall subj: Subject, s: int | 0 <= s <= |subj|
      ensures Halts(x, subj, s)
    {
      EmptyCaptureExec(Cposition, 0, subj, s);
    }
    var back := s + OpStep(e[0]) - 1;
    EmptyCaptureExec(Cposition, 0, subj, s);
    EmptyCaptureExec(Cposition, 0, subj, back);
    var rx, rb := Match(s, [Capture(s, 0, Cposition, 1)]), Match(back, [Capture(back, 0, Cposition, 1)]);
    TestedOutcome(e, 1, x, subj, s, NoMatch, rx, rb);
    assert Halts(e, subj, s) && Halts(x, subj, s);
    ResIs(x, subj, s, rx);
    ExecUnique(e, subj, s, NoMatch, Res(e, subj, s));
    if RebuiltMeans(e, x) {
      ExecUnique(WithExit(FormCode(Tested(e, 1)), x), subj, s, rb, rx);
    }
  }

  /** The rebuilt choice returns to one byte before where its test left off, whatever the test
      consumed.  It is right before every other alternative exactly when the test consumes one byte,
      or the alternative never fails once it has passed its test. */
  lemma RebuiltExact(e: Code)
    requires WF(e) && StartsWithCheck(e) && Total(e)
    ensures (forall x :: Total(x) ==> RebuiltMeans(e, x)) <==> OpStep(e[0]) == 1 || FailsAtOnce(e)
  {
    hide WF, RebuiltMeans, Total, Exec;
    if OpStep(e[0]) == 1 || FailsAtOnce(e) {
      forall x | Total(x) ensures RebuiltMeans(e, x) { RebuiltRight(e, x); }
    } else {
      var subj, s :| 0 <= s <= |subj| && Passes(e[0], subj, s) && Exec(e, subj, s, NoMatch);
      RebuiltWrong(e, subj, s);
    }
  }

  /** A caller can see the second case in the code where nothing past the first check can fail. */
  lemma HeadFailRebuilt(e: Code, x: Code)
    requires WF(e) && IsHeadFail(e) && Total(e) && Total(x)
    ensures RebuiltMeans(e, x)
  {
    HeadFailsAtOnce(e);
    RebuiltRight(e, x);
  }

  // ---------- inputs on which the shortcuts go wrong ----------

  /** any(1) followed by an optional any(1) is compiled to any(2), and fails on one byte. */
  lemma MergeGoesWrong(b: Byte)
    ensures var p := Seq(AnyN(1), AtMost(AnyN(1), 1));
      && Compile(p) == Ok([Any(2, 0)])
      && Eval(p, [b], 0) == Match(1, []) && Exec([Any(2, 0)], [b], 0, NoMatch)
  {
    assert AnyCode(1) == [Any(1, 0)] && AnyCode(2) == [Any(2, 0)];
    var c := OptionalHeadFail([Any(1, 0)], 1);
    assert OptionalHeadFail([Any(1, 0)], 0) == [];
    assert c == [Any(1, 1)];
    assert Compile(AnyN(1)) == Ok([Any(1, 0)]);
    assert Compile(AtMost(AnyN(1), 1)) == Ok([Any(1, 1)]);
    CheckExec(Any(2, 0), [b], 0);
    assert EvalUpTo(AnyN(1), 1, [b], 1) == Match(1, []);
  }

  /** &any(1) succeeds at the end of the subject. */
  lemma AndGoesWrong()
    ensures var p := And(AnyN(1));
      && Compile(p).Ok? && Eval(p, [], 0) == NoMatch && Exec(Compile(p).code, [], 0, Match(0, []))
  {
    assert AnyCode(1) == [Any(1, 0)];
    CheckExec(Any(1, 0), [], 0);
    AndCharsetExec([Any(1, 0)], [], 0, NoMatch);
  }

  function Optional(x: Byte): Pattern { AtMost(Seq(Literal([x]), EmptyCap(Cposition, 0)), 1) }

  lemma OptionalLegal(x: Byte)
    ensures Legal(Seq(Literal([x]), EmptyCap(Cposition, 0))) && Legal(Optional(x))
  {
    assert Legal(Literal([x])) && Legal(EmptyCap(Cposition, 0));
  }

  lemma OptionalCode(x: Byte)
    ensures Legal(Optional(x)) && Compile(Optional(x)) == Ok([Char(x, 2), EmptyCapture(0, Cposition, 0)])
  {
    hide Legal, OptimizeCaptures, OptionalHeadFail, IsHeadFail;
    OptionalLegal(x);
    ByteThenPosition(x);
    OptionOf(x);
  }

  lemma ByteThenPosition(x: Byte)
    ensures var a := Seq(Literal([x]), EmptyCap(Cposition, 0)); Legal(a) && Compile(a) == Ok([Char(x, 0), EmptyCapture(0, Cposition, 0)])
  {
    hide Legal, OptimizeCaptures;
    OptionalLegal(x);
    var pos := EmptyCapture(0, Cposition, 0);
    assert Compile(Literal([x])) == Ok([Char(x, 0)]) by { assert LiteralCode([x]) == [Char(x, 0)]; }
    assert ConcatCode([Char(x, 0)], [pos]) == OptimizeCaptures([Char(x, 0)] + [pos]);
    assert [Char(x, 0)] + [pos] == [Char(x, 0), pos];
    NothingToMove(x);
  }

  lemma NothingToMove(x: Byte)
    ensures var c := [Char(x, 0), EmptyCapture(0, Cposition, 0)]; OptimizeCaptures(c) == c
  {
    var c := [Char(x, 0), EmptyCapture(0, Cposition, 0)];
    assert OptimizeCapturesFrom(c, 2, 0) == c && OptimizeCapturesFrom(c, 1, 0) == c;
  }

  lemma OptionOf(x: Byte)
    ensures var c := [Char(x, 0), EmptyCapture(0, Cposition, 0)]; IsHeadFail(c) && OptionalHeadFail(c, 1) == [Char(x, 2), EmptyCapture(0, Cposition, 0)]
  {
    var c := [Char(x, 0), EmptyCapture(0, Cposition, 0)];
    assert OptionalHeadFail(c, 0) == [];
  }

  lemma MovedTooFar(x: Byte, y: Byte)
    ensures OptimizeCaptures([Char(x, 2), EmptyCapture(0, Cposition, 0), Char(y, 0)])
         == [Char(x, 2), Char(y, 0), EmptyCapture(0, Cposition, 1)]
  {
    var pos := EmptyCapture(0, Cposition, 0);
    var c := [Char(x, 2), pos, Char(y, 0)];
    var d := [Char(x, 2), Char(y, 0), EmptyCapture(0, Cposition, 1)];
    assert SkipChecks(c, 3, 1) == (0, 0);
    assert SkipChecks(c, 2, 0) == (1, 1);
    assert GroupStart(c, 1, 0) == 1;
    assert FindSlice(c, 1, 0) == Slice(1, 1, 1);
    assert DelayAll([pos], 1) == [EmptyCapture(0, Cposition, 1)];
    assert MoveSlice(c, 1, 1, 2, 1) == d;
    assert OptimizeCapturesFrom(d, 3, 0) == d;
    assert OptimizeCapturesFrom(c, 1, 0) == d;
  }

  /** (x position)^-1 followed by y: the pass moves the capture over the check of y, though the
      test of x leads to just between them; then y is not checked at all. */
  lemma MoveGoesWrong(x: Byte, y: Byte, z: Byte)
    requires z != x && z != y
    ensures var p := Seq(Optional(x), Literal([y]));
      && Legal(p) && Compile(p) == Ok([Char(x, 2), Char(y, 0), EmptyCapture(0, Cposition, 1)])
      && Eval(p, [z], 0) == NoMatch
      && Exec(Compile(p).code, [z], 0, Match(0, [Capture(-1, 0, Cposition, 1)]))
  {
    hide Legal, Compile, Eval, Exec, Optional;
    TooFarCode(x, y);
    TooFarMeaning(x, y, z);
    TooFarRun(x, y, z);
  }

  lemma TooFarCode(x: Byte, y: Byte)
    ensures var p := Seq(Optional(x), Literal([y])); Legal(p) && Compile(p) == Ok([Char(x, 2), Char(y, 0), EmptyCapture(0, Cposition, 1)])
  {
    hide OptimizeCaptures, Optional;
    OptionalCode(x);
    assert Legal(Literal([y])) && Legal(Seq(Optional(x), Literal([y])));
    assert Compile(Literal([y])) == Ok([Char(y, 0)]) by { assert LiteralCode([y]) == [Char(y, 0)]; }
    var c := [Char(x, 2), EmptyCapture(0, Cposition, 0)];
    assert ConcatCode(c, [Char(y, 0)]) == OptimizeCaptures(c + [Char(y, 0)]);
    assert c + [Char(y, 0)] == [Char(x, 2), EmptyCapture(0, Cposition, 0), Char(y, 0)];
    MovedTooFar(x, y);
  }

  lemma TooFarMeaning(x: Byte, y: Byte, z: Byte)
    requires z != x && z != y
    ensures Eval(Seq(Optional(x), Literal([y])), [z], 0) == NoMatch
  {
    var a := Seq(Literal([x]), EmptyCap(Cposition, 0));
    assert Literally([x], [z], 0) == NoMatch && Literally([y], [z], 0) == NoMatch;
    assert Eval(Literal([x]), [z], 0) == NoMatch && Eval(Literal([y]), [z], 0) == NoMatch;
    assert Eval(a, [z], 0) == NoMatch;
    assert EvalUpTo(a, 1, [z], 0) == Match(0, []);
  }

  lemma TooFarRun(x: Byte, y: Byte, z: Byte)
    requires z != x
    ensures Exec([Char(x, 2), Char(y, 0), EmptyCapture(0, Cposition, 1)], [z], 0, Match(0, [Capture(-1, 0, Cposition, 1)]))
  {
    var d := [Char(x, 2), Char(y, 0), EmptyCapture(0, Cposition, 1)];
    var end := Run(3, 0, Empty, [Capture(-1, 0, Cposition, 1)]);
    assert Step(d, [z], Run(2, 0, Empty, [])) == end;
    ReachStep(d, [z], Run(2, 0, Empty, []), end);
    ReachCons(d, [z], Start(0), end);
  }

  function TwoThen(x: Byte): Pattern { Or(Seq(AnyN(2), Literal([x])), Charset({})) }

  lemma TwoThenFirst(x: Byte)
    ensures var p := Seq(AnyN(2), Literal([x])); Legal(p) && Compile(p) == Ok([Any(2, 0), Char(x, 0)])
  {
    var e := [Any(2, 0), Char(x, 0)];
    assert AnyCode(2) == [Any(2, 0)] && LiteralCode([x]) == [Char(x, 0)];
    assert [Any(2, 0)] + [Char(x, 0)] == e;
    assert OptimizeCapturesFrom(e, 2, 0) == e && OptimizeCapturesFrom(e, 1, 0) == e && OptimizeCaptures(e) == e;
  }

  lemma TwoThenUnion(x: Byte)
    ensures UnionCode([Any(2, 0), Char(x, 0)], [Set({}, 0)]) == [Any(2, 3), Char(x, 0), Jmp(2), Set({}, 0)]
  {
    var e := [Any(2, 0), Char(x, 0)];
    assert e[1..] == [Char(x, 0)];
    assert CheckToTest(e, 3) + [Jmp(2)] + [Set({}, 0)] == [Any(2, 3), Char(x, 0), Jmp(2), Set({}, 0)];
  }

  lemma TwoThenCode(x: Byte)
    ensures Legal(TwoThen(x)) && Compile(TwoThen(x)) == Ok([Any(2, 3), Char(x, 0), Jmp(2), Set({}, 0)])
  {
    TwoThenFirst(x);
    TwoThenUnion(x);
  }

  lemma RebuiltRest(y: Byte)
    ensures SeparateParts([Set({}, 0)], [Char(y, 0)], ToCharset([Char(y, 0)])) == [Set({y}, 0)]
  {
    assert {} + {y} == {y};
  }

  lemma Rebuilt(x: Byte, y: Byte)
    ensures UnionCode([Any(2, 3), Char(x, 0), Jmp(2), Set({}, 0)], [Char(y, 0)])
         == [Any(2, 4), Choice(3, 1), Char(x, 0), Commit(2), Set({y}, 0)]
  {
    var c := [Any(2, 3), Char(x, 0), Jmp(2), Set({}, 0)];
    var t2 := ToCharset([Char(y, 0)]);
    assert c[3..] == [Set({}, 0)];
    assert FirstPart(c) == 3;
    RebuiltRest(y);
    assert c[..3][0] == Any(2, 3);
    assert Interfere(c[..3], t2) by { assert !IsNoFail(c[..3][0]); }
    assert SeparateParts(c, [Char(y, 0)], t2) == [Any(2, 4), Choice(3, 1)] + c[1..2] + [Commit(2)] + [Set({y}, 0)];
  }

  lemma RebuiltRun(x: Byte, y: Byte)
    requires x != y
    ensures Exec([Any(2, 4), Choice(3, 1), Char(x, 0), Commit(2), Set({y}, 0)], [y, y, y], 0, Match(2, []))
  {
    var subj := [y, y, y];
    var d := [Any(2, 4), Choice(3, 1), Char(x, 0), Commit(2), Set({y}, 0)];
    var stk := Push(Frame(4, 1, 0), Empty);
    ReachStep(d, subj, Run(4, 1, Empty, []), Run(5, 2, Empty, []));
    ReachCons(d, subj, Run(2, 2, stk, []), Run(5, 2, Empty, []));
    ReachCons(d, subj, Run(1, 2, Empty, []), Run(5, 2, Empty, []));
    ReachCons(d, subj, Start(0), Run(5, 2, Empty, []));
  }

  lemma TwoThenMeaning(x: Byte, y: Byte)
    requires x != y
    ensures Eval(TwoThen(x), [y, y, y], 0) == NoMatch
    ensures Eval(Literal([y]), [y, y, y], 0) == Match(1, [])
  {
    var subj := [y, y, y];
    assert Literally([x], subj, 2) == NoMatch;
    assert Eval(Seq(AnyN(2), Literal([x])), subj, 0) == NoMatch;
    assert Literally([y][1..], subj, 1) == Match(1, []);
  }

  /** (any(2) x / {}) / y: with an empty charset as second alternative the rebuilt choice goes
      back one byte instead of two, and then finds y at the wrong place. */
  lemma RebuildGoesWrong(x: Byte, y: Byte)
    requires x != y
    ensures var p := Or(TwoThen(x), Literal([y]));
      && Legal(p) && Compile(p) == Ok([Any(2, 4), Choice(3, 1), Char(x, 0), Commit(2), Set({y}, 0)])
      && Eval(p, [y, y, y], 0) == Match(1, []) && Exec(Compile(p).code, [y, y, y], 0, Match(2, []))
  {
    var p := Or(TwoThen(x), Literal([y]));
    TwoThenCode(x);
    assert Legal(p);
    assert LiteralCode([y]) == [Char(y, 0)];
    Rebuilt(x, y);
    TwoThenMeaning(x, y);
    RebuiltRun(x, y);
  }
}
