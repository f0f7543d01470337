/** The compiler as a whole, and its correctness: for every pattern, the code it emits gives the
    outcome that the pattern means, on every subject and from every position. */
module LpegCompiler {
  import opened LpegMachine
  import opened LpegReference
  import opened LpegCombinators
  import opened LpegVerifier
  import opened LpegWellFormed
  import opened LpegSequence
  import opened LpegRepetition
  import opened LpegChoice
  import opened LpegCellChoice
  import opened LpegCellCombine

  // ---------- the verdict of the loop test ----------

  const MAXBACK: nat := 400

  function Depth(p: Pending): nat { if p.None? then 0 else 1 + Depth(p.older) }

  /** The walk would push one choice too many. */
  predicate WalkOverflows(c: Code, w: Walk) {
    !WalkHalted(c, w) && c[w.pc].Choice? && Depth(w.pending) >= MAXBACK
  }

  datatype Verdict = Accepts | Rejects | TooManyPending

  ghost function VerdictOf(c: Code): Verdict {
    if exists n: nat :: WalkOverflows(c, WalkN(c, Visit(0, None), n)) then TooManyPending
    else if Walks(c, true) then Rejects else Accepts
  }

  // ---------- compiling ----------

  datatype Compiled = Ok(code: Code) | EmptyLoop | TooDeep

  /** A loop body needs the loop test unless it is a charset or head-fail. */
  predicate NeedsTest(c: Code) { !ToCharset(c).IsCharset? && !IsHeadFail(c) }

  ghost function Compile(p: Pattern): Compiled
    requires Legal(p)
  {
    match p
    case Literal(text) => Ok(LiteralCode(text))
    case AnyN(n) => Ok(if n == 0 then [] else AnyCode(n))
    case NotAny(n) => Ok(NotAnyCode(n))
    case True => Ok([])
    case False => Ok([Fail])
    case Charset(cs) => Ok([Set(cs, 0)])
    case Seq(a, b) =>
      (match (Compile(a), Compile(b)) case (Ok(c1), Ok(c2)) => Ok(ConcatCode(c1, c2)) case (Ok(_), e) => e case (e, _) => e)
    case Or(a, b) =>
      (match (Compile(a), Compile(b)) case (Ok(c1), Ok(c2)) => Ok(UnionCode(c1, c2)) case (Ok(_), e) => e case (e, _) => e)
    case Diff(a, b) =>
      (match (Compile(a), Compile(b)) case (Ok(c1), Ok(c2)) => Ok(DiffCode(c1, c2)) case (Ok(_), e) => e case (e, _) => e)
    case Not(a) => (match Compile(a) case Ok(c) => Ok(NotCode(c)) case e => e)
    case And(a) => (match Compile(a) case Ok(c) => Ok(AndCode(c)) case e => e)
    case AtLeast(a, n) =>
      (match Compile(a)
       case Ok(c) =>
         if NeedsTest(c) && VerdictOf(c).TooManyPending? then TooDeep
         else if NeedsTest(c) && VerdictOf(c).Rejects? then EmptyLoop
         else Ok(AtLeastCode(c, n))
       case e => e)
    case AtMost(a, n) => (match Compile(a) case Ok(c) => Ok(AtMostCode(c, n)) case e => e)
    case Capturing(a, kind, idx) => (match Compile(a) case Ok(c) => Ok(CaptureCode(c, kind, idx)) case e => e)
    case EmptyCap(kind, idx) => Ok([EmptyCapture(idx, kind, 0)])
  }

  // ---------- where the compiler's shortcuts are right ----------

  /** Two "any" codes may be merged: the second is a check, and the first is one too or does not
      ask for more than the second. */
  predicate MergeSafe(i1: Inst, i2: Inst)
    requires i1.Any? && i2.Any?
  {
    i2.offset == 0 && (i1.offset == 0 || i1.n <= i2.n)
  }

  predicate ConcatSafe(c1: Code, c2: Code) {
    if IsFail(c1) || IsSucc(c2) || IsFail(c2) || IsSucc(c1) then true
    else if IsAnyCode(c1) && IsAnyCode(c2) then MergeSafe(c1[0], c2[0])
    else TestsClear(c1 + c2) && NeverMisread(c1 + c2)
  }

  predicate AndSafe(c: Code) { IsFail(c) || IsSucc(c) || !ToCharset(c).IsCharset? }

  ghost predicate UnionSafe(c1: Code, c2: Code) {
    IsFail(c1) || IsFail(c2) || IsSucc(c1) || (RebuildSafe(c1, ToCharset(c2)) && PartsClear(c1))
  }

  predicate AtLeastSafe(c: Code, n: nat) { ToCharset(c).IsCharset? || (TestsClear(RawAtLeast(c, n)) && NeverMisread(RawAtLeast(c, n))) }

  predicate CaptureSafe(c: Code, kind: CapKind, idx: int) {
    SkipChecks(c, 0, 0).0 == |c| || (TestsClear(Wrapped(c, kind, idx)) && NeverMisread(Wrapped(c, kind, idx)))
  }

  function Wrapped(c: Code, kind: CapKind, idx: int): Code { [OpenCapture(idx, kind, 0)] + c + [CloseCapture(0, Cclose, 0)] }

  /** No shortcut inside p is taken where it is wrong. */
  ghost predicate Safe(p: Pattern)
    requires Legal(p)
  {
    match p
    case Seq(a, b) =>
      Safe(a) && Safe(b) && (Compile(a).Ok? && Compile(b).Ok? ==> ConcatSafe(Compile(a).code, Compile(b).code))
    case Or(a, b) =>
      Safe(a) && Safe(b) && (Compile(a).Ok? && Compile(b).Ok? ==> UnionSafe(Compile(a).code, Compile(b).code))
    case Diff(a, b) => Safe(a) && Safe(b)
    case Not(a) => Safe(a)
    case And(a) => Safe(a) && (Compile(a).Ok? ==> AndSafe(Compile(a).code))
    case AtLeast(a, n) => Safe(a) && (Compile(a).Ok? ==> AtLeastSafe(Compile(a).code, n))
    case AtMost(a, _) => Safe(a)
    case Capturing(a, kind, idx) => Safe(a) && (Compile(a).Ok? ==> CaptureSafe(Compile(a).code, kind, idx))
    case _ => true
  }

  /** c is correct code for p: same outcomes, same answer to the loop test. */
  ghost predicate Implements(c: Code, p: Pattern) {
    && Good(c) && Means(c, p) && Walks(c, Nullable(p))
    && (IsSucc(c) <==> ShapeOf(p).IsEmpty?) && (IsFail(c) <==> ShapeOf(p).IsFailure?)
  }

  lemma MeansTotal(c: Code, p: Pattern)
    requires Means(c, p)
    ensures Total(c)
    ensures forall subj: Subject, s: int :: 0 <= s <= |subj| ==> Halts(c, subj, s) && Res(c, subj, s) == Eval(p, subj, s)
  {
    forall subj: Subject, s: int | 0 <= s <= |subj|
      ensures Halts(c, subj, s) && Res(c, subj, s) == Eval(p, subj, s)
    {
      EvalBounds(p, subj, s);
      ResIs(c, subj, s, Eval(p, subj, s));
    }
  }

  /** Code that is not an ordered choice is good as soon as it is well formed and total. */
  lemma GoodPlain(c: Code, p: Pattern, v: bool)
    requires WF(c) && FirstPart(c) == 0 && Means(c, p) && Walks(c, v)
    ensures Good(c)
  {
    MeansTotal(c, p);
  }

  /** What the code of a part is known to do. */
  lemma BodyParts(c: Code, a: Pattern)
    requires Implements(c, a)
    ensures WF(c) && Good(c) && Means(c, a) && Walks(c, Nullable(a))
    ensures (IsSucc(c) <==> ShapeOf(a).IsEmpty?) && (IsFail(c) <==> ShapeOf(a).IsFailure?)
  {
    hide Total, WalkTotal, Means, Walks, Nullable, ShapeOf;
  }

  /** The obligations of a combinator whose code is not an ordered choice. */
  lemma ImplementsPlain(c: Code, p: Pattern)
    requires WF(c) && FirstPart(c) == 0 && Means(c, p) && Walks(c, Nullable(p))
    requires IsSucc(c) <==> ShapeOf(p).IsEmpty?
    requires IsFail(c) <==> ShapeOf(p).IsFailure?
    ensures Implements(c, p)
  {
    GoodPlain(c, p, Nullable(p));
  }

  lemma ReplacesMeans(d: Code, c: Code, p: Pattern)
    requires Replaces(d, c) && Means(c, p)
    ensures Means(d, p)
  {
    forall subj: Subject, s: int | 0 <= s <= |subj|
      ensures Exec(d, subj, s, Eval(p, subj, s))
    {
      assert Exec(c, subj, s, Eval(p, subj, s));
    }
  }

  /** Correct code for one pattern is correct code for another that means the same. */
  lemma SameMeaning(c: Code, q: Pattern, p: Pattern)
    requires Implements(c, q) && Nullable(p) == Nullable(q) && ShapeOf(p) == ShapeOf(q)
    requires forall subj: Subject, s: int :: 0 <= s <= |subj| ==> Eval(p, subj, s) == Eval(q, subj, s)
    ensures Implements(c, p)
  {
    hide WF, Good, Walks, Nullable, ShapeOf, Eval, Exec;
    forall subj: Subject, s: int | 0 <= s <= |subj|
      ensures Exec(c, subj, s, Eval(p, subj, s))
    {
      assert Exec(c, subj, s, Eval(q, subj, s));
    }
  }

  // ---------- one lemma per combinator ----------

  lemma LiteralImplements(p: Pattern)
    requires p.Literal? || p.True? || p.False? || p.Charset? || p.EmptyCap? || p.AnyN? || p.NotAny?
    requires Legal(p)
    ensures Implements(Compile(p).code, p)
  {
    hide WF, Total, WalkTotal, Means, Walks, Good, Implements, Nullable, ShapeOf, IsFail, IsSucc, FirstPart, Eval, Compile, Legal;
    PlainMeans(p);
    PlainShape(p);
    ImplementsPlain(Compile(p).code, p);
  }

  /** The code of a pattern without parts does what the pattern means. */
  lemma PlainMeans(p: Pattern)
    requires p.Literal? || p.True? || p.False? || p.Charset? || p.EmptyCap? || p.AnyN? || p.NotAny?
    requires Legal(p)
    ensures Compile(p).Ok? && Means(Compile(p).code, p)
  {
    hide Exec, AnyCode, NotAnyCode, LiteralCode;
    var c := Compile(p).code;
    forall subj: Subject, s: int | 0 <= s <= |subj|
      ensures Exec(c, subj, s, Eval(p, subj, s))
    {
      match p
      case Literal(text) => LiteralExec(text, subj, s);
      case True => EmptyExec(subj, s);
      case False => FailExec(c, subj, s);
      case Charset(cs) => CheckExec(Set(cs, 0), subj, s);
      case EmptyCap(kind, idx) => EmptyCaptureExec(kind, idx, subj, s);
      case AnyN(n) => if n == 0 { EmptyExec(subj, s); } else { AnyExec(n, subj, s); }
      case NotAny(n) => NotAnyExec(n, subj, s);
    }
  }

  lemma PlainShape(p: Pattern)
    requires p.Literal? || p.True? || p.False? || p.Charset? || p.EmptyCap? || p.AnyN? || p.NotAny?
    requires Legal(p)
    ensures Compile(p).Ok?
    ensures var c := Compile(p).code; WF(c) && FirstPart(c) == 0 && Walks(c, Nullable(p)) && (IsSucc(c) <==> ShapeOf(p).IsEmpty?) && (IsFail(c) <==> ShapeOf(p).IsFailure?)
  {
    var c := Compile(p).code;
    match p {
      case Literal(text) => LiteralShape(text);
      case True => EmptyExec([], 0);
      case False => FailExec(c, [], 0);
      case Charset(cs) => CheckWF(Set(cs, 0)); CheckWalks(c);
      case EmptyCap(kind, idx) => CaptureWalks(c[0]);
      case AnyN(n) => if n == 0 { EmptyExec([], 0); } else { AnyShape(n); }
      case NotAny(n) => NotAnyExec(n, [], 0); NotAnyShape(n);
    }
  }

  lemma SeqFirstPart(c1: Code, c2: Code)
    requires WF(c1) && c1 != [] && c2 != []
    ensures FirstPart(c1 + c2) == 0
  {
    var c := c1 + c2;
    if IsTest(c[0]) || c[0].Choice? {
      assert c[0] == c1[0] && InstOk(c1, 0);
      var e := c[0].offset - 1;
      if 0 <= e < |c1| && (c[e].Jmp? || c[e].Commit?) {
        assert c[e] == c1[e] && InstOk(c1, e);
      }
    }
  }

  lemma SeqMeans(c1: Code, c2: Code, a: Pattern, b: Pattern)
    requires Means(c1, a) && Means(c2, b)
    ensures Means(c1 + c2, Seq(a, b))
  {
    forall subj: Subject, s: int | 0 <= s <= |subj|
      ensures Exec(c1 + c2, subj, s, Eval(Seq(a, b), subj, s))
    {
      EvalBounds(a, subj, s);
      var r1 := Eval(a, subj, s);
      SeqExec(c1, c2, subj, s, r1, if r1.Match? then Eval(b, subj, r1.end) else NoMatch);
    }
  }

  /** What an "any" instruction alone comes to, as a check or as a test that jumps to the end. */
  function AnyAlone(i: Inst, subj: Subject, s: int): Outcome
    requires i.Any?
  {
    if i.n <= |subj| - s then Match(s + i.n, []) else if i.offset == 0 then NoMatch else Match(s, [])
  }

  lemma AnyAloneMeans(c: Code, a: Pattern, subj: Subject, s: int)
    requires WF(c) && IsAnyCode(c) && Means(c, a) && 0 <= s <= |subj|
    ensures Eval(a, subj, s) == AnyAlone(c[0], subj, s)
  {
    assert InstOk(c, 0);
    ReachStep(c, subj, Start(s), Step(c, subj, Start(s)));
    assert Exec(c, subj, s, Eval(a, subj, s));
    ExecUnique(c, subj, s, Eval(a, subj, s), AnyAlone(c[0], subj, s));
  }

  lemma MergeMeans(c1: Code, c2: Code, a: Pattern, b: Pattern)
    requires WF(c1) && WF(c2) && IsAnyCode(c1) && IsAnyCode(c2) && MergeSafe(c1[0], c2[0])
    requires Means(c1, a) && Means(c2, b)
    ensures Means(AnyCode(c1[0].n + c2[0].n), Seq(a, b))
  {
    var n := c1[0].n + c2[0].n;
    forall subj: Subject, s: int | 0 <= s <= |subj|
      ensures Exec(AnyCode(n), subj, s, Eval(Seq(a, b), subj, s))
    {
      AnyAloneMeans(c1, a, subj, s);
      var r1 := Eval(a, subj, s);
      if r1.Match? { AnyAloneMeans(c2, b, subj, r1.end); }
      AnyExec(n, subj, s);
    }
  }

  lemma MergeImplements(c1: Code, c2: Code, a: Pattern, b: Pattern)
    requires Implements(c1, a) && Implements(c2, b) && IsAnyCode(c1) && IsAnyCode(c2) && MergeSafe(c1[0], c2[0])
    ensures Implements(ConcatCode(c1, c2), Seq(a, b))
  {
    var n := c1[0].n + c2[0].n;
    assert InstOk(c1, 0) && InstOk(c2, 0);
    AnyShape(n);
    MergeMeans(c1, c2, a, b);
    CheckWalks(c2);
    WalksUnique(c2, Nullable(b), false);
    ImplementsPlain(AnyCode(n), Seq(a, b));
  }

  /** The shortcuts for the empty and the failing pattern. */
  predicate TrivialConcat(c1: Code, c2: Code) { IsFail(c1) || IsSucc(c2) || IsFail(c2) || IsSucc(c1) }

  lemma PlainConcatImplements(c1: Code, c2: Code, a: Pattern, b: Pattern)
    requires Implements(c1, a) && Implements(c2, b)
    requires !TrivialConcat(c1, c2) && !(IsAnyCode(c1) && IsAnyCode(c2)) && TestsClear(c1 + c2)
    ensures Implements(ConcatCode(c1, c2), Seq(a, b))
  {
    var c, d := c1 + c2, OptimizeCaptures(c1 + c2);
    SeqWF(c1, c2);
    SeqFirstPart(c1, c2);
    SeqMeans(c1, c2, a, b);
    SeqWalks(c1, c2, Nullable(a), Nullable(b));
    OptimizeCapturesCorrect(c);
    ReplacesMeans(d, c, Seq(a, b));
    ImplementsPlain(d, Seq(a, b));
  }

  lemma PrependNone(r: Outcome)
    ensures Prepend([], r) == r
    ensures r.Match? ==> r.caps + [] == r.caps
  {
    if r.Match? { assert [] + r.caps == r.caps; }
  }

  /** The shapes that the shortcuts rely on decide the meaning of the concatenation. */
  lemma TrivialSeq(a: Pattern, b: Pattern, subj: Subject, s: int)
    requires 0 <= s <= |subj|
    ensures ShapeOf(a).IsFailure? || ShapeOf(b).IsEmpty? ==> Eval(Seq(a, b), subj, s) == Eval(a, subj, s)
    ensures (ShapeOf(b).IsFailure? || ShapeOf(a).IsEmpty?) && !ShapeOf(a).IsFailure? && !ShapeOf(b).IsEmpty?
        ==> Eval(Seq(a, b), subj, s) == Eval(b, subj, s)
  {
    var ra := Eval(a, subj, s);
    ShapeMeaning(a, subj, s);
    ShapeMeaning(b, subj, s);
    EvalBounds(a, subj, s);
    PrependNone(ra);
    PrependNone(Eval(b, subj, s));
    if ra.Match? { ShapeMeaning(b, subj, ra.end); }
  }

  lemma TrivialConcatImplements(c1: Code, c2: Code, a: Pattern, b: Pattern)
    requires Implements(c1, a) && Implements(c2, b) && TrivialConcat(c1, c2)
    ensures Implements(ConcatCode(c1, c2), Seq(a, b))
  {
    hide WF, Total, WalkTotal, Means, Walks;
    var first := IsFail(c1) || IsSucc(c2);
    var q := if first then a else b;
    forall subj: Subject, s: int | 0 <= s <= |subj|
      ensures Eval(Seq(a, b), subj, s) == Eval(q, subj, s)
    {
      TrivialSeq(a, b, subj, s);
    }
    ShapeMeaning(a, [], 0);
    ShapeMeaning(b, [], 0);
    SameMeaning(if first then c1 else c2, q, Seq(a, b));
  }

  lemma ConcatImplements(c1: Code, c2: Code, a: Pattern, b: Pattern)
    requires Implements(c1, a) && Implements(c2, b) && ConcatSafe(c1, c2)
    ensures Implements(ConcatCode(c1, c2), Seq(a, b))
  {
    if TrivialConcat(c1, c2) {
      TrivialConcatImplements(c1, c2, a, b);
    } else if IsAnyCode(c1) && IsAnyCode(c2) {
      MergeImplements(c1, c2, a, b);
    } else {
      PlainConcatImplements(c1, c2, a, b);
    }
  }

  lemma DiffMeans(c1: Code, c2: Code, a: Pattern, b: Pattern)
    requires WF(c1) && WF(c2) && Means(c1, a) && Means(c2, b)
    ensures Means(DiffCode(c1, c2), Diff(a, b))
  {
    forall subj: Subject, s: int | 0 <= s <= |subj|
      ensures Exec(DiffCode(c1, c2), subj, s, Eval(Diff(a, b), subj, s))
    {
      DiffExec(c1, c2, subj, s, Eval(a, subj, s), Eval(b, subj, s));
    }
  }

  lemma DiffNotTrivial(c1: Code, c2: Code)
    ensures !IsSucc(DiffCode(c1, c2)) && !IsFail(DiffCode(c1, c2))
  {
  }

  lemma DiffImplements(c1: Code, c2: Code, a: Pattern, b: Pattern)
    requires Implements(c1, a) && Implements(c2, b)
    ensures Implements(DiffCode(c1, c2), Diff(a, b))
  {
    DiffMeans(c1, c2, a, b);
    DiffShape(c1, c2, Nullable(a), Nullable(b));
    DiffNotTrivial(c1, c2);
    ImplementsPlain(DiffCode(c1, c2), Diff(a, b));
  }

  lemma NotShortcut(a: Pattern)
    ensures ShapeOf(a).IsFailure? ==> Implements([], Not(a))
    ensures ShapeOf(a).IsEmpty? ==> Implements([Fail], Not(a))
  {
    hide WF, Total, WalkTotal, Means, Walks, Good, Implements;
    forall subj: Subject, s: int | 0 <= s <= |subj|
      ensures ShapeOf(a).IsFailure? ==> Eval(Not(a), subj, s) == Eval(True, subj, s)
      ensures ShapeOf(a).IsEmpty? ==> Eval(Not(a), subj, s) == Eval(False, subj, s)
    {
      ShapeMeaning(a, subj, s);
    }
    if ShapeOf(a).IsFailure? {
      LiteralImplements(True);
      SameMeaning([], True, Not(a));
    }
    if ShapeOf(a).IsEmpty? {
      LiteralImplements(False);
      SameMeaning([Fail], False, Not(a));
    }
  }

  lemma NotImplements(c: Code, a: Pattern)
    requires Implements(c, a)
    ensures Implements(NotCode(c), Not(a))
  {
    hide WF, Total, WalkTotal, Means, Walks, Good, Implements, DiffCode;
    BodyParts(c, a);
    if IsFail(c) || IsSucc(c) {
      NotShortcut(a);
    } else {
      LiteralImplements(True);
      DiffImplements([], c, True, a);
      SameMeaning(DiffCode([], c), Diff(True, a), Not(a));
    }
  }

  lemma AndPlainMeans(c: Code, a: Pattern)
    requires Means(c, a)
    ensures Means([Choice(|c| + 2, 0)] + c + [BackCommit(2), Fail], And(a))
  {
    forall subj: Subject, s: int | 0 <= s <= |subj|
      ensures Exec([Choice(|c| + 2, 0)] + c + [BackCommit(2), Fail], subj, s, Eval(And(a), subj, s))
    {
      AndPlainExec(c, subj, s, Eval(a, subj, s));
    }
  }

  lemma AndPlainImplements(c: Code, a: Pattern)
    requires Implements(c, a) && !IsFail(c) && !IsSucc(c) && !ToCharset(c).IsCharset?
    ensures Implements(AndCode(c), And(a))
  {
    hide WF, Total, WalkTotal, Means, Walks, Good, Implements, Nullable, ShapeOf, IsFail, IsSucc, FirstPart, Eval, AndCode, ToCharset;
    BodyParts(c, a);
    AndIs(c, a);
    AndPlainMeans(c, a);
    AndPlainShape(c, Nullable(a));
    ImplementsPlain(AndCode(c), And(a));
  }

  lemma AndIs(c: Code, a: Pattern)
    requires !IsFail(c) && !IsSucc(c) && !ToCharset(c).IsCharset? && !ShapeOf(a).IsEmpty? && !ShapeOf(a).IsFailure?
    ensures AndCode(c) == [Choice(|c| + 2, 0)] + c + [BackCommit(2), Fail] && !IsFail(AndCode(c)) && !IsSucc(AndCode(c))
    ensures Nullable(And(a)) && ShapeOf(And(a)) == ShapeOf(a)
  {
    hide ToCharset;
  }

  lemma AndImplements(c: Code, a: Pattern)
    requires Implements(c, a) && AndSafe(c)
    ensures Implements(AndCode(c), And(a))
  {
    hide WF, Total, WalkTotal, Means, Walks;
    if IsFail(c) || IsSucc(c) {
      forall subj: Subject, s: int | 0 <= s <= |subj|
        ensures Eval(And(a), subj, s) == Eval(a, subj, s)
      {
        ShapeMeaning(a, subj, s);
      }
      ShapeMeaning(a, [], 0);
      SameMeaning(c, a, And(a));
    } else {
      AndPlainImplements(c, a);
    }
  }

  lemma FullCaptureAt(c: Code, a: Pattern, kind: CapKind, idx: int, subj: Subject, s: int)
    requires 0 <= s <= |subj| && Exec(c, subj, s, Eval(a, subj, s)) && SkipChecks(c, 0, 0).0 == |c|
    ensures Exec(c + [FullCapture(idx, kind, SkipChecks(c, 0, 0).1)], subj, s, Eval(Capturing(a, kind, idx), subj, s))
  {
    hide Exec, SkipChecks;
    FullCaptureExec(c, kind, idx, subj, s, Eval(a, subj, s));
  }

  lemma FullCaptureMeans(c: Code, a: Pattern, kind: CapKind, idx: int)
    requires Means(c, a) && SkipChecks(c, 0, 0).0 == |c|
    ensures Means(c + [FullCapture(idx, kind, SkipChecks(c, 0, 0).1)], Capturing(a, kind, idx))
  {
    var d := c + [FullCapture(idx, kind, SkipChecks(c, 0, 0).1)];
    var p := Capturing(a, kind, idx);
    forall subj: Subject, s: int | 0 <= s <= |subj|
      ensures Exec(d, subj, s, Eval(p, subj, s))
    {
      FullCaptureAt(c, a, kind, idx, subj, s);
    }
  }

  lemma OpenCloseMeans(c: Code, a: Pattern, kind: CapKind, idx: int)
    requires Means(c, a)
    ensures Means([OpenCapture(idx, kind, 0)] + c + [CloseCapture(0, Cclose, 0)], Capturing(a, kind, idx))
  {
    forall subj: Subject, s: int | 0 <= s <= |subj|
      ensures Exec([OpenCapture(idx, kind, 0)] + c + [CloseCapture(0, Cclose, 0)], subj, s, Eval(Capturing(a, kind, idx), subj, s))
    {
      EvalBounds(a, subj, s);
      OpenCloseExec(c, kind, idx, subj, s, Eval(a, subj, s));
    }
  }

  lemma FullCaptureImplements(c: Code, a: Pattern, kind: CapKind, idx: int)
    requires Implements(c, a) && SkipChecks(c, 0, 0).0 == |c|
    ensures Implements(CaptureCode(c, kind, idx), Capturing(a, kind, idx))
  {
    hide WF, Total, WalkTotal, Means, Walks, Good, Implements, Nullable, ShapeOf, IsFail, IsSucc, FirstPart, Eval, SkipChecks, CaptureCode;
    BodyParts(c, a);
    CapturingIs(a, kind, idx);
    WholeCapture(c, kind, idx);
    FullCaptureMeans(c, a, kind, idx);
    FullCaptureShape(c, kind, idx, Nullable(a));
    ImplementsPlain(CaptureCode(c, kind, idx), Capturing(a, kind, idx));
  }

  lemma CapturingIs(a: Pattern, kind: CapKind, idx: int)
    ensures var p := Capturing(a, kind, idx); Nullable(p) == Nullable(a) && ShapeOf(p).Other?
  {
  }

  /** The code of a capture of nothing but checks. */
  lemma WholeCapture(c: Code, kind: CapKind, idx: int)
    requires SkipChecks(c, 0, 0).0 == |c|
    ensures var d := c + [FullCapture(idx, kind, SkipChecks(c, 0, 0).1)]; CaptureCode(c, kind, idx) == d && !IsSucc(d) && !IsFail(d)
  {
    WholeChecks(c, 0, 0);
  }

  lemma OpenCloseImplements(c: Code, a: Pattern, kind: CapKind, idx: int)
    requires Implements(c, a) && CaptureSafe(c, kind, idx) && SkipChecks(c, 0, 0).0 != |c|
    ensures Implements(CaptureCode(c, kind, idx), Capturing(a, kind, idx))
  {
    hide WF, Total, WalkTotal, Means, Walks, SkipChecks, TestsClear, NeverMisread, OptimizeCaptures, FirstPart;
    var raw := [OpenCapture(idx, kind, 0)] + c + [CloseCapture(0, Cclose, 0)];
    var d, p := CaptureCode(c, kind, idx), Capturing(a, kind, idx);
    OpenCloseMeans(c, a, kind, idx);
    OpenCloseShape(c, kind, idx, Nullable(a));
    OptimizeCapturesCorrect(raw);
    ReplacesMeans(d, raw, p);
    ImplementsPlain(d, p);
  }

  lemma CaptureImplements(c: Code, a: Pattern, kind: CapKind, idx: int)
    requires Implements(c, a) && CaptureSafe(c, kind, idx)
    ensures Implements(CaptureCode(c, kind, idx), Capturing(a, kind, idx))
  {
    if SkipChecks(c, 0, 0).0 == |c| {
      FullCaptureImplements(c, a, kind, idx);
    } else {
      OpenCloseImplements(c, a, kind, idx);
    }
  }

  lemma AtLeastKeeps(c: Code, n: nat)
    requires WF(c) && Walks(c, false) && AtLeastSafe(c, n)
    ensures var d := AtLeastCode(c, n);
      && WF(d) && Replaces(d, RawAtLeast(c, n)) && FirstPart(d) == 0 && Walks(d, n == 0)
      && IsFail(d) == IsFail(RawAtLeast(c, n))
  {
    var raw, d := RawAtLeast(c, n), AtLeastCode(c, n);
    RawAtLeastShape(c, n);
    RawAtLeastNoExit(c, n);
    if !ToCharset(c).IsCharset? {
      OptimizeCapturesCorrect(raw);
      OptimizeJumpsCorrect(OptimizeCaptures(raw));
      ReplacesTrans(d, OptimizeCaptures(raw), raw);
    }
    NoExitFirstPart(d);
  }

  lemma AtLeastShape(c: Code, n: nat)
    requires !IsSucc(c)
    ensures RawAtLeast(c, n) != [] && (IsFail(RawAtLeast(c, n)) <==> n > 0 && IsFail(c))
  {
    RawIsTimes(c, n);
    assert Loop(c) != [] && !IsFail(Loop(c));
    if n > 0 {
      assert Times(c, n)[0] == c[0];
      assert RawAtLeast(c, n)[0] == c[0];
    } else {
      assert Times(c, n) + Loop(c) == Loop(c);
    }
  }

  lemma RawAtLeastMeans(c: Code, a: Pattern, n: nat)
    requires WF(c) && Means(c, a) && Advances(a)
    ensures Means(RawAtLeast(c, n), AtLeast(a, n))
  {
    forall subj: Subject, s: int | 0 <= s <= |subj|
      ensures Exec(RawAtLeast(c, n), subj, s, Eval(AtLeast(a, n), subj, s))
    {
      RawAtLeastExec(c, a, n, subj, s);
    }
  }

  lemma AtLeastImplements(c: Code, a: Pattern, n: nat)
    requires Implements(c, a) && AtLeastSafe(c, n) && Advances(a) && !Nullable(a)
    ensures Implements(AtLeastCode(c, n), AtLeast(a, n))
  {
    AtLeastKeeps(c, n);
    ShapeMeaning(a, [], 0);
    AtLeastShape(c, n);
    RawAtLeastMeans(c, a, n);
    ReplacesMeans(AtLeastCode(c, n), RawAtLeast(c, n), AtLeast(a, n));
    ImplementsPlain(AtLeastCode(c, n), AtLeast(a, n));
  }

  lemma HeadFailOptionMeans(c: Code, a: Pattern, n: nat)
    requires WF(c) && Means(c, a) && IsHeadFail(c)
    ensures Means(OptionalHeadFail(c, n), AtMost(a, n))
  {
    forall subj: Subject, s: int | 0 <= s <= |subj|
      ensures Exec(OptionalHeadFail(c, n), subj, s, Eval(AtMost(a, n), subj, s))
    {
      OptionalHeadFailExec(c, a, n, subj, s);
    }
  }

  lemma HeadFailOptionImplements(c: Code, a: Pattern, n: nat)
    requires Implements(c, a) && n > 0 && IsHeadFail(c)
    ensures Implements(OptionalHeadFail(c, n), AtMost(a, n))
  {
    hide WF, Total, WalkTotal, Means, Walks, Good, Implements, Nullable, ShapeOf, IsFail, IsSucc, FirstPart, Eval, IsHeadFail, OptionalHeadFail, NoExit;
    BodyParts(c, a);
    OptionIs(a, n);
    OptionStarts(c, n);
    OptionalHeadFailShape(c, n);
    OptionalHeadFailSize(c, n);
    NoExitFirstPart(OptionalHeadFail(c, n));
    HeadFailOptionMeans(c, a, n);
    ImplementsPlain(OptionalHeadFail(c, n), AtMost(a, n));
  }

  lemma OptionIs(a: Pattern, n: nat)
    ensures Nullable(AtMost(a, n)) && ShapeOf(AtMost(a, n)).Other?
  {
  }

  lemma OptionStarts(c: Code, n: nat)
    requires n > 0 && IsHeadFail(c)
    ensures !IsFail(OptionalHeadFail(c, n)) && !IsSucc(OptionalHeadFail(c, n))
  {
  }

  lemma OptionsImplement(c: Code, a: Pattern, n: nat)
    requires Implements(c, a) && n > 0
    ensures Implements(Optionals(c, n), AtMost(a, n))
  {
    hide WF, Total, WalkTotal, Walks, Good, Nullable, ShapeOf, FirstPart, Optionals, Exec, EvalUpTo;
    var d, p := Optionals(c, n), AtMost(a, n);
    BodyParts(c, a);
    OptionIs(a, n);
    OptionalsCorrect(c, a, n, Nullable(a));
    assert forall subj: Subject, s: int :: Eval(p, subj, s) == EvalUpTo(a, n, subj, s);
    OptionGood(d, p);
  }

  lemma AtMostImplements(c: Code, a: Pattern, n: nat)
    requires Implements(c, a) && n > 0
    ensures Implements(AtMostCode(c, n), AtMost(a, n))
  {
    if IsHeadFail(c) {
      HeadFailOptionImplements(c, a, n);
    } else {
      OptionsImplement(c, a, n);
    }
  }

  lemma OptionGood(d: Code, p: Pattern)
    requires WF(d) && Walks(d, true) && FormShape(Option(d)) && Means(d, p)
    requires forall subj: Subject, s: int :: 0 <= s <= |subj| ==> Eval(p, subj, s).Match?
    ensures Good(d)
  {
    MeansTotal(d, p);
    forall subj: Subject, s: int | 0 <= s <= |subj|
      ensures Exec([], subj, s, Match(s, []))
    {
      EmptyExec(subj, s);
    }
    EmptyExec([], 0);
    assert d[|d|..] == [] && WithExit(d, []) == d;
    WithExitFirstPart(Option(d), []);
    assert Transparent([]);
    assert NeverFails(d);
    assert HasForm(d, Option(d));
    LiteralImplements(True);
    assert Compile(True).code == [];
  }

  lemma TrivialUnionImplements(c1: Code, c2: Code, a: Pattern, b: Pattern)
    requires Implements(c1, a) && Implements(c2, b) && (IsFail(c1) || IsFail(c2) || IsSucc(c1))
    ensures Implements(UnionCode(c1, c2), Or(a, b))
  {
    forall subj: Subject, s: int | 0 <= s <= |subj|
      ensures Eval(Or(a, b), subj, s) == if IsFail(c1) then Eval(b, subj, s) else Eval(a, subj, s)
    {
      ShapeMeaning(a, subj, s);
      ShapeMeaning(b, subj, s);
    }
    ShapeMeaning(a, [], 0);
    ShapeMeaning(b, [], 0);
    if IsFail(c1) { SameMeaning(c2, b, Or(a, b)); } else { SameMeaning(c1, a, Or(a, b)); }
  }

  lemma UnionMeans(d: Code, c1: Code, c2: Code, a: Pattern, b: Pattern)
    requires Means(c1, a) && Means(c2, b) && Total(c1) && Total(c2) && UnionOf(d, c1, c2)
    ensures Means(d, Or(a, b))
  {
    MeansTotal(c1, a);
    MeansTotal(c2, b);
    forall subj: Subject, s: int | 0 <= s <= |subj|
      ensures Exec(d, subj, s, Eval(Or(a, b), subj, s))
    {
      assert Halts(c1, subj, s) && Halts(c2, subj, s);
      assert Exec(d, subj, s, OrElse(Res(c1, subj, s), Res(c2, subj, s)));
    }
  }

  lemma UnionWalks(d: Code, c1: Code, c2: Code, a: Pattern, b: Pattern)
    requires Total(c1) && Total(c2) && UnionOf(d, c1, c2) && Walks(c1, Nullable(a)) && Walks(c2, Nullable(b))
    ensures Walks(d, Nullable(Or(a, b)))
  {
  }

  lemma UnionImplements(c1: Code, c2: Code, a: Pattern, b: Pattern)
    requires Implements(c1, a) && Implements(c2, b) && UnionSafe(c1, c2)
    ensures Implements(UnionCode(c1, c2), Or(a, b))
  {
    hide WF, Total, WalkTotal, Means, Walks, Nullable, UnionOf, SeparateParts, ToCharset, RebuildSafe;
    if IsFail(c1) || IsFail(c2) || IsSucc(c1) {
      TrivialUnionImplements(c1, c2, a, b);
    } else {
      SeparateGood(c1, c2);
      UnionMeans(UnionCode(c1, c2), c1, c2, a, b);
      SeparateNotFail(c1, c2, ToCharset(c2));
      UnionWalks(UnionCode(c1, c2), c1, c2, a, b);
    }
  }

  lemma SeparateNotFail(c1: Code, c2: Code, t2: CharsetTag)
    ensures !IsFail(SeparateParts(c1, c2, t2))
  {
    hide Interfere, ToCharset, IsHeadFail, Exclusive;
    if FirstPart(c1) == 0 { BasicNotFail(c1, c2, t2); }
  }

  lemma BasicNotFail(c1: Code, c2: Code, t2: CharsetTag)
    ensures !IsFail(BasicUnion(c1, c2, t2))
  {
  }

  // ---------- the compiler ----------

  lemma VerdictIs(c: Code, v: bool)
    requires Walks(c, v)
    ensures VerdictOf(c) == TooManyPending || VerdictOf(c) == if v then Rejects else Accepts
  {
    if Walks(c, true) { WalksUnique(c, v, true); }
  }

  /** A charset or head-fail body always consumes something. */
  lemma TestFree(c: Code, a: Pattern)
    requires Implements(c, a) && !NeedsTest(c)
    ensures !Nullable(a)
  {
    CheckWalks(c);
    WalksUnique(c, Nullable(a), false);
  }

  /** Compiler correctness.  Whatever the compiler returns for a pattern in which no shortcut is
      misused: code that implements the pattern, and then every loop body advances; or the
      "empty loop" error, and then some loop body may match the empty string; or the
      stack-limit error of the loop test. */
  lemma {:induction false} CompileCorrect(p: Pattern)
    requires Legal(p) && Safe(p)
    ensures match Compile(p)
            case Ok(c) => Implements(c, p) && LoopsAdvance(p)
            case EmptyLoop => !LoopsAdvance(p)
            case TooDeep => true
    decreases p
  {
    hide WF, Walks, Good, Implements, ConcatCode, UnionCode, DiffCode, NotCode, AndCode, AtLeastCode, AtMostCode, CaptureCode, ConcatSafe, UnionSafe, AndSafe,
      AtLeastSafe, CaptureSafe, NeedsTest, VerdictOf, Nullable;
    match p
    case Seq(a, b) =>
      CompileCorrect(a); CompileCorrect(b);
      if Compile(a).Ok? && Compile(b).Ok? { ConcatImplements(Compile(a).code, Compile(b).code, a, b); }
    case Or(a, b) =>
      CompileCorrect(a); CompileCorrect(b);
      if Compile(a).Ok? && Compile(b).Ok? { UnionImplements(Compile(a).code, Compile(b).code, a, b); }
    case Diff(a, b) =>
      CompileCorrect(a); CompileCorrect(b);
      if Compile(a).Ok? && Compile(b).Ok? { DiffImplements(Compile(a).code, Compile(b).code, a, b); }
    case Not(a) => CompileCorrect(a); if Compile(a).Ok? { NotImplements(Compile(a).code, a); }
    case And(a) => CompileCorrect(a); if Compile(a).Ok? { AndImplements(Compile(a).code, a); }
    case AtMost(a, n) => CompileCorrect(a); if Compile(a).Ok? { AtMostImplements(Compile(a).code, a, n); }
    case Capturing(a, kind, idx) => CompileCorrect(a); if Compile(a).Ok? { CaptureImplements(Compile(a).code, a, kind, idx); }
    case AtLeast(a, n) =>
      CompileCorrect(a);
      if Compile(a).Ok? { LoopImplements(Compile(a).code, a, n); }
    case _ => LiteralImplements(p);
  }

  /** The body of a repetition, by the verdict of the loop test on it. */
  lemma LoopImplements(c: Code, a: Pattern, n: nat)
    requires Implements(c, a) && AtLeastSafe(c, n)
    ensures NeedsTest(c) && VerdictOf(c).Rejects? ==> Nullable(a)
    ensures !NeedsTest(c) || VerdictOf(c).Accepts? ==> !Nullable(a) && Implements(AtLeastCode(c, n), AtLeast(a, n))
  {
    hide WF, Walks, Good, Implements, AtLeastCode, AtLeastSafe, NeedsTest, VerdictOf, Nullable, Means, Advances;
    BodyParts(c, a);
    VerdictIs(c, Nullable(a));
    if !NeedsTest(c) { TestFree(c, a); }
    if !Nullable(a) {
      BodyAdvances(a);
      AtLeastImplements(c, a, n);
    }
  }

  lemma BodyAdvances(a: Pattern)
    requires !Nullable(a)
    ensures Advances(a)
  {
    forall subj: Subject, s: int | 0 <= s <= |subj| && Eval(a, subj, s).Match?
      ensures s < Eval(a, subj, s).end
    {
      NotNullableAdvances(a, subj, s);
    }
  }

  /** The loop test is sound: a body it accepts never succeeds without advancing. */
  lemma LoopTestSound(p: Pattern, subj: Subject, s: int, r: Outcome)
    requires Legal(p) && Safe(p) && Compile(p).Ok? && VerdictOf(Compile(p).code) == Accepts
    requires 0 <= s <= |subj| && Exec(Compile(p).code, subj, s, r)
    ensures r.Match? ==> s < r.end
  {
    var c := Compile(p).code;
    CompileCorrect(p);
    VerdictIs(c, Nullable(p));
    NotNullableAdvances(p, subj, s);
    ExecUnique(c, subj, s, r, Eval(p, subj, s));
  }

  /** Every pattern the compiler accepts runs to an end on every subject. */
  lemma CompiledTerminates(p: Pattern, subj: Subject, s: int)
    requires Legal(p) && Safe(p) && Compile(p).Ok? && 0 <= s <= |subj|
    ensures exists n: nat :: RunN(Compile(p).code, subj, Start(s), n) == Final(Compile(p).code, Eval(p, subj, s))
  {
    CompileCorrect(p);
    assert Exec(Compile(p).code, subj, s, Eval(p, subj, s));
  }
}
