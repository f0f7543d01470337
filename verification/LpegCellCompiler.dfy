/** The compiler over cells, and its correctness: for every pattern in which no shortcut is misused
    and no charset misread, the cells it writes, run as cells, give the outcome that the pattern means. */
module LpegCellCompiler {
  import opened LpegMachine
  import opened LpegReference
  import opened LpegCombinators
  import opened LpegVerifier
  import opened LpegWellFormed
  import opened LpegRepetition
  import opened LpegChoice
  import opened LpegCompiler
  import opened LpegCells
  import opened LpegCellPasses
  import opened LpegCellBuild
  import opened LpegCellRelate
  import opened LpegCellShapes
  import opened LpegCellChoice
  import opened LpegCellCombine
  import opened LpegCellRun

  // ---------- the verdict of the loop test ----------

  predicate CellOverflows(p: Cells, w: Walk) {
    w.Visit? && 0 <= w.pc < |p| && p[w.pc].code == ICHOICE && Depth(w.pending) >= MAXBACK
  }

  ghost predicate CellTooDeep(p: Cells) { exists n: nat :: CellOverflows(p, CellWalkN(p, Visit(0, None), n)) }

  ghost predicate CellNullable(p: Cells) { exists n: nat :: CellWalkN(p, Visit(0, None), n) == Visit(|p|, None) }

  ghost function CellVerdictOf(p: Cells): Verdict {
    if CellTooDeep(p) then TooManyPending else if CellNullable(p) then Rejects else Accepts
  }

  lemma NeverAstray(c: Code, v: bool, n: nat)
    requires Walks(c, v)
    ensures WalkN(c, Visit(0, None), n) != Astray
  {
    if WalkN(c, Visit(0, None), n) == Astray {
      WalkUnique(c, Visit(0, None), WalkEnd(c, v), Astray);
    }
  }

  lemma {:induction false} PlacedDepth(c: Code, q: Pending)
    ensures Depth(PlacedPending(c, q)) == Depth(q)
  {
    if q.More? { PlacedDepth(c, q.older); }
  }

  lemma OverflowAgrees(c: Code, w: Walk)
    requires CodeFits(c)
    ensures CellOverflows(Encode(c), PlacedWalk(c, w)) == WalkOverflows(c, w)
  {
    hide Encode, Pos, CodeFits;
    if w.Visit? {
      PlacedDepth(c, w.pending);
      EncodeLength(c);
      PosZero(c);
      PosOrder(c, w.pc, 0);
      PosOrder(c, w.pc, |c|);
      if 0 <= w.pc < |c| { HeadAt(c, w.pc); }
    }
  }

  lemma SameWalkAt(c: Code, v: bool, n: nat)
    requires CodeFits(c) && Walks(c, v)
    ensures CellWalkN(Encode(c), Visit(0, None), n) == PlacedWalk(c, WalkN(c, Visit(0, None), n))
    ensures CellOverflows(Encode(c), CellWalkN(Encode(c), Visit(0, None), n)) == WalkOverflows(c, WalkN(c, Visit(0, None), n))
    ensures CellWalkN(Encode(c), Visit(0, None), n) == Visit(|Encode(c)|, None) <==> WalkN(c, Visit(0, None), n) == Visit(|c|, None)
  {
    hide Encode, CodeFits, WalkN, CellWalkN, CellOverflows, WalkOverflows, Pos;
    NeverAstray(c, v, n);
    PosZero(c);
    EncodeLength(c);
    WalkAgrees(c, Visit(0, None), n);
    var w := WalkN(c, Visit(0, None), n);
    OverflowAgrees(c, w);
    if w.Visit? { PosOrder(c, w.pc, |c|); }
  }

  /** The loop test gives cells the verdict that it gives the code. */
  lemma VerdictAgrees(c: Code, v: bool)
    requires CodeFits(c) && Walks(c, v)
    ensures CellVerdictOf(Encode(c)) == VerdictOf(c)
  {
    hide Encode, CodeFits, WalkN, CellWalkN, CellOverflows, WalkOverflows;
    forall n: nat
      ensures CellOverflows(Encode(c), CellWalkN(Encode(c), Visit(0, None), n)) == WalkOverflows(c, WalkN(c, Visit(0, None), n))
      ensures CellWalkN(Encode(c), Visit(0, None), n) == Visit(|Encode(c)|, None) <==> WalkN(c, Visit(0, None), n) == Visit(|c|, None)
    {
      SameWalkAt(c, v, n);
    }
  }

  // ---------- compiling ----------

  datatype CellResult = Written(p: Cells) | LoopError | DepthError

  predicate CellNeedsTest(p: Cells) { !CellTag(p).IsCharset? && !CellHeadFail(p) }

  /** The compiler, with the opcode table m. */
  ghost function CompileCells(p: Pattern, m: Table): CellResult
    requires Legal(p)
  {
    match p
    case Literal(text) => Written(Flatten(LiteralCode(text)))
    case AnyN(n) => Written(if n == 0 then [] else Flatten(AnyCode(n)))
    case NotAny(n) => Written(Flatten(NotAnyCode(n)))
    case True => Written([])
    case False => Written(InstCells(Fail))
    case Charset(cs) => Written(InstCells(Set(cs, 0)))
    case Seq(a, b) =>
      (match (CompileCells(a, m), CompileCells(b, m)) case (Written(p1), Written(p2)) => Written(CellConcat(p1, p2, m)) case (Written(_), e) => e case (e, _) => e)
    case Or(a, b) =>
      (match (CompileCells(a, m), CompileCells(b, m)) case (Written(p1), Written(p2)) => Written(CellUnion(p1, p2)) case (Written(_), e) => e case (e, _) => e)
    case Diff(a, b) =>
      (match (CompileCells(a, m), CompileCells(b, m)) case (Written(p1), Written(p2)) => Written(CellDiff(p1, p2)) case (Written(_), e) => e case (e, _) => e)
    case Not(a) => (match CompileCells(a, m) case Written(p1) => Written(CellNot(p1)) case e => e)
    case And(a) => (match CompileCells(a, m) case Written(p1) => Written(CellAnd(p1)) case e => e)
    case AtLeast(a, n) =>
      (match CompileCells(a, m)
       case Written(p1) =>
         if CellNeedsTest(p1) && CellVerdictOf(p1).TooManyPending? then DepthError
         else if CellNeedsTest(p1) && CellVerdictOf(p1).Rejects? then LoopError
         else Written(CellAtLeast(p1, n, m))
       case e => e)
    case AtMost(a, n) => (match CompileCells(a, m) case Written(p1) => Written(CellAtMost(p1, n)) case e => e)
    case Capturing(a, kind, idx) => (match CompileCells(a, m) case Written(p1) => Written(CellCapture(p1, kind, idx, m)) case e => e)
    case EmptyCap(kind, idx) => Written(InstCells(EmptyCapture(idx, kind, 0)))
  }

  /** The cells of what the compiler over instructions returns. */
  ghost function Encoded(r: Compiled): CellResult {
    match r
    case Ok(c) => Written(Encode(c))
    case EmptyLoop => LoopError
    case TooDeep => DepthError
  }

  lemma PlainAgrees(p: Pattern, m: Table)
    requires p.Literal? || p.True? || p.False? || p.Charset? || p.EmptyCap? || p.AnyN? || p.NotAny?
    requires Legal(p)
    ensures CompileCells(p, m) == Encoded(Compile(p))
  {
    hide Encode, Flatten, InstCells, AnyCode;
    EncodeNone();
    match p
    case Literal(text) => LiteralPlain(text);
    case AnyN(n) => if n > 0 { AnyCodePlain(n); }
    case NotAny(n) => NotAnyPlain(n);
    case True =>
    case False => EncodeOne(Fail);
    case Charset(cs) => EncodeOne(Set(cs, 0));
    case EmptyCap(kind, idx) => EncodeOne(EmptyCapture(idx, kind, 0));
  }

  lemma LiteralPlain(text: seq<Byte>)
    ensures Encode(LiteralCode(text)) == Flatten(LiteralCode(text))
  {
    LiteralChars(text);
    PlainCode(LiteralCode(text));
  }

  lemma {:induction false} LiteralChars(text: seq<Byte>)
    ensures forall k :: 0 <= k < |text| ==> LiteralCode(text)[k] == Char(text[k], 0)
  {
    if text != [] { LiteralChars(text[1..]); }
  }

  lemma NotAnyPlain(n: nat)
    requires n > 0
    ensures Encode(NotAnyCode(n)) == Flatten(NotAnyCode(n))
  {
    if n > UCHAR_MAX { AnyCodePlain(n - UCHAR_MAX); }
    PlainCode(NotAnyCode(n));
  }

  lemma NeedsTestAgrees(c: Code)
    requires WF(c)
    ensures CellNeedsTest(Encode(c)) == NeedsTest(c)
  {
    hide WF, Encode, CellHeadFail, IsHeadFail, CellTag, ToCharset;
    WFFits(c);
    TagAgrees(c);
    HeadFailAgrees(c);
  }

  lemma SeqAgrees(c1: Code, c2: Code, m: Table)
    requires WF(c1) && WF(c2) && ConcatSafe(c1, c2) && IsTable(m)
    ensures CellConcat(Encode(c1), Encode(c2), m) == Encode(ConcatCode(c1, c2))
  {
    hide WF, Encode, CellConcat, ConcatCode, RawClear, TestsClear, MergeSafe;
    NeverMisreadIs(c1 + c2);
    ConcatExact(c1, c2, m);
  }

  lemma LoopAgrees(c: Code, n: nat, m: Table)
    requires WF(c) && Walks(c, false) && AtLeastSafe(c, n) && IsTable(m)
    ensures CellAtLeast(Encode(c), n, m) == Encode(AtLeastCode(c, n))
  {
    hide WF, Encode, CellAtLeast, AtLeastCode, RawClear, TestsClear, Walks, ToCharset;
    NeverMisreadIs(RawAtLeast(c, n));
    AtLeastExact(c, n, m);
  }

  lemma WrapAgrees(c: Code, kind: CapKind, idx: int, v: bool, m: Table)
    requires WF(c) && Walks(c, v) && CaptureSafe(c, kind, idx) && IsTable(m)
    ensures CellCapture(Encode(c), kind, idx, m) == Encode(CaptureCode(c, kind, idx))
  {
    hide WF, Encode, CellCapture, CaptureCode, RawClear, TestsClear, Walks, SkipChecks;
    NeverMisreadIs(Wrapped(c, kind, idx));
    CaptureExact(c, kind, idx, v, m);
  }

  lemma ImplementsFacts(c: Code, p: Pattern)
    requires Implements(c, p)
    ensures WF(c) && Good(c) && Walks(c, Nullable(p)) && CodeFits(c)
  {
    hide CodeFits;
    WFFits(c);
  }

  /** What is known of the code of a subpattern. */
  lemma SubFacts(p: Pattern)
    requires Legal(p) && Safe(p) && Compile(p).Ok?
    ensures var c := Compile(p).code; WF(c) && Good(c) && Walks(c, Nullable(p)) && CodeFits(c) && Implements(c, p)
  {
    CompileCorrect(p);
    ImplementsFacts(Compile(p).code, p);
  }

  /** Over cells the compiler returns the cells of the code it returns over instructions, and the
      same errors. */
  lemma {:induction false} CompilersAgree(p: Pattern, m: Table)
    requires Legal(p) && Safe(p) && IsTable(m)
    ensures CompileCells(p, m) == Encoded(Compile(p))
    decreases p
  {
    hide WF, Good, Walks, CodeFits, Implements, Encode, IsTable, CellConcat, CellUnion, CellDiff, CellNot, CellAnd, CellAtLeast, CellAtMost, CellCapture,
      ConcatCode, UnionCode, DiffCode, NotCode, AndCode, AtLeastCode, AtMostCode, CaptureCode, ConcatSafe, UnionSafe, AtLeastSafe, CaptureSafe, AndSafe,
      CellVerdictOf, VerdictOf, CellNeedsTest, NeedsTest;
    match p
    case Seq(a, b) =>
      CompilersAgree(a, m); CompilersAgree(b, m);
      if Compile(a).Ok? && Compile(b).Ok? { SubFacts(a); SubFacts(b); SeqAgrees(Compile(a).code, Compile(b).code, m); }
    case Or(a, b) =>
      CompilersAgree(a, m); CompilersAgree(b, m);
      if Compile(a).Ok? && Compile(b).Ok? { SubFacts(a); SubFacts(b); ChoiceSafely(Compile(a).code, Compile(b).code); }
    case Diff(a, b) =>
      CompilersAgree(a, m); CompilersAgree(b, m);
      if Compile(a).Ok? && Compile(b).Ok? { SubFacts(a); SubFacts(b); DiffAgrees(Compile(a).code, Compile(b).code); }
    case Not(a) => CompilersAgree(a, m); if Compile(a).Ok? { SubFacts(a); NotAgrees(Compile(a).code); }
    case And(a) => CompilersAgree(a, m); if Compile(a).Ok? { SubFacts(a); AndAgrees(Compile(a).code); }
    case AtMost(a, n) => CompilersAgree(a, m); if Compile(a).Ok? { SubFacts(a); AtMostAgrees(Compile(a).code, n); }
    case Capturing(a, kind, idx) => CompilersAgree(a, m); if Compile(a).Ok? { SubFacts(a); WrapAgrees(Compile(a).code, kind, idx, Nullable(a), m); }
    case AtLeast(a, n) => CompilersAgree(a, m); if Compile(a).Ok? { SubFacts(a); RepeatAgrees(Compile(a).code, a, n, m); }
    case _ => PlainAgrees(p, m);
  }

  lemma ChoiceSafely(c1: Code, c2: Code)
    requires Good(c1) && Good(c2) && UnionSafe(c1, c2)
    ensures CellUnion(Encode(c1), Encode(c2)) == Encode(UnionCode(c1, c2))
  {
    hide Good, Encode, CellUnion, UnionCode, RebuildSafe, PartsClear;
    UnionExact(c1, c2);
  }

  /** The body of a repetition: the same verdict, and the same code once it is accepted. */
  lemma RepeatAgrees(c: Code, a: Pattern, n: nat, m: Table)
    requires IsTable(m) && WF(c) && AtLeastSafe(c, n) && Implements(c, a)
    ensures CellNeedsTest(Encode(c)) == NeedsTest(c) && CellVerdictOf(Encode(c)) == VerdictOf(c)
    ensures !NeedsTest(c) || VerdictOf(c).Accepts? ==> CellAtLeast(Encode(c), n, m) == Encode(AtLeastCode(c, n))
  {
    hide WF, Good, Walks, CodeFits, Implements, Encode, IsTable, CellAtLeast, AtLeastCode, AtLeastSafe, CellVerdictOf, VerdictOf, CellNeedsTest, NeedsTest;
    ImplementsFacts(c, a);
    NeedsTestAgrees(c);
    VerdictAgrees(c, Nullable(a));
    VerdictIs(c, Nullable(a));
    if !NeedsTest(c) { TestFree(c, a); }
    if !Nullable(a) { LoopAgrees(c, n, m); }
  }

  /** Whatever the compiler writes does, as cells, what the pattern means: on every subject and from
      every position the run ends, and with the outcome of the pattern. */
  lemma CellsCorrect(p: Pattern, m: Table, subj: Subject, s: int, r: Outcome)
    requires Legal(p) && Safe(p) && IsTable(m) && CompileCells(p, m).Written? && 0 <= s <= |subj|
    ensures CellExec(CompileCells(p, m).p, subj, s, r) <==> r == Eval(p, subj, s)
  {
    hide WF, Good, Walks, CodeFits, Encode, CellExec, Exec, IsTable;
    CompilersAgree(p, m);
    SubFacts(p);
    CompileCorrect(p);
    var c := Compile(p).code;
    ExecAgrees(c, subj, s, r);
    assert Exec(c, subj, s, Eval(p, subj, s));
    if Exec(c, subj, s, r) { ExecUnique(c, subj, s, r, Eval(p, subj, s)); }
  }

  /** The errors of the compiler over cells: the "empty loop" error only for a loop body that is
      nullable, and no error of that kind for code that is written. */
  lemma CellErrors(p: Pattern, m: Table)
    requires Legal(p) && Safe(p) && IsTable(m)
    ensures CompileCells(p, m).LoopError? ==> !LoopsAdvance(p)
    ensures CompileCells(p, m).Written? ==> LoopsAdvance(p)
  {
    CompilersAgree(p, m);
    CompileCorrect(p);
  }
}
