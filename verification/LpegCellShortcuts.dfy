/** What goes wrong when cells of a charset are taken for instructions: one input for each of the two
    places where the builder steps back by one cell, and one for a test that leads into a charset. */
module LpegCellShortcuts {
  import opened LpegMachine
  import opened LpegReference
  import opened LpegCombinators
  import opened LpegVerifier
  import opened LpegCells
  import opened LpegCellPasses
  import opened LpegCellBuild
  import opened LpegCellRelate
  import opened LpegCellRun
  import opened LpegCompiler
  import opened LpegCellCompiler

  // ---------- cells of a given charset ----------

  lemma {:induction false} NoBits(cs: set<Byte>, from: nat, n: nat)
    requires forall b: Byte :: b in cs ==> b < from || from + n <= b
    ensures Bits(cs, from, n) == 0
    decreases n
  {
    if n > 0 { NoBits(cs, from + 1, n - 1); }
  }

  lemma EmptyCell(cs: set<Byte>, k: nat)
    requires forall b: Byte :: b in cs ==> b < 32 * k || 32 * k + 32 <= b
    ensures RawCell(cs, k) == Cell(0, 0, 0)
  {
    hide CharsetByte;
    NoByte(cs, 4 * k); NoByte(cs, 4 * k + 1); NoByte(cs, 4 * k + 2); NoByte(cs, 4 * k + 3);
  }

  lemma NoByte(cs: set<Byte>, k: nat)
    requires forall b: Byte :: b in cs ==> b < 8 * k || 8 * k + 8 <= b
    ensures CharsetByte(cs, k) == 0
  {
    NoBits(cs, 8 * k, 8);
  }

  /** The byte of the eight members from `from` on. */
  lemma ByteIs(cs: set<Byte>, from: nat)
    ensures Bits(cs, from, 8) == BitAt(cs, from) + 2 * BitAt(cs, from + 1) + 4 * BitAt(cs, from + 2) + 8 * BitAt(cs, from + 3)
      + 16 * BitAt(cs, from + 4) + 32 * BitAt(cs, from + 5) + 64 * BitAt(cs, from + 6) + 128 * BitAt(cs, from + 7)
  {
    hide BitAt;
    NextBits(cs, from, 8); NextBits(cs, from + 1, 7); NextBits(cs, from + 2, 6); NextBits(cs, from + 3, 5);
    NextBits(cs, from + 4, 4); NextBits(cs, from + 5, 3); NextBits(cs, from + 6, 2); NextBits(cs, from + 7, 1);
  }

  function BitAt(cs: set<Byte>, k: nat): nat { if k in cs then 1 else 0 }

  lemma NextBits(cs: set<Byte>, from: nat, n: nat)
    requires n > 0
    ensures Bits(cs, from, n) == BitAt(cs, from) + 2 * Bits(cs, from + 1, n - 1)
    ensures n == 1 ==> Bits(cs, from + 1, n - 1) == 0
  {
  }

  // ---------- a charset before a capture ----------

  const CaptureSet: set<Byte> := {225, 228}

  /** Two members of a charset, the position, and a byte. */
  const MisreadPattern: Pattern := Seq(Seq(Charset(CaptureSet), EmptyCap(Cposition, 0)), Literal([97]))

  lemma CaptureSetCells()
    ensures RawCell(CaptureSet, 7) == Cell(IEMPTYCAPTURE, 0, 0) && RawCell(CaptureSet, 6) == Cell(0, 0, 0)
  {
    hide CharsetByte;
    var cs := CaptureSet;
    EmptyCell(cs, 6);
    CaptureByte();
    NoByte(cs, 29); NoByte(cs, 30); NoByte(cs, 31);
  }

  lemma CaptureByte()
    ensures CharsetByte(CaptureSet, 28) == 18
  {
    hide Bits;
    ByteIs(CaptureSet, 224);
  }

  const Position: Cell := Cell(IEMPTYCAPTURE, 1, 0)
  const LetterA: Cell := Cell(ICHAR, 97, 0)

  /** What the builder makes of the two parts: the last cell of the charset goes with the capture. */
  function Ruined(): Cells {
    [Cell(ISET, 0, 0)] + RawCells(CaptureSet)[..7] + [LetterA, Cell(IEMPTYCAPTURE, 16, 0), Cell(IEMPTYCAPTURE, 17, 0)]
  }

  lemma MisreadPass(m: Table)
    requires IsTable(m)
    ensures CellOptimizeCaptures([Cell(ISET, 0, 0)] + RawCells(CaptureSet) + [Position, LetterA], m) == Ruined()
  {
    hide RawCell;
    CaptureSetCells();
    var raw := RawCells(CaptureSet);
    assert raw[6] == Cell(0, 0, 0) && raw[7] == Cell(IEMPTYCAPTURE, 0, 0);
    var p := [Cell(ISET, 0, 0)] + raw + [Position, LetterA];
    assert p[9] == Position && p[10] == LetterA && p[8] == raw[7] && p[7] == raw[6] && |p| == 11;
    assert CellPass(p, 0, 0, m) == CellPass(p, 9, 0, m);
    assert CellGroupStart(p, 7 + 1, 0, m) == 8 && CellGroupStart(p, 9, 0, m) == 8;
    assert CellMaxOff(p, 9, 9) == 0 && CellMaxOff(p, 8, 9) == 0;
    assert CellSkip(p, 11, 1) == (0, 0) && CellSkip(p, 10, 0) == (1, 1);
    var d := CellMove(p, 8, 9, 10, 1);
    assert CellDelay(p[8..10], 1) == [Cell(IEMPTYCAPTURE, 16, 0), Cell(IEMPTYCAPTURE, 17, 0)];
    assert p[..8] == [Cell(ISET, 0, 0)] + raw[..7] && p[10..11] == [LetterA] && p[11..] == [];
    assert d == Ruined();
    assert CellPass(d, 11, 0, m) == d;
  }

  lemma MisreadCells(m: Table)
    requires IsTable(m)
    ensures Legal(MisreadPattern) && CompileCells(MisreadPattern, m) == Written(Ruined())
  {
    hide RawCells, CellOptimizeCaptures, CellConcat, Flatten;
    MisreadParts(m);
    LetterCells();
    var a := [Cell(ISET, 0, 0)] + RawCells(CaptureSet);
    MisreadConcat(a, [Position], m);
    NoCheckBehind(a + [Position], m);
    MisreadConcat(a + [Position], [LetterA], m);
    assert a + [Position] + [LetterA] == [Cell(ISET, 0, 0)] + RawCells(CaptureSet) + [Position, LetterA];
    MisreadPass(m);
  }

  lemma LetterCells()
    ensures Flatten(LiteralCode([97])) == [LetterA]
  {
    assert LiteralCode([97]) == [Char(97, 0)];
    FlattenOne(Char(97, 0));
  }

  lemma MisreadParts(m: Table)
    ensures CompileCells(Charset(CaptureSet), m) == Written([Cell(ISET, 0, 0)] + RawCells(CaptureSet))
    ensures CompileCells(EmptyCap(Cposition, 0), m) == Written([Position])
  {
    hide RawCells;
  }

  lemma MisreadConcat(a: Cells, b: Cells, m: Table)
    requires |a| > 1 && a[0] == Cell(ISET, 0, 0) && (b == [Position] || b == [LetterA])
    ensures CellConcat(a, b, m) == CellOptimizeCaptures(a + b, m)
  {
    hide CellOptimizeCaptures;
  }

  /** With nothing behind its capture the first part stays as it is. */
  lemma NoCheckBehind(p: Cells, m: Table)
    requires IsTable(m) && |p| == 10 && p[0] == Cell(ISET, 0, 0) && p[9] == Position
    ensures CellOptimizeCaptures(p, m) == p
  {
    assert CellPass(p, 0, 0, m) == CellPass(p, 9, 0, m);
    assert CellPass(p, 9, 0, m) == CellPass(p, 10, 0, m) == p;
  }

  /** The pattern matches the two bytes 225 and 97; the cells written for it fail on them. */
  lemma MisreadGoesWrong(m: Table)
    requires IsTable(m)
    ensures Legal(MisreadPattern) && CompileCells(MisreadPattern, m).Written?
    ensures Eval(MisreadPattern, [225, 97], 0).Match? && Eval(MisreadPattern, [225, 97], 0).end == 2
    ensures CellExec(CompileCells(MisreadPattern, m).p, [225, 97], 0, NoMatch)
  {
    hide CompileCells, RawCells, CharsetOf, TestChar;
    MisreadCells(m);
    MisreadMeaning();
    var p, subj := Ruined(), [225, 97];
    RuinedSet();
    assert InstAt(p, 0) == Known(Set(CharsetAt(p, 0), 0));
    assert MachineStep(p, subj, Start(0)) == Failed;
    assert CellRunN(p, subj, Failed, 0) == Failed;
    assert CellRunN(p, subj, Start(0), 1) == Failed;
  }

  lemma MisreadMeaning()
    ensures Eval(MisreadPattern, [225, 97], 0).Match? && Eval(MisreadPattern, [225, 97], 0).end == 2
  {
    var subj: Subject := [225, 97];
    assert Eval(Charset(CaptureSet), subj, 0) == Match(1, []);
    assert Eval(Seq(Charset(CaptureSet), EmptyCap(Cposition, 0)), subj, 0).end == 1;
    assert subj[1..2] == [97];
    assert Eval(Literal([97]), subj, 1) == Match(2, []);
  }

  lemma RuinedSet()
    ensures |Ruined()| == 11 && Ruined()[0] == Cell(ISET, 0, 0) && 225 !in CharsetAt(Ruined(), 0)
  {
    hide RawCells;
    var p := Ruined();
    assert p[1..9][7] == p[8] == LetterA;
    assert !TestBit(1, 1);
    assert !TestChar(p[1..9], 225);
  }

  // ---------- a charset before the end of an alternative ----------

  const JumpSet: set<Byte> := {224, 225, 226, 240}

  const OptionPattern: Pattern := Or(AtMost(Charset(JumpSet), 1), Literal([97]))

  lemma JumpSetCells()
    ensures RawCell(JumpSet, 7) == Cell(IJMP, 0, 1)
  {
    hide CharsetByte;
    var cs := JumpSet;
    JumpBytes();
    NoByte(cs, 29); NoByte(cs, 31);
  }

  lemma JumpBytes()
    ensures CharsetByte(JumpSet, 28) == 7 && CharsetByte(JumpSet, 30) == 1
  {
    hide CharsetByte;
    LowByte();
    HighByte();
  }

  lemma LowByte()
    ensures CharsetByte(JumpSet, 28) == 7
  {
    hide Bits;
    ByteIs(JumpSet, 224);
    assert BitAt(JumpSet, 227) == 0 && BitAt(JumpSet, 228) == 0 && BitAt(JumpSet, 229) == 0 && BitAt(JumpSet, 230) == 0 && BitAt(JumpSet, 231) == 0;
  }

  lemma HighByte()
    ensures CharsetByte(JumpSet, 30) == 1
  {
    hide Bits;
    ByteIs(JumpSet, 240);
    assert BitAt(JumpSet, 241) == 0 && BitAt(JumpSet, 242) == 0 && BitAt(JumpSet, 243) == 0 && BitAt(JumpSet, 244) == 0;
    assert BitAt(JumpSet, 245) == 0 && BitAt(JumpSet, 246) == 0 && BitAt(JumpSet, 247) == 0;
  }

  /** The option over cells, with the last cell of its charset changed, and an empty choice behind it. */
  function Separated(): Cells {
    [Cell(ISET, 0, 9)] + RawCells(JumpSet)[..7] + [Cell(IJMP, 0, 4), Cell(ICHOICE, 0, 2), Cell(ICOMMIT, 0, 2), LetterA]
  }

  lemma OptionCells(m: Table)
    ensures Legal(AtMost(Charset(JumpSet), 1)) && CompileCells(AtMost(Charset(JumpSet), 1), m) == Written([Cell(ISET, 0, 9)] + RawCells(JumpSet))
  {
    hide RawCells;
    var p := [Cell(ISET, 0, 0)] + RawCells(JumpSet);
    assert InstCells(Set(JumpSet, 0)) == p && CellNoFail(p, 9, 9) && CellHeadFail(p);
    assert CellOptionalHeadFail(p, 0) == [];
    assert CellAtMost(p, 1) == CellCheckToTest(p, 9) + [] == [Cell(ISET, 0, 9)] + RawCells(JumpSet);
  }

  lemma RestOfChoice(p2: Cells, t2: CharsetTag)
    requires p2 == [LetterA]
    ensures CellSeparate([], p2, t2) == [Cell(ICHOICE, 0, 2), Cell(ICOMMIT, 0, 2), LetterA]
  {
    assert CellFirstPart([]) == 0;
    assert CellBasicUnion([], p2, t2) == CellOptimizeChoice(InstCells(Choice(2, 0)) + [] + InstCells(Commit(2)) + p2);
    assert InstCells(Choice(2, 0)) + [] + InstCells(Commit(2)) + p2 == [Cell(ICHOICE, 0, 2), Cell(ICOMMIT, 0, 2), LetterA];
  }

  /** The charset is taken for an alternative that ends in a jump. */
  lemma TakenApart(p: Cells)
    requires p == [Cell(ISET, 0, 9)] + RawCells(JumpSet)
    ensures CellUnion(p, [LetterA]) == Separated()
  {
    hide RawCells, CharsetOf, CellFill;
    var p2 := [LetterA];
    JumpSetCells();
    LastRaw(JumpSet);
    assert |p| == 9 && p[8] == Cell(IJMP, 0, 1) && CellFirstPart(p) == 9;
    LetterTag();
    RestOfChoice(p2, CellTag(p2));
    JumpSetFill(p);
    assert p[..9] == p && p[9..] == [];
    assert !CellInterfere(p, CellTag(p2));
    var rest := CellSeparate([], p2, CellTag(p2));
    assert CellPlace(p, rest, CellTag(p2)) == p[..8] + [CellSetOffset(p[8], 4)] + rest;
    assert p[..8] == [Cell(ISET, 0, 9)] + RawCells(JumpSet)[..7];
  }

  lemma LastRaw(cs: set<Byte>)
    ensures RawCells(cs)[7] == RawCell(cs, 7)
  {
  }

  lemma LetterTag()
    ensures CellTag([LetterA]) == IsCharset({97}) && !CellIsFail([LetterA])
  {
    assert CellFill([LetterA]) == {97};
  }

  lemma JumpSetFill(p: Cells)
    requires p == [Cell(ISET, 0, 9)] + RawCells(JumpSet)
    ensures CellFill(p) == JumpSet
  {
    assert p[1..9] == RawCells(JumpSet);
    CharsetBack(JumpSet);
  }

  lemma PartCells(m: Table)
    ensures Legal(OptionPattern) && CompileCells(OptionPattern, m) == Written(Separated())
  {
    hide RawCells, CellUnion, Flatten, CellAtMost;
    OptionCells(m);
    LetterCells();
    TakenApart([Cell(ISET, 0, 9)] + RawCells(JumpSet));
  }

  /** The pattern takes the byte 240; the cells written for it leave it. */
  lemma SeparatedGoesWrong(m: Table)
    ensures Legal(OptionPattern) && CompileCells(OptionPattern, m).Written?
    ensures Eval(OptionPattern, [240], 0) == Match(1, [])
    ensures CellExec(CompileCells(OptionPattern, m).p, [240], 0, Match(0, []))
  {
    hide CompileCells;
    PartCells(m);
    OptionMeaning();
    SeparatedRun();
  }

  lemma OptionMeaning()
    ensures Eval(OptionPattern, [240], 0) == Match(1, [])
  {
    var subj: Subject := [240];
    assert Eval(Charset(JumpSet), subj, 0) == Match(1, []);
    assert EvalUpTo(Charset(JumpSet), 1, subj, 0) == Match(1, []);
  }

  lemma SeparatedRun()
    ensures CellExec(Separated(), [240], 0, Match(0, []))
  {
    hide RawCells, CharsetOf, Separated, MachineStep;
    var p, subj := Separated(), [240];
    SeparatedSet();
    TestJumps(p, subj);
    ChoiceThenCommit(p, subj);
    var stk := Push(Frame(11, 0, 0), Empty);
    assert CellRunN(p, subj, Run(12, 0, Empty, []), 0) == Run(12, 0, Empty, []);
    assert CellRunN(p, subj, Run(10, 0, stk, []), 1) == Run(12, 0, Empty, []);
    assert CellRunN(p, subj, Run(9, 0, Empty, []), 2) == Run(12, 0, Empty, []);
    assert CellRunN(p, subj, Start(0), 3) == CellFinal(p, Match(0, []));
  }

  lemma TestJumps(p: Cells, subj: Subject)
    requires |p| == 12 && p[0] == Cell(ISET, 0, 9) && subj == [240] && 240 !in CharsetAt(p, 0)
    ensures MachineStep(p, subj, Start(0)) == Run(9, 0, Empty, [])
  {
    hide CharsetAt;
    assert InstAt(p, 0) == Known(Set(CharsetAt(p, 0), 9));
  }

  lemma ChoiceThenCommit(p: Cells, subj: Subject)
    requires |p| == 12 && p[9] == Cell(ICHOICE, 0, 2) && p[10] == Cell(ICOMMIT, 0, 2)
    ensures var stk := Push(Frame(11, 0, 0), Empty);
      MachineStep(p, subj, Run(9, 0, Empty, [])) == Run(10, 0, stk, []) && MachineStep(p, subj, Run(10, 0, stk, [])) == Run(12, 0, Empty, [])
  {
    hide CharsetAt;
    assert InstAt(p, 9) == Known(Choice(2, 0)) && InstAt(p, 10) == Known(Commit(2));
  }

  lemma SeparatedSet()
    ensures |Separated()| == 12 && Separated()[0] == Cell(ISET, 0, 9) && Separated()[9] == Cell(ICHOICE, 0, 2) && Separated()[10] == Cell(ICOMMIT, 0, 2) && 240 !in CharsetAt(Separated(), 0)
  {
    hide RawCells;
    var p := Separated();
    assert p[1..9][7] == p[8] == Cell(IJMP, 0, 4);
    assert CellByte(p[8], 2) == 4 && !TestBit(4, 0);
    assert !TestChar(p[1..9], 240);
  }

  // ---------- a test into a charset, in a loop ----------

  const Digits: set<Byte> := {48, 49}

  /** An optional byte with its position, and one of two digits; and that any number of times. */
  const LandingBody: Pattern := Seq(AtMost(Seq(Literal([120]), EmptyCap(Cposition, 0)), 1), Charset(Digits))
  const LandingLoop: Pattern := AtLeast(LandingBody, 0)

  const LetterX: Cell := Cell(ICHAR, 120, 0)

  /** Cells that hold nothing the machine or the loop test would stop at: read as instructions, they ask
      for any 0 bytes. */
  predicate AsksNothing(raw: Cells) { |raw| == RAWCELLS && (forall k :: 0 <= k < RAWCELLS ==> raw[k].code == IANY && raw[k].aux == 0) && raw[0].offset == 0 }

  lemma DigitsCells()
    ensures AsksNothing(RawCells(Digits))
  {
    hide CharsetByte;
    forall k: nat | k < RAWCELLS ensures RawCell(Digits, k).code == IANY && RawCell(Digits, k).aux == 0 { NoByte(Digits, 4 * k); NoByte(Digits, 4 * k + 1); }
    EmptyCell(Digits, 0);
  }

  /** The body as it is written: the capture has moved over the charset, and the test leads into it. */
  function LandingCells(raw: Cells): Cells { [Cell(ICHAR, 120, 2), Cell(ISET, 0, 0)] + raw + [Cell(IEMPTYCAPTURE, 17, 0)] }

  function LoopCellsOf(raw: Cells): Cells { [Cell(ICHOICE, 0, 13)] + LandingCells(raw) + [Cell(IPARTIALCOMMIT, 0, -11)] }

  lemma LandingPass(raw: Cells, m: Table)
    requires IsTable(m) && |raw| == RAWCELLS
    ensures CellOptimizeCaptures([Cell(ICHAR, 120, 2), Position] + ([Cell(ISET, 0, 0)] + raw), m) == LandingCells(raw)
  {
    var p := [Cell(ICHAR, 120, 2), Position] + ([Cell(ISET, 0, 0)] + raw);
    assert |p| == 11 && p[0] == Cell(ICHAR, 120, 2) && p[1] == Position && p[2] == Cell(ISET, 0, 0);
    assert CellPass(p, 0, 0, m) == CellPass(p, 1, 0, m);
    assert CellGroupStart(p, 1, 0, m) == 1 && CellMaxOff(p, 1, 1) == 0;
    assert CellSkip(p, 11, 1) == (0, 0) && CellSkip(p, 2, 0) == (9, 1);
    var d := CellMove(p, 1, 1, 10, 1);
    assert CellDelay(p[1..2], 1) == [Cell(IEMPTYCAPTURE, 17, 0)] && p[2..11] == [Cell(ISET, 0, 0)] + raw && p[..1] == [p[0]];
    assert d == LandingCells(raw);
    assert CellPass(d, 11, 0, m) == d;
  }

  lemma OptionalX(m: Table)
    requires IsTable(m)
    ensures CompileCells(AtMost(Seq(Literal([120]), EmptyCap(Cposition, 0)), 1), m) == Written([Cell(ICHAR, 120, 2), Position])
  {
    hide CellConcat, CellAtMost, Flatten;
    var c := [LetterX, Position];
    assert LiteralCode([120]) == [Char(120, 0)];
    FlattenOne(Char(120, 0));
    assert CompileCells(Literal([120]), m) == Written([LetterX]);
    assert CompileCells(EmptyCap(Cposition, 0), m) == Written([Position]);
    OptionalParts(m);
  }

  lemma OptionalParts(m: Table)
    requires IsTable(m)
    ensures CellConcat([LetterX], [Position], m) == [LetterX, Position] && CellAtMost([LetterX, Position], 1) == [Cell(ICHAR, 120, 2), Position]
  {
    var c := [LetterX, Position];
    assert [LetterX] + [Position] == c;
    assert CellPass(c, 2, 0, m) == c && CellPass(c, 1, 0, m) == c && CellOptimizeCaptures(c, m) == c;
    assert CellNoFail(c, 2, 2) && CellNoFail(c, 1, 2) && CellHeadFail(c);
    assert CellOptionalHeadFail(c, 0) == [];
    assert CellOptionalHeadFail(c, 1) == CellCheckToTest(c, 2) + [];
  }

  lemma LandingWritten(m: Table)
    requires IsTable(m)
    ensures Legal(LandingBody) && CompileCells(LandingBody, m) == Written(LandingCells(RawCells(Digits)))
  {
    hide CellConcat, CellAtMost, RawCells, LandingCells;
    OptionalX(m);
    assert CompileCells(Charset(Digits), m) == Written([Cell(ISET, 0, 0)] + RawCells(Digits));
    LandingConcat(RawCells(Digits), m);
  }

  lemma LandingConcat(raw: Cells, m: Table)
    requires IsTable(m) && |raw| == RAWCELLS
    ensures CellConcat([Cell(ICHAR, 120, 2), Position], [Cell(ISET, 0, 0)] + raw, m) == LandingCells(raw)
  {
    hide CellOptimizeCaptures, LandingCells;
    LandingPass(raw, m);
  }

  /** The loop test takes the end of the walk for a failure. */
  lemma LandingAccepted(raw: Cells)
    requires AsksNothing(raw)
    ensures CellNeedsTest(LandingCells(raw)) && CellVerdictOf(LandingCells(raw)) == Accepts
  {
    var p := LandingCells(raw);
    assert p[0] == Cell(ICHAR, 120, 2) && p[2] == raw[0];
    var w0, w1 := Visit(0, None), Visit(2, None);
    assert CellWalkStep(p, w0) == w1 && CellWalkStep(p, w1) == Exhausted;
    forall n: nat
      ensures CellWalkN(p, w0, n) == if n == 0 then w0 else if n == 1 then w1 else Exhausted
    {
      if n == 1 { assert CellWalkN(p, w1, 0) == w1; }
      if n >= 2 { CellWalkNHalted(p, Exhausted, n - 2); assert CellWalkN(p, w1, n - 1) == CellWalkN(p, Exhausted, n - 2); }
    }
  }

  lemma LoopPasses(raw: Cells, m: Table)
    requires |raw| == RAWCELLS && IsTable(m)
    ensures CellAtLeast(LandingCells(raw), 0, m) == LoopCellsOf(raw)
  {
    hide CellOptimizeCaptures, CellOptimizeJumps;
    var b, p := LandingCells(raw), LoopCellsOf(raw);
    assert b[0] == Cell(ICHAR, 120, 2) && |b| == 11 && CellTag(b) == NoInfo && !CellHeadFail(b);
    assert CellTimes(b, 0) == [];
    assert [] + InstCells(Choice(13, 0)) + b + InstCells(PartialCommit(-11)) == p;
    LoopCaptures(p, m);
    LoopJumps(p);
  }

  predicate LoopShape(p: Cells) {
    |p| == 13 && p[0] == Cell(ICHOICE, 0, 13) && p[1] == Cell(ICHAR, 120, 2) && p[2] == Cell(ISET, 0, 0) && p[11] == Cell(IEMPTYCAPTURE, 17, 0) && p[12] == Cell(IPARTIALCOMMIT, 0, -11)
  }

  lemma LoopCaptures(p: Cells, m: Table)
    requires LoopShape(p) && IsTable(m)
    ensures CellOptimizeCaptures(p, m) == p
  {
    assert CellPass(p, 13, 14, m) == p;
    assert CellPass(p, 12, 14, m) == p;
    assert CellPass(p, 11, 14, m) == p;
    assert CellPass(p, 2, 14, m) == p;
    assert CellPass(p, 1, 14, m) == p;
  }

  lemma LoopJumps(p: Cells)
    requires LoopShape(p)
    ensures CellOptimizeJumps(p) == p
  {
    assert CellTarget(p, 13) == 13 && CellTarget(p, 1) == 1;
    assert p[12 := CellSetOffset(p[12], -11)] == p && p[0 := CellSetOffset(p[0], 13)] == p;
    assert CellJumpsFrom(p, 13) == p;
    assert CellJumpsFrom(p, 12) == p;
    assert CellJumpsFrom(p, 11) == p;
    assert CellJumpsFrom(p, 2) == p;
    assert CellJumpsFrom(p, 1) == p;
  }

  /** Round and round at the start of the empty subject: a state of the loop. */
  predicate Circling(st: State) {
    st.Run? && st.s == 0 &&
    ((st.pc == 0 && st.stack.Empty?) ||
     ((st.pc == 1 || 3 <= st.pc <= 12) && st.stack.Push? && st.stack.below.Empty? && st.stack.top.pc == 13 && st.stack.top.s == 0))
  }

  lemma CirclesOn(raw: Cells, st: State)
    requires AsksNothing(raw) && Circling(st)
    ensures Circling(MachineStep(LoopCellsOf(raw), [], st)) && !CellHalted(LoopCellsOf(raw), st)
  {
    hide CharsetAt, KindOf;
    var p := LoopCellsOf(raw);
    assert |p| == 13 && p[0] == Cell(ICHOICE, 0, 13) && p[1] == Cell(ICHAR, 120, 2) && p[11] == Cell(IEMPTYCAPTURE, 17, 0) && p[12] == Cell(IPARTIALCOMMIT, 0, -11);
    if 3 <= st.pc <= 10 { assert p[st.pc] == raw[st.pc - 3]; }
  }

  lemma {:induction false} CirclesFor(raw: Cells, st: State, n: nat)
    requires AsksNothing(raw) && Circling(st)
    ensures Circling(CellRunN(LoopCellsOf(raw), [], st, n))
    decreases n
  {
    hide MachineStep, LoopCellsOf, Circling, AsksNothing;
    if n > 0 {
      CirclesOn(raw, st);
      CirclesFor(raw, MachineStep(LoopCellsOf(raw), [], st), n - 1);
    }
  }

  lemma CirclesNowhere(raw: Cells, r: Outcome)
    requires AsksNothing(raw)
    ensures !CellExec(LoopCellsOf(raw), [], 0, r)
  {
    hide MachineStep, AsksNothing;
    if CellExec(LoopCellsOf(raw), [], 0, r) {
      var n: nat :| CellRunN(LoopCellsOf(raw), [], Start(0), n) == CellFinal(LoopCellsOf(raw), r);
      CirclesFor(raw, Start(0), n);
    }
  }

  /** The loop test accepts the body of this loop, and on the empty subject the loop never ends: the test of
      the optional byte leads into the charset, whose cells pass as instructions but look to the loop
      test like checks. */
  lemma LoopTestGoesWrong(m: Table)
    requires IsTable(m)
    ensures Legal(LandingLoop) && CompileCells(LandingBody, m).Written? && CellVerdictOf(CompileCells(LandingBody, m).p) == Accepts
    ensures CompileCells(LandingLoop, m).Written? && forall r :: !CellExec(CompileCells(LandingLoop, m).p, [], 0, r)
  {
    hide RawCells, LandingCells, LoopCellsOf, CellVerdictOf, CellNeedsTest, CellAtLeast, AsksNothing, CellExec;
    var raw := RawCells(Digits);
    DigitsCells();
    LandingWritten(m);
    LandingAccepted(raw);
    LoopPasses(raw, m);
    LoopWritten(raw, m);
    forall r ensures !CellExec(LoopCellsOf(raw), [], 0, r) { CirclesNowhere(raw, r); }
  }

  lemma LoopWritten(raw: Cells, m: Table)
    requires Legal(LandingBody) && CompileCells(LandingBody, m) == Written(LandingCells(raw)) && CellVerdictOf(LandingCells(raw)) == Accepts
    ensures Legal(LandingLoop) && CompileCells(LandingLoop, m) == Written(CellAtLeast(LandingCells(raw), 0, m))
  {
    hide LandingCells, CellVerdictOf, CellAtLeast, CellConcat, CellAtMost;
  }
}
