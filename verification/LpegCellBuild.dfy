/** The pattern builder over cells: what each combinator writes. */
module LpegCellBuild {
  import opened LpegMachine
  import opened LpegCombinators
  import opened LpegCells
  import opened LpegCellPasses

  // ---------- charsets in cells ----------

  /** The j-th byte of a cell. */
  function CellByte(p: Cell, j: nat): nat {
    if j == 0 then p.code else if j == 1 then p.aux else if j == 2 then p.offset % 256 else (p.offset / 256) % 256
  }

  predicate TestBit(v: nat, j: nat)
    decreases j
  {
    if j == 0 then v % 2 == 1 else TestBit(v / 2, j - 1)
  }

  /** testchar, on the raw cells of a charset. */
  predicate TestChar(raw: Cells, b: Byte) {
    b / 32 < |raw| && TestBit(CellByte(raw[b / 32], (b / 8) % 4), b % 8)
  }

  function CharsetOf(raw: Cells): set<Byte> { set b: Byte | b in AllBytes && TestChar(raw, b) }

  // ---------- recognizing codes ----------

  predicate CellIsFail(p: Cells) { p != [] && p[0].code == IFAIL }
  predicate CellIsSucc(p: Cells) { p == [] }
  predicate CellIsAny(p: Cells) { |p| == 1 && p[0].code == IANY }

  predicate CellStartsWithCheck(p: Cells) { p != [] && IsCheckCell(p[0]) }

  /** isnofail, for the instructions from i on, up to the end. */
  predicate CellNoFail(p: Cells, i: nat, end: nat)
    decreases end - i
  {
    i < end && i < |p| ==> NoFailCell(p[i]) && CellNoFail(p, i + CellWidth(p[i]), end)
  }

  predicate NoFailCell(p: Cell) { p.code == ISPAN || p.code == IJMP || IFULLCAPTURE <= p.code <= ICLOSECAPTURE }

  predicate CellHeadFail(p: Cells) { CellStartsWithCheck(p) && CellNoFail(p, CellWidth(p[0]), |p|) }

  /** fillcharset. */
  function CellFill(p: Cells): set<Byte>
    requires p != []
  {
    if p[0].code == ISET then CharsetOf(if |p| >= CHARSETINSTSIZE then p[1..CHARSETINSTSIZE] else p[1..])
    else if p[0].code == ICHAR then {p[0].aux}
    else AllBytes
  }

  /** tocharset. */
  function CellTag(p: Cells): CharsetTag {
    if CellStartsWithCheck(p) then
      if CellWidth(p[0]) == |p| && CellStep(p[0]) == 1 then IsCharset(CellFill(p)) else ValidStarts(CellFill(p))
    else NoInfo
  }

  // ---------- rewriting ----------

  function CellSetOffset(p: Cell, o: int): Cell { p.(offset := o) }

  /** check2test. */
  function CellCheckToTest(p: Cells, n: int): (r: Cells)
    requires p != []
    ensures |r| == |p|
  {
    p[0 := CellSetOffset(p[0], n)]
  }

  /** optimizechoice, on a code that starts with the choice. */
  function CellOptimizeChoice(p: Cells): Cells
    requires p != []
  {
    if |p| > 1 && IsCheckCell(p[1]) && CellWidth(p[1]) < |p| then
      var lc := CellWidth(p[1]);
      [CellSetOffset(p[1], p[0].offset)] + p[2..lc + 1] + [p[0].(aux := ToByte(CellStep(p[1])), offset := p[0].offset - lc)] + p[lc + 1..]
    else p
  }

  /** target: a jump backward is taken to lead to no other jump. */
  function CellTarget(p: Cells, i: int): int
    decreases |p| - i
  {
    if 0 <= i < |p| && p[i].code == IJMP then
      if p[i].offset > 0 then CellTarget(p, i + p[i].offset) else i + p[i].offset
    else i
  }

  function CellJumpsFrom(p: Cells, i: nat): (r: Cells)
    ensures |r| == |p|
    decreases |p| - i
  {
    if i >= |p| then p
    else if IsJmpCell(p[i]) then CellJumpsFrom(p[i := CellSetOffset(p[i], CellTarget(p, i + p[i].offset) - i)], i + CellWidth(p[i]))
    else CellJumpsFrom(p, i + CellWidth(p[i]))
  }

  /** optimizejumps. */
  function CellOptimizeJumps(p: Cells): (r: Cells)
    ensures |r| == |p|
  {
    CellJumpsFrom(p, 0)
  }

  // ---------- the combinators ----------

  function CellConcat(p1: Cells, p2: Cells, m: Table): Cells {
    if CellIsFail(p1) || CellIsSucc(p2) then p1
    else if CellIsFail(p2) || CellIsSucc(p1) then p2
    else if CellIsAny(p1) && CellIsAny(p2) then Flatten(AnyCode(p1[0].aux + p2[0].aux))
    else CellOptimizeCaptures(p1 + p2, m)
  }

  function CellDiff(p1: Cells, p2: Cells): Cells {
    var t1, t2 := CellTag(p1), CellTag(p2);
    if t1.IsCharset? && t2.IsCharset? then InstCells(Set(t1.cs - t2.cs, 0))
    else if CellHeadFail(p2) then CellCheckToTest(p2, |p2| + 1) + InstCells(Fail) + p1
    else CellOptimizeChoice(InstCells(Choice(|p2| + 2, 0)) + p2 + InstCells(FailTwice) + p1)
  }

  function CellNot(p: Cells): Cells {
    if CellIsFail(p) then [] else if CellIsSucc(p) then InstCells(Fail) else CellDiff([], p)
  }

  function CellAnd(p: Cells): Cells {
    if CellIsFail(p) || CellIsSucc(p) then p
    else if CellTag(p).IsCharset? then InstCells(Set(AllBytes - CellTag(p).cs, CHARSETINSTSIZE + 1)) + InstCells(Fail)
    else InstCells(Choice(|p| + 2, 0)) + p + InstCells(BackCommit(2)) + InstCells(Fail)
  }

  /** firstpart: the cell before the target of the first instruction is read as a jump or a commit. */
  function CellFirstPart(p: Cells): (sp: nat)
    ensures sp <= |p|
    ensures sp > 0 ==> p != [] && (p[sp - 1].code == IJMP || p[sp - 1].code == ICOMMIT)
  {
    if p == [] then 0
    else
      var e := p[0].offset - 1;
      if !(0 <= e < |p|) then 0
      else if IsTestCell(p[0]) then (if (p[e].code == IJMP || p[e].code == ICOMMIT) && e + p[e].offset == |p| then e + 1 else 0)
      else if p[0].code == ICHOICE then (if p[e].code == ICOMMIT && e + p[e].offset == |p| then e + 1 else 0)
      else 0
  }

  /** interfere. */
  predicate CellInterfere(part: Cells, t2: CharsetTag)
    requires part != []
  {
    !CellNoFail(part, 0, |part|) &&
    (t2.NoInfo? || (if part[0].code == ICHAR then part[0].aux in t2.cs else if part[0].code == ISET then !(CellFill(part) !! t2.cs) else true))
  }

  function CellBasicUnion(p1: Cells, p2: Cells, t2: CharsetTag): Cells {
    var t1 := CellTag(p1);
    if t1.IsCharset? && t2.IsCharset? then InstCells(Set(t1.cs + t2.cs, 0))
    else if p1 != [] && (Exclusive(t1, t2) || CellHeadFail(p1)) then CellCheckToTest(p1, |p1| + 1) + InstCells(Jmp(|p2| + 1)) + p2
    else CellOptimizeChoice(InstCells(Choice(|p1| + 2, 0)) + p1 + InstCells(Commit(|p2| + 1)) + p2)
  }

  /** The two branches of separateparts that put an alternative before the rest. */
  function CellPlace(part: Cells, rest: Cells, t2: CharsetTag): Cells
    requires part != []
  {
    var e := |part| - 1;
    if part[e].code == ICOMMIT || !CellInterfere(part, t2) || CellWidth(part[0]) > e then
      part[..e] + [CellSetOffset(part[e], |rest| + 1)] + rest
    else
      var w := CellWidth(part[0]);
      [CellSetOffset(part[0], part[0].offset + 1)] + part[1..w] + InstCells(Choice(|part| - w + 1, 1)) + part[w..e] + InstCells(Commit(|rest| + 1)) + rest
  }

  function CellSeparate(p1: Cells, p2: Cells, t2: CharsetTag): Cells
    decreases |p1|
  {
    var sp := CellFirstPart(p1);
    if sp == 0 then CellBasicUnion(p1, p2, t2) else CellPlace(p1[..sp], CellSeparate(p1[sp..], p2, t2), t2)
  }

  function CellUnion(p1: Cells, p2: Cells): Cells {
    if CellIsFail(p1) then p2 else if CellIsFail(p2) || CellIsSucc(p1) then p1 else CellSeparate(p1, p2, CellTag(p2))
  }

  function CellTimes(p: Cells, n: nat): Cells { if n == 0 then [] else p + CellTimes(p, n - 1) }

  /** star_l, for n >= 0, once the body has passed the loop test. */
  function CellAtLeast(p: Cells, n: nat, m: Table): Cells {
    if CellTag(p).IsCharset? then CellTimes(p, n) + InstCells(Span(CellTag(p).cs))
    else if CellHeadFail(p) then CellOptimizeJumps(CellOptimizeCaptures(CellTimes(p, n) + CellCheckToTest(p, |p| + 1) + InstCells(Jmp(-|p|)), m))
    else CellOptimizeJumps(CellOptimizeCaptures(CellTimes(p, n) + InstCells(Choice(|p| + 2, 0)) + p + InstCells(PartialCommit(-|p|)), m))
  }

  function CellOptionalHeadFail(p: Cells, n: nat): Cells
    requires p != []
  {
    if n == 0 then [] else CellCheckToTest(p, n * |p|) + CellOptionalHeadFail(p, n - 1)
  }

  function CellOptionalBody(p: Cells, n: nat): Cells
    requires n > 0
  {
    if n == 1 then p + InstCells(Commit(1)) else p + InstCells(PartialCommit(1)) + CellOptionalBody(p, n - 1)
  }

  /** star_l, for n < 0. */
  function CellAtMost(p: Cells, n: nat): Cells
    requires n > 0
  {
    if CellHeadFail(p) then CellOptionalHeadFail(p, n)
    else CellOptimizeChoice(InstCells(Choice(1 + n * (|p| + 1), 0)) + CellOptionalBody(p, n))
  }

  /** capture_aux. */
  function CellCapture(p: Cells, kind: CapKind, idx: int, m: Table): Cells {
    var (k, n) := CellSkip(p, 0, 0);
    if k == |p| then p + InstCells(FullCapture(idx, kind, n))
    else CellOptimizeCaptures(InstCells(OpenCapture(idx, kind, 0)) + p + InstCells(CloseCapture(0, Cclose, 0)), m)
  }
}
