/** The cells that compiled patterns are made of.  Most instructions take one cell of four bytes; a
    charset takes eight more, which hold nothing but its bits, though they can be read as instructions
    too.  Offsets of jumps and tests count cells. */
module LpegCells {
  import opened LpegMachine
  import opened LpegCombinators

  const RAWCELLS: nat := 8
  const CHARSETINSTSIZE: nat := 9

  /** One cell, read as an instruction. */
  datatype Cell = Cell(code: Byte, aux: Byte, offset: int)

  type Cells = seq<Cell>

  // ---------- opcodes ----------

  const IANY: Byte := 0
  const ICHAR: Byte := 1
  const ISET: Byte := 2
  const ISPAN: Byte := 3
  const ICHOICE: Byte := 6
  const IJMP: Byte := 7
  const ICOMMIT: Byte := 10
  const IPARTIALCOMMIT: Byte := 11
  const IBACKCOMMIT: Byte := 12
  const IFAILTWICE: Byte := 13
  const IFAIL: Byte := 14
  const IFULLCAPTURE: Byte := 17
  const IEMPTYCAPTURE: Byte := 18
  const IEMPTYCAPTUREIDX: Byte := 19
  const IOPENCAPTURE: Byte := 20
  const ICLOSECAPTURE: Byte := 21
  const OPCODES: nat := 23

  function KindNumber(k: CapKind): nat {
    match k
    case Cclose => 0 case Cposition => 1 case Cconst => 2 case Cbackref => 3 case Carg => 4 case Csimple => 5 case Ctable => 6
    case Cfunction => 7 case Cquery => 8 case Cstring => 9 case Csubst => 10 case Cfold => 11 case Cgroup => 13
  }

  function ToByte(n: nat): Byte { n % 256 }

  /** The cell of an instruction, or the first one of a charset. */
  function Header(i: Inst): Cell {
    match i
    case Any(n, off) => Cell(IANY, ToByte(n), off)
    case Char(c, off) => Cell(ICHAR, c, off)
    case Set(_, off) => Cell(ISET, 0, off)
    case Span(_) => Cell(ISPAN, 0, 0)
    case Choice(off, aux) => Cell(ICHOICE, ToByte(aux), off)
    case Jmp(off) => Cell(IJMP, 0, off)
    case Commit(off) => Cell(ICOMMIT, 0, off)
    case PartialCommit(off) => Cell(IPARTIALCOMMIT, 0, off)
    case BackCommit(off) => Cell(IBACKCOMMIT, 0, off)
    case FailTwice => Cell(IFAILTWICE, 0, 0)
    case Fail => Cell(IFAIL, 0, 0)
    case FullCapture(idx, kind, off) => Cell(IFULLCAPTURE, CapAux(kind, off), idx)
    case EmptyCapture(idx, kind, off) => Cell(if kind == Cposition || kind == Carg then IEMPTYCAPTURE else IEMPTYCAPTUREIDX, CapAux(kind, off), idx)
    case OpenCapture(idx, kind, off) => Cell(IOPENCAPTURE, CapAux(kind, off), idx)
    case CloseCapture(idx, kind, off) => Cell(ICLOSECAPTURE, CapAux(kind, off), idx)
  }

  /** The kind in the lower half, the offset in the upper one. */
  function CapAux(kind: CapKind, off: nat): Byte { ToByte(KindNumber(kind) + 16 * off) }

  // ---------- charsets ----------

  /** The members from..from + n - 1 as the lowest n bits of a number. */
  function Bits(cs: set<Byte>, from: nat, n: nat): (v: nat)
    ensures v < Power2(n)
    decreases n
  {
    if n == 0 then 0 else (if from in cs then 1 else 0) + 2 * Bits(cs, from + 1, n - 1)
  }

  function Power2(n: nat): (p: nat)
    ensures p > 0
  {
    if n == 0 then 1 else 2 * Power2(n - 1)
  }

  function CharsetByte(cs: set<Byte>, k: nat): Byte {
    assert Power2(8) == 256;
    Bits(cs, 8 * k, 8)
  }

  /** A field of two bytes, the lower one first, with its sign. */
  function Short(lo: Byte, hi: Byte): int { if hi < 128 then lo + 256 * hi else lo + 256 * hi - 65536 }

  /** The k-th cell of a charset, read as an instruction. */
  function RawCell(cs: set<Byte>, k: nat): Cell {
    Cell(CharsetByte(cs, 4 * k), CharsetByte(cs, 4 * k + 1), Short(CharsetByte(cs, 4 * k + 2), CharsetByte(cs, 4 * k + 3)))
  }

  function RawCells(cs: set<Byte>): (r: Cells)
    ensures |r| == RAWCELLS
  {
    seq(RAWCELLS, k requires 0 <= k < RAWCELLS => RawCell(cs, k))
  }

  // ---------- instructions to cells ----------

  function Width(i: Inst): nat { if HasCharset(i) then CHARSETINSTSIZE else 1 }

  function InstCells(i: Inst): (r: Cells)
    ensures |r| == Width(i) && r[0] == Header(i)
  {
    if HasCharset(i) then [Header(i)] + RawCells(i.cs) else [Header(i)]
  }

  /** The cells of a code whose offsets count cells already. */
  function Flatten(c: Code): Cells {
    if c == [] then [] else Flatten(c[..|c| - 1]) + InstCells(c[|c| - 1])
  }

  /** The cell at which instruction k starts. */
  function Pos(c: Code, k: int): (p: int)
    ensures k >= 0 ==> p >= k
    decreases k
  {
    if k <= 0 then k
    else if k > |c| then Pos(c, |c|) + k - |c|
    else Pos(c, k - 1) + Width(c[k - 1])
  }

  /** The code with offsets that count cells. */
  function Relocate(c: Code): (r: Code)
    ensures |r| == |c|
  {
    seq(|c|, k requires 0 <= k < |c| => Relocated(c, k))
  }

  function Relocated(c: Code, k: nat): Inst
    requires k < |c|
  {
    if HasTarget(c[k]) then SetOffset(c[k], Pos(c, Dest(c, k)) - Pos(c, k)) else c[k]
  }

  /** The cells that a code stands for. */
  function Encode(c: Code): Cells { Flatten(Relocate(c)) }

  // ---------- positions ----------

  lemma {:induction false} FlattenAppend(a: Code, b: Code)
    ensures Flatten(a + b) == Flatten(a) + Flatten(b)
    decreases |b|
  {
    FlattenNone();
    hide Flatten, InstCells;
    if b == [] {
      assert a + b == a && Flatten(a) + [] == Flatten(a);
    } else {
      var front, last := b[..|b| - 1], b[|b| - 1];
      assert b == front + [last] && a + b == (a + front) + [last];
      FlattenAppend(a, front);
      FlattenSnoc(front, last);
      FlattenSnoc(a + front, last);
      assert Flatten(a) + (Flatten(front) + InstCells(last)) == (Flatten(a) + Flatten(front)) + InstCells(last);
    }
  }

  lemma FlattenNone()
    ensures Flatten([]) == []
  {
  }

  lemma FlattenSnoc(c: Code, i: Inst)
    ensures Flatten(c + [i]) == Flatten(c) + InstCells(i)
  {
    assert (c + [i])[..|c|] == c;
  }

  lemma FlattenOne(i: Inst)
    ensures Flatten([i]) == InstCells(i)
  {
    assert [i][..0] == [];
  }

  lemma {:induction false} PosPrefix(c: Code, k: nat)
    requires k <= |c|
    ensures Pos(c, k) == |Flatten(c[..k])|
    decreases k
  {
    if k > 0 {
      assert c[..k][..k - 1] == c[..k - 1];
      PosPrefix(c, k - 1);
    }
  }

  lemma {:induction false} PosSame(c: Code, d: Code, k: int)
    requires |c| == |d| && forall j :: 0 <= j < |c| && j < k ==> Width(c[j]) == Width(d[j])
    ensures Pos(c, k) == Pos(d, k)
    decreases k
  {
    if k > |c| { PosSame(c, d, |c|); } else if k > 0 { PosSame(c, d, k - 1); }
  }

  lemma {:induction false} PosUp(c: Code, k: int, m: int)
    requires k <= m
    ensures Pos(c, k) + (m - k) <= Pos(c, m)
    decreases m - k
  {
    if k < m {
      PosUp(c, k, m - 1);
      if m > |c| && m - 1 > |c| { }
    }
  }

  /** Positions of different instructions differ. */
  lemma PosOrder(c: Code, k: int, m: int)
    ensures k < m <==> Pos(c, k) < Pos(c, m)
    ensures k == m <==> Pos(c, k) == Pos(c, m)
  {
    if k < m { PosUp(c, k, m); } else { PosUp(c, m, k); }
  }

  lemma {:induction false} PosAppend(a: Code, b: Code, k: nat)
    requires k <= |b|
    ensures Pos(a + b, |a| + k) == Pos(a, |a|) + Pos(b, k)
    decreases k
  {
    if k == 0 { PosLeft(a, b, |a|); } else {
      PosAppend(a, b, k - 1);
      assert (a + b)[|a| + k - 1] == b[k - 1];
    }
  }

  lemma {:induction false} PosLeft(a: Code, b: Code, k: nat)
    requires k <= |a|
    ensures Pos(a + b, k) == Pos(a, k)
    decreases k
  {
    if k > 0 { PosLeft(a, b, k - 1); }
  }

  lemma FlattenLength(c: Code)
    ensures |Flatten(c)| == Pos(c, |c|)
  {
    PosPrefix(c, |c|);
    assert c[..|c|] == c;
  }

  lemma PosNext(c: Code, k: nat)
    requires k < |c|
    ensures Pos(c, k + 1) == Pos(c, k) + Width(c[k])
  {
  }

  lemma SliceIs(f: Cells, a: Cells, x: Cells, b: Cells)
    requires f == a + (x + b) && x != []
    ensures |a| + |x| <= |f| && f[|a|..|a| + |x|] == x && f[|a|] == x[0]
  {
  }

  /** The cells of instruction k. */
  lemma CellsAt(c: Code, k: nat)
    requires k < |c|
    ensures 0 <= Pos(c, k) && Pos(c, k + 1) == Pos(c, k) + Width(c[k]) <= |Flatten(c)|
    ensures Flatten(c)[Pos(c, k)..Pos(c, k + 1)] == InstCells(c[k])
    ensures Flatten(c)[Pos(c, k)] == Header(c[k])
  {
    hide Flatten, Pos, InstCells;
    var a, b := c[..k], c[k + 1..];
    assert c == a + ([c[k]] + b);
    FlattenAppend(a, [c[k]] + b);
    FlattenAppend([c[k]], b);
    FlattenOne(c[k]);
    PosPrefix(c, k);
    PosNext(c, k);
    SliceIs(Flatten(c), Flatten(a), InstCells(c[k]), Flatten(b));
  }

  /** The last cell of the instruction before k. */
  lemma LastCell(c: Code, k: nat)
    requires 0 < k <= |c|
    ensures 0 < Pos(c, k) <= |Flatten(c)|
    ensures Flatten(c)[Pos(c, k) - 1] == if HasCharset(c[k - 1]) then RawCell(c[k - 1].cs, RAWCELLS - 1) else Header(c[k - 1])
  {
    hide Flatten, Pos, Header, RawCell;
    CellsAt(c, k - 1);
    SliceLast(Flatten(c), Pos(c, k - 1), Pos(c, k));
  }

  lemma SliceLast<T>(s: seq<T>, i: nat, j: nat)
    requires i < j <= |s|
    ensures s[j - 1] == s[i..j][j - i - 1]
  {
  }

  lemma FlattenPrefix(c: Code, k: nat)
    requires k <= |c|
    ensures Pos(c, k) <= |Flatten(c)| && Flatten(c)[..Pos(c, k)] == Flatten(c[..k]) && Flatten(c)[Pos(c, k)..] == Flatten(c[k..])
  {
    assert c == c[..k] + c[k..];
    FlattenAppend(c[..k], c[k..]);
    PosPrefix(c, k);
  }

  lemma RelocatePos(c: Code, k: int)
    ensures Pos(Relocate(c), k) == Pos(c, k)
  {
    PosSame(c, Relocate(c), k);
  }

  /** Relocation changes nothing but offsets, and a check stays a check. */
  lemma RelocateAt(c: Code, k: nat)
    requires k < |c|
    ensures Width(Relocate(c)[k]) == Width(c[k]) && IsCheckOp(Relocate(c)[k]) == IsCheckOp(c[k]) && IsJmp(Relocate(c)[k]) == IsJmp(c[k])
    ensures HasTarget(c[k]) ==> Relocate(c)[k] == SetOffset(c[k], Pos(c, Dest(c, k)) - Pos(c, k)) && HasTarget(Relocate(c)[k])
    ensures !HasTarget(c[k]) ==> Relocate(c)[k] == c[k]
    ensures IsCheck(Relocate(c)[k]) == IsCheck(c[k]) && IsTest(Relocate(c)[k]) == IsTest(c[k])
  {
    if HasTarget(c[k]) { PosOrder(c, k, Dest(c, k)); }
  }

  // ---------- what a cell says ----------

  predicate IsJmpCell(p: Cell) { p.code == ICHOICE || p.code == IJMP || p.code == 8 || p.code == ICOMMIT || p.code == IPARTIALCOMMIT || p.code == IBACKCOMMIT }

  predicate IsCheckCell(p: Cell) { p.code <= ISET && p.offset == 0 }
  predicate IsTestCell(p: Cell) { p.code <= ISET && p.offset != 0 }

  function CellWidth(p: Cell): nat { if p.code == ISET || p.code == ISPAN then CHARSETINSTSIZE else 1 }

  function CellStep(p: Cell): nat { if p.code == IANY then p.aux else 1 }

  function CellOff(p: Cell): nat { p.aux / 16 }

  /** The property ISMOVABLE of an opcode.  A raw cell may have a code beyond the table of properties;
      what is read there is arbitrary. */
  type Table = Byte -> bool

  ghost predicate IsTable(m: Table) { forall b: Byte :: b < OPCODES ==> (m(b) <==> IEMPTYCAPTURE <= b <= ICLOSECAPTURE) }

  predicate MovableCell(p: Cell, m: Table) { m(p.code) && CellOff(p) < MAXOFF }

  /** The numbers in an instruction fit into its cell. */
  predicate InstFits(i: Inst) {
    && (i.Any? ==> i.n <= UCHAR_MAX) && (i.Choice? ==> i.aux <= UCHAR_MAX) && CaptureOffset(i) <= MAXOFF
  }

  predicate CodeFits(c: Code) { forall k :: 0 <= k < |c| ==> InstFits(c[k]) }

  lemma CapAuxParts(kind: CapKind, off: nat)
    requires off <= MAXOFF
    ensures CapAux(kind, off) / 16 == off && CapAux(kind, off) == KindNumber(kind) + 16 * off
  {
    SmallKind(kind);
    hide KindNumber;
    var k := KindNumber(kind);
    assert k + 16 * off < 256;
  }

  lemma SmallKind(kind: CapKind)
    ensures KindNumber(kind) < 16
  {
  }

  /** A header says of its instruction what the macros ask. */
  lemma HeaderSays(i: Inst, m: Table)
    requires InstFits(i) && IsTable(m)
    ensures CellWidth(Header(i)) == Width(i) && IsJmpCell(Header(i)) == IsJmp(i) && IsCheckCell(Header(i)) == IsCheck(i) && IsTestCell(Header(i)) == IsTest(i)
    ensures IsCheckOp(i) ==> CellStep(Header(i)) == OpStep(i)
    ensures HasTarget(i) ==> Header(i).offset == i.offset
    ensures m(Header(i).code) == IsMovable(i)
    ensures i.FullCapture? || IsMovable(i) ==> CellOff(Header(i)) == CaptureOffset(i)
    ensures MovableCell(Header(i), m) == IsMovableCap(i)
  {
    if i.FullCapture? || IsMovable(i) { CapAuxParts(i.kind, i.off); }
    hide CapAux, KindNumber;
    assert IEMPTYCAPTURE <= Header(i).code <= ICLOSECAPTURE <==> IsMovable(i);
    assert Header(i).code < OPCODES;
  }

  lemma RelocateFits(c: Code)
    requires CodeFits(c)
    ensures CodeFits(Relocate(c))
  {
    forall k | 0 <= k < |c| ensures InstFits(Relocate(c)[k]) { RelocateAt(c, k); assert InstFits(c[k]); }
  }

  /** What the cell of instruction k says about it, in the cells of a code. */
  lemma EncodeSays(c: Code, k: nat, m: Table)
    requires CodeFits(c) && k < |c| && IsTable(m)
    ensures 0 <= Pos(c, k) && Pos(c, k + 1) == Pos(c, k) + Width(c[k]) <= |Encode(c)|
    ensures var h := Encode(c)[Pos(c, k)];
      && CellWidth(h) == Width(c[k]) && IsJmpCell(h) == IsJmp(c[k]) && IsCheckCell(h) == IsCheck(c[k]) && IsTestCell(h) == IsTest(c[k])
      && MovableCell(h, m) == IsMovableCap(c[k]) && m(h.code) == IsMovable(c[k])
      && (IsCheckOp(c[k]) ==> CellStep(h) == OpStep(c[k]) && h.code <= ISET) && (IsMovable(c[k]) ==> CellOff(h) == CaptureOffset(c[k]))
      && (HasTarget(c[k]) ==> Pos(c, k) + h.offset == Pos(c, Dest(c, k)))
      && h == Header(Relocate(c)[k])
  {
    hide Flatten, Pos, Relocate, Header;
    var r := Relocate(c);
    CellsAt(r, k);
    RelocatePos(c, k);
    RelocatePos(c, k + 1);
    RelocateAt(c, k);
    RelocateFits(c);
    assert InstFits(r[k]);
    HeaderSays(r[k], m);
  }

  lemma EncodeLength(c: Code)
    ensures |Encode(c)| == Pos(c, |c|)
  {
    FlattenLength(Relocate(c));
    RelocatePos(c, |c|);
  }

  /** The cell before instruction k. */
  lemma EncodeBefore(c: Code, k: nat, m: Table)
    requires CodeFits(c) && 0 < k <= |c| && IsTable(m)
    ensures 0 < Pos(c, k) <= |Encode(c)|
    ensures var h := Encode(c)[Pos(c, k) - 1];
      if HasCharset(c[k - 1]) then h == RawCell(c[k - 1].cs, RAWCELLS - 1)
      else Pos(c, k) - 1 == Pos(c, k - 1) && MovableCell(h, m) == IsMovableCap(c[k - 1])
  {
    LastCell(Relocate(c), k);
    RelocatePos(c, k);
    RelocateAt(c, k - 1);
    EncodeSays(c, k - 1, m);
  }
}
