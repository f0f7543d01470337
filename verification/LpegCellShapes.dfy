/** The shapes that the combinators build, in cells and in instructions. */
module LpegCellShapes {
  import opened LpegMachine
  import opened LpegCombinators
  import opened LpegCells
  import opened LpegCellPasses
  import opened LpegCellBuild
  import opened LpegCellRelate

  /** Cells of a code. */
  function Size(c: Code): int { Pos(c, |c|) }

  // ---------- an instruction, a code, an instruction, a code ----------

  function Framed(h: Inst, c: Code, t: Inst, d: Code): Code { [h] + c + [t] + d }

  /** The offsets that occur in it: the first instruction leads behind the second one, and the second
      one to the end or back to the code in front of it. */
  predicate ShapeOk(h: Inst, c: Code, t: Inst, d: Code) {
    && Width(h) == 1 && Width(t) == 1 && Within(c) && Within(d)
    && (HasTarget(h) ==> h.offset == |c| + 2) && (HasTarget(t) ==> t.offset == |d| + 1 || t.offset == -|c|)
  }

  function NewHead(h: Inst, c: Code): Inst { if HasTarget(h) then SetOffset(h, Size(c) + 2) else h }
  function NewTail(t: Inst, c: Code, d: Code): Inst {
    if HasTarget(t) then SetOffset(t, if t.offset == |d| + 1 then Size(d) + 1 else -Size(c)) else t
  }

  lemma ShapePos(h: Inst, c: Code, t: Inst, d: Code)
    requires Width(h) == 1 && Width(t) == 1
    ensures var s := Framed(h, c, t, d);
      && |s| == |c| + |d| + 2 && PartAt(s, 1, c) && PartAt(s, |c| + 2, d) && s[0] == h && s[|c| + 1] == t
      && Pos(s, 0) == 0 && Pos(s, 1) == 1 && Pos(s, |c| + 1) == 1 + Size(c) && Pos(s, |c| + 2) == 2 + Size(c) && Pos(s, |s|) == 2 + Size(c) + Size(d)
  {
    var s := Framed(h, c, t, d);
    hide Pos;
    assert s[1..1 + |c|] == c && s[|c| + 2..|c| + 2 + |d|] == d;
    PosNext(s, 0);
    PosZero(s);
    ShapeWidths(s, 1, c);
    ShapeWidths(s, |c| + 2, d);
    PosIn(s, 1, c, |c|);
    PosNext(s, |c| + 1);
    PosIn(s, |c| + 2, d, |d|);
    PosZero(c);
    PosZero(d);
  }

  lemma PosZero(c: Code)
    ensures Pos(c, 0) == 0
  {
  }

  lemma ShapeWidths(s: Code, off: nat, c: Code)
    requires PartAt(s, off, c)
    ensures WidthsAt(s, off, c)
  {
    forall j | 0 <= j < |c| ensures Width(s[off + j]) == Width(c[j]) { assert s[off..off + |c|][j] == c[j]; }
  }

  lemma ShapeRelocate(h: Inst, c: Code, t: Inst, d: Code)
    requires ShapeOk(h, c, t, d)
    ensures Relocate(Framed(h, c, t, d)) == [NewHead(h, c)] + Relocate(c) + [NewTail(t, c, d)] + Relocate(d)
  {
    hide Relocate, Pos, Width, Within, Framed;
    var s := Framed(h, c, t, d);
    ShapePos(h, c, t, d);
    RelocatePart(s, 1, c);
    RelocatePart(s, |c| + 2, d);
    RelocateAt(s, 0);
    RelocateAt(s, |c| + 1);
    var r := Relocate(s);
    assert r == [r[0]] + r[1..1 + |c|] + [r[|c| + 1]] + r[|c| + 2..|c| + 2 + |d|];
    assert |s| == |c| + |d| + 2;
  }

  /** Its cells. */
  lemma ShapeCells(h: Inst, c: Code, t: Inst, d: Code)
    requires ShapeOk(h, c, t, d)
    ensures Encode(Framed(h, c, t, d)) == InstCells(NewHead(h, c)) + Encode(c) + InstCells(NewTail(t, c, d)) + Encode(d)
  {
    hide Relocate, Flatten, InstCells, NewHead, NewTail, ShapeOk, Framed;
    ShapeRelocate(h, c, t, d);
    var h2, t2 := NewHead(h, c), NewTail(t, c, d);
    FlattenAppend([h2] + Relocate(c) + [t2], Relocate(d));
    FlattenSnoc([h2] + Relocate(c), t2);
    FlattenAppend([h2], Relocate(c));
    FlattenOne(h2);
  }

  // ---------- a test in place of the first check, an instruction, a code ----------

  function TestShape(c: Code, t: Inst, d: Code): Code
    requires StartsWithCheck(c)
  {
    CheckToTest(c, |c| + 1) + [t] + d
  }

  predicate TestShapeOk(c: Code, t: Inst, d: Code) {
    && StartsWithCheck(c) && Width(t) == 1 && Within(c) && Within(d)
    && (HasTarget(t) ==> t.offset == |d| + 1 || t.offset == -|c|)
  }

  lemma TestShapeParts(c: Code, t: Inst, d: Code)
    requires StartsWithCheck(c)
    ensures var s := TestShape(c, t, d);
      && |s| == |c| + |d| + 1 && WidthsAt(s, 0, c) && (forall k :: 1 <= k < |c| ==> s[k] == c[k]) && PartAt(s, |c| + 1, d) && s[0] == SetOffset(c[0], |c| + 1) && s[|c|] == t
  {
    var s := TestShape(c, t, d);
    assert s[|c| + 1..|c| + 1 + |d|] == d;
  }

  lemma TestShapePos(c: Code, t: Inst, d: Code)
    requires StartsWithCheck(c) && Width(t) == 1
    ensures var s := TestShape(c, t, d);
      && |s| == |c| + |d| + 1 && WidthsAt(s, 0, c) && (forall k :: 1 <= k < |c| ==> s[k] == c[k]) && PartAt(s, |c| + 1, d) && s[0] == SetOffset(c[0], |c| + 1) && s[|c|] == t
      && Pos(s, 0) == 0 && Pos(s, |c|) == Size(c) && Pos(s, |c| + 1) == 1 + Size(c) && Pos(s, |s|) == 1 + Size(c) + Size(d)
  {
    hide Pos, TestShape, CheckToTest, SetOffset, Width;
    var s := TestShape(c, t, d);
    TestShapeParts(c, t, d);
    ShapeWidths(s, |c| + 1, d);
    PosZero(s); PosZero(c); PosZero(d);
    PosIn(s, 0, c, |c|);
    PosNext(s, |c|);
    PosIn(s, |c| + 1, d, |d|);
  }

  lemma TestShapeRelocate(c: Code, t: Inst, d: Code)
    requires TestShapeOk(c, t, d)
    ensures Relocate(TestShape(c, t, d)) == [SetOffset(Relocate(c)[0], Size(c) + 1)] + Relocate(c)[1..] + [NewTail(t, c, d)] + Relocate(d)
  {
    hide Relocate, Pos, Width, TestShape;
    var s := TestShape(c, t, d);
    TestShapePos(c, t, d);
    RelocatePart(s, |c| + 1, d);
    RelocateAt(s, 0);
    RelocateAt(s, |c|);
    RelocateAt(c, 0);
    var r := Relocate(s);
    forall k | 1 <= k < |c| ensures r[k] == Relocate(c)[k] { RelocateIn(s, 0, c, k); }
    assert r[|c| + 1..|c| + 1 + |d|] == Relocate(d);
    assert r == [r[0]] + r[1..|c|] + [r[|c|]] + r[|c| + 1..|c| + 1 + |d|];
    assert r[1..|c|] == Relocate(c)[1..];
  }

  lemma FlattenTest(r: Code, n: int)
    requires r != [] && IsCheckOp(r[0])
    ensures Flatten(r) != [] && Flatten([SetOffset(r[0], n)] + r[1..]) == CellCheckToTest(Flatten(r), n)
  {
    hide Flatten, InstCells, CellSetOffset, SetOffset;
    var i, j, rest := r[0], SetOffset(r[0], n), r[1..];
    assert r == [i] + rest;
    FlattenAppend([i], rest);
    FlattenAppend([j], rest);
    FlattenOne(i);
    FlattenOne(j);
    TestHeader(i, n);
    UpdateFirst(InstCells(i), Flatten(rest), CellSetOffset(Header(i), n));
  }

  lemma UpdateFirst(a: Cells, b: Cells, x: Cell)
    requires a != []
    ensures (a + b)[0 := x] == a[0 := x] + b && (a + b)[0] == a[0]
  {
  }

  lemma TestShapeCells(c: Code, t: Inst, d: Code)
    requires TestShapeOk(c, t, d)
    ensures Encode(c) != [] && Encode(TestShape(c, t, d)) == CellCheckToTest(Encode(c), Size(c) + 1) + InstCells(NewTail(t, c, d)) + Encode(d)
  {
    hide Relocate, Flatten, InstCells, NewTail, TestShape, CellCheckToTest;
    TestShapeRelocate(c, t, d);
    RelocateAt(c, 0);
    var r, t2 := Relocate(c), NewTail(t, c, d);
    FlattenTest(r, Size(c) + 1);
    var a := [SetOffset(r[0], Size(c) + 1)] + r[1..];
    FlattenAppend(a + [t2], Relocate(d));
    FlattenSnoc(a, t2);
  }

  // ---------- a choice before a check ----------

  /** Nothing leads between the choice and the check behind it. */
  predicate ChoiceClear(c: Code) {
    c != [] && c[0].Choice? && Within(c) && (|c| > 1 && IsCheck(c[1]) ==> c[0].offset >= 2 && forall k :: 2 <= k < |c| && HasTarget(c[k]) ==> Dest(c, k) >= 2)
  }

  lemma SwappedPos(c: Code, k: int)
    requires |c| > 1 && c[0].Choice? && IsCheck(c[1]) && (k == 0 || k >= 2)
    ensures Pos(OptimizeChoice(c), k) == Pos(c, k) && Pos(OptimizeChoice(c), 1) == Width(c[1]) && Pos(c, 1) == 1
  {
    hide Pos;
    var d := OptimizeChoice(c);
    PosZero(c); PosZero(d);
    PosNext(c, 0); PosNext(c, 1); PosNext(d, 0); PosNext(d, 1);
    if k >= 2 { PosFrom(c, d, k); }
  }

  lemma {:induction false} PosFrom(c: Code, d: Code, k: int)
    requires |c| == |d| >= 2 && k >= 2 && Pos(c, 2) == Pos(d, 2) && forall j :: 2 <= j < |c| ==> c[j] == d[j]
    ensures Pos(c, k) == Pos(d, k)
    decreases k
  {
    if k > |c| { PosFrom(c, d, |c|); } else if k > 2 { PosFrom(c, d, k - 1); }
  }

  function SwappedTest(c: Code): Inst
    requires |c| > 1 && IsCheck(c[1])
  {
    SetOffset(Relocate(c)[1], Pos(c, if c[0].Choice? then c[0].offset else 0))
  }

  lemma SwappedRelocate(c: Code)
    requires ChoiceClear(c) && |c| > 1 && IsCheck(c[1])
    ensures Relocate(OptimizeChoice(c)) == [SwappedTest(c), Choice(Pos(c, c[0].offset) - Width(c[1]), OpStep(c[1]))] + Relocate(c)[2..]
  {
    hide Pos, Relocate, Width;
    var d, r := OptimizeChoice(c), Relocate(c);
    var e := Relocate(d);
    SwappedPos(c, 0);
    SwappedPos(c, c[0].offset);
    RelocateAt(d, 0); RelocateAt(d, 1); RelocateAt(c, 1);
    PosZero(d);
    forall k | 2 <= k < |c| ensures e[k] == r[k] {
      SwappedPos(c, k);
      if HasTarget(c[k]) { SwappedPos(c, Dest(c, k)); }
      RelocateSame(c, d, k);
    }
    assert e == [e[0], e[1]] + e[2..] && e[2..] == r[2..];
  }

  /** optimizechoice, over cells and over instructions. */
  lemma ChoiceAgrees(c: Code)
    requires ChoiceClear(c) && CodeFits(c)
    ensures Encode(c) != [] && CellOptimizeChoice(Encode(c)) == Encode(OptimizeChoice(c))
  {
    hide Pos, Relocate, Flatten, CodeFits, ChoiceClear, CellOptimizeChoice, Within;
    ClearChoice(c);
    EncodeSome(c);
    CellsStart(c);
    if |c| > 1 && IsCheck(c[1]) {
      SwappedRelocate(c);
      SwappedCells(c);
    } else {
      NothingSwapped(c);
    }
  }

  lemma ClearChoice(c: Code)
    requires ChoiceClear(c)
    ensures c != [] && c[0].Choice?
  {
  }

  /** The cells of a code that starts with a choice. */
  lemma CellsStart(c: Code)
    requires c != [] && c[0].Choice?
    ensures var r := Relocate(c); |r| == |c| && r[0] == Choice(Pos(c, c[0].offset), c[0].aux) && Encode(c) == [Header(r[0])] + Flatten(r[1..])
    ensures |c| > 1 ==> Encode(c) == [Header(Relocate(c)[0])] + (InstCells(Relocate(c)[1]) + Flatten(Relocate(c)[2..]))
  {
    hide Pos, Relocate, Flatten;
    var r := Relocate(c);
    RelocateAt(c, 0);
    PosZero(c);
    assert r == [r[0]] + r[1..];
    FlattenAppend([r[0]], r[1..]);
    FlattenOne(r[0]);
    if |c| > 1 {
      assert r[1..] == [r[1]] + r[2..];
      FlattenAppend([r[1]], r[2..]);
      FlattenOne(r[1]);
    }
  }

  lemma NothingSwapped(c: Code)
    requires CodeFits(c) && c != [] && c[0].Choice? && !(|c| > 1 && IsCheck(c[1]))
    ensures CellOptimizeChoice(Encode(c)) == Encode(OptimizeChoice(c)) == Encode(c)
  {
    hide Pos, Encode, Flatten;
    EncodeLength(c);
    PosZero(c);
    PosNext(c, 0);
    if |c| > 1 { HeadAt(c, 1); RelocateAt(c, 1); CheckIs(Relocate(c)[1]); }
  }

  /** The choice and the check behind it, in cells, after they have changed places. */
  lemma SwapHeads(i: Inst, t: int, aux: nat)
    requires IsCheck(i) && InstFits(i) && aux <= UCHAR_MAX
    ensures var h, cells := Header(Choice(t, aux)), InstCells(i);
      && cells != [] && IsCheckCell(cells[0]) && CellWidth(cells[0]) == |cells| == Width(i)
      && InstCells(SetOffset(i, t)) == cells[0 := CellSetOffset(cells[0], h.offset)]
      && Header(Choice(t - Width(i), OpStep(i))) == h.(aux := ToByte(CellStep(cells[0])), offset := h.offset - |cells|)
  {
    hide CapAux, RawCells, ToByte, IsCheckCell, IsTestCell, CellStep, OpStep;
    CheckIs(i);
    WidthIs(i);
    TestHeader(i, t);
  }

  lemma TestHeader(i: Inst, t: int)
    requires IsCheckOp(i)
    ensures InstCells(SetOffset(i, t)) == InstCells(i)[0 := CellSetOffset(Header(i), t)]
  {
    hide RawCells;
  }

  lemma SwapFits(c: Code)
    requires CodeFits(c) && |c| > 1 && c[0].Choice? && IsCheck(c[1])
    ensures var r := Relocate(c);
      |r| == |c| && c[0].aux <= UCHAR_MAX && InstFits(r[1]) && IsCheck(r[1]) && Width(r[1]) == Width(c[1]) && OpStep(r[1]) == OpStep(c[1]) && SwappedTest(c) == SetOffset(r[1], Pos(c, c[0].offset))
  {
    hide Pos, Relocate;
    RelocateAt(c, 1);
    RelocateKind(c, 1);
    assert InstFits(c[0]) && InstFits(c[1]);
  }

  lemma SwappedCells(c: Code)
    requires CodeFits(c) && |c| > 1 && c[0].Choice? && IsCheck(c[1])
    requires Relocate(OptimizeChoice(c)) == [SwappedTest(c), Choice(Pos(c, c[0].offset) - Width(c[1]), OpStep(c[1]))] + Relocate(c)[2..]
    ensures CellOptimizeChoice(Encode(c)) == Encode(OptimizeChoice(c))
  {
    hide Pos, Relocate, Flatten, OptimizeChoice, RawCells, InstCells, Header, CellOptimizeChoice, Width, IsCheckCell, CellWidth, CellSetOffset, CellStep, ToByte, CodeFits, OpStep, IsCheck, SwappedTest, SetOffset;
    var r := Relocate(c);
    CellsStart(c);
    SwapFits(c);
    var x, y, rest := SetOffset(r[1], Pos(c, c[0].offset)), Choice(Pos(c, c[0].offset) - Width(c[1]), OpStep(c[1])), r[2..];
    SwapHeads(r[1], Pos(c, c[0].offset), c[0].aux);
    FlattenAppend([x, y], rest);
    FlattenSnoc([x], y);
    FlattenOne(x);
    assert [x] + [y] == [x, y];
    ChoiceCells(y);
    SwapInCells(Header(r[0]), InstCells(r[1]), Flatten(rest), InstCells(x), Header(y));
  }

  lemma ChoiceCells(y: Inst)
    requires y.Choice?
    ensures InstCells(y) == [Header(y)]
  {
  }

  lemma SwapInCells(h: Cell, i: Cells, rest: Cells, x: Cells, y: Cell)
    requires i != [] && IsCheckCell(i[0]) && CellWidth(i[0]) == |i| && x == i[0 := CellSetOffset(i[0], h.offset)]
    requires y == h.(aux := ToByte(CellStep(i[0])), offset := h.offset - |i|)
    ensures CellOptimizeChoice([h] + (i + rest)) == x + [y] + rest
  {
    var p, lc := [h] + (i + rest), |i|;
    assert p[1] == i[0] && p[2..lc + 1] == i[1..] && p[lc + 1..] == rest;
  }
}
