/** What the builder reads in cells is what the instructions say. */
module LpegCellRelate {
  import opened LpegMachine
  import opened LpegCombinators
  import opened LpegWellFormed
  import opened LpegCells
  import opened LpegCellPasses
  import opened LpegCellBuild

  // ---------- charsets ----------

  lemma {:induction false} BitOf(cs: set<Byte>, from: nat, n: nat, j: nat)
    requires j < n
    ensures TestBit(Bits(cs, from, n), j) <==> from + j in cs
    decreases n
  {
    var rest := Bits(cs, from + 1, n - 1);
    assert Bits(cs, from, n) == (if from in cs then 1 else 0) + 2 * rest;
    if j > 0 {
      assert Bits(cs, from, n) / 2 == rest;
      BitOf(cs, from + 1, n - 1, j - 1);
    }
  }

  lemma RawByte(cs: set<Byte>, k: nat, j: nat)
    requires j < 4
    ensures CellByte(RawCell(cs, k), j) == CharsetByte(cs, 4 * k + j)
  {
    hide CharsetByte;
    var lo, hi := CharsetByte(cs, 4 * k + 2), CharsetByte(cs, 4 * k + 3);
    ShortBytes(lo, hi);
  }

  lemma ShortBytes(lo: Byte, hi: Byte)
    ensures Short(lo, hi) % 256 == lo && (Short(lo, hi) / 256) % 256 == hi
  {
    if hi >= 128 { assert Short(lo, hi) / 256 == hi - 256; } else { assert Short(lo, hi) / 256 == hi; }
  }

  lemma TestCharIs(cs: set<Byte>, b: Byte)
    ensures TestChar(RawCells(cs), b) <==> b in cs
  {
    hide CellByte, RawCell, CharsetByte, TestBit, Bits;
    var k, j := b / 32, (b / 8) % 4;
    assert RawCells(cs)[k] == RawCell(cs, k);
    RawByte(cs, k, j);
    assert 4 * k + j == b / 8 && 8 * (b / 8) + b % 8 == b;
    ByteBit(cs, b);
  }

  lemma ByteBit(cs: set<Byte>, b: Byte)
    ensures TestBit(CharsetByte(cs, b / 8), b % 8) <==> b in cs
  {
    hide Bits, TestBit;
    assert 8 * (b / 8) + b % 8 == b;
    BitOf(cs, 8 * (b / 8), 8, b % 8);
  }

  /** The raw cells of a charset hold it. */
  lemma CharsetBack(cs: set<Byte>)
    ensures CharsetOf(RawCells(cs)) == cs
  {
    hide TestChar, RawCells;
    forall b: Byte ensures b in CharsetOf(RawCells(cs)) <==> b in cs { TestCharIs(cs, b); }
  }

  // ---------- instructions ----------

  /** The opcode in a header. */
  lemma CodeIs(i: Inst)
    ensures (Header(i).code == IFAIL <==> i.Fail?) && (Header(i).code == IJMP <==> i.Jmp?) && (Header(i).code == ICOMMIT <==> i.Commit?)
    ensures (Header(i).code == ICHOICE <==> i.Choice?) && (Header(i).code == ISET <==> i.Set?) && (Header(i).code == ICHAR <==> i.Char?)
    ensures (Header(i).code == IANY <==> i.Any?) && (Header(i).code == IBACKCOMMIT <==> i.BackCommit?) && NoFailCell(Header(i)) == IsNoFail(i)
    ensures i.Char? ==> Header(i).aux == i.c
  {
    hide CapAux, ToByte;
  }

  /** The first cell of an instruction of a code. */
  function HeadOf(c: Code, k: nat): Cell
    requires k < |c|
  {
    Header(Relocate(c)[k])
  }

  lemma HeadAt(c: Code, k: nat)
    requires k < |c|
    ensures 0 <= Pos(c, k) < Pos(c, k) + Width(c[k]) == Pos(c, k + 1) <= |Encode(c)| && Encode(c)[Pos(c, k)] == HeadOf(c, k)
    ensures CellWidth(HeadOf(c, k)) == Width(c[k])
    ensures (HeadOf(c, k).code == IFAIL <==> c[k].Fail?) && (HeadOf(c, k).code == IJMP <==> c[k].Jmp?) && (HeadOf(c, k).code == ICOMMIT <==> c[k].Commit?)
    ensures (HeadOf(c, k).code == ICHOICE <==> c[k].Choice?) && (HeadOf(c, k).code == ISET <==> c[k].Set?) && (HeadOf(c, k).code == ICHAR <==> c[k].Char?)
    ensures (HeadOf(c, k).code == IANY <==> c[k].Any?) && NoFailCell(HeadOf(c, k)) == IsNoFail(c[k]) && (c[k].Char? ==> HeadOf(c, k).aux == c[k].c)
    ensures HasTarget(c[k]) ==> Pos(c, k) + HeadOf(c, k).offset == Pos(c, Dest(c, k))
  {
    hide Flatten, Pos, Header, NoFailCell, IsNoFail;
    var r := Relocate(c);
    CellsAt(r, k);
    RelocatePos(c, k);
    RelocatePos(c, k + 1);
    RelocateKind(c, k);
    CodeIs(r[k]);
    WidthIs(r[k]);
    OffsetIs(r[k]);
  }

  lemma WidthIs(i: Inst)
    ensures CellWidth(Header(i)) == Width(i)
  {
  }

  lemma OffsetIs(i: Inst)
    ensures IsJmp(i) || IsCheckOp(i) ==> Header(i).offset == i.offset
  {
  }

  lemma RelocateKind(c: Code, k: nat)
    requires k < |c|
    ensures var i, j := Relocate(c)[k], c[k];
      && i.Fail? == j.Fail? && i.Jmp? == j.Jmp? && i.Commit? == j.Commit? && i.Choice? == j.Choice? && i.Set? == j.Set? && i.Char? == j.Char? && i.Any? == j.Any?
      && IsNoFail(i) == IsNoFail(j) && Width(i) == Width(j) && (j.Char? ==> i.c == j.c) && (j.Set? ==> i.cs == j.cs) && (j.Span? ==> i.cs == j.cs)
      && HasTarget(i) == HasTarget(j) && (HasTarget(j) ==> i.offset == Pos(c, Dest(c, k)) - Pos(c, k)) && (j.Any? ==> i.n == j.n)
  {
    hide Pos;
    RelocateAt(c, k);
  }

  lemma EncodeNone()
    ensures Encode([]) == []
  {
  }

  lemma EncodeSome(c: Code)
    ensures Encode(c) == [] <==> c == []
    ensures |Encode(c)| == 1 ==> |c| == 1
  {
    EncodeLength(c);
    PosUp(c, 0, |c|);
  }

  lemma IsFailAgrees(c: Code)
    ensures CellIsFail(Encode(c)) == IsFail(c) && CellIsSucc(Encode(c)) == IsSucc(c)
  {
    hide Encode;
    EncodeSome(c);
    if c != [] { HeadAt(c, 0); }
  }

  lemma IsAnyAgrees(c: Code)
    requires CodeFits(c)
    ensures CellIsAny(Encode(c)) == IsAnyCode(c) && (IsAnyCode(c) ==> Encode(c)[0].aux == c[0].n)
  {
    hide Encode;
    EncodeSome(c);
    EncodeLength(c);
    if c != [] { HeadAt(c, 0); }
    if IsAnyCode(c) {
      assert Pos(c, 1) == Pos(c, 0) + Width(c[0]);
      assert InstFits(c[0]);
      RelocateKind(c, 0);
    }
  }

  lemma StartAgrees(c: Code)
    requires CodeFits(c)
    ensures CellStartsWithCheck(Encode(c)) == StartsWithCheck(c)
    ensures c != [] ==> Encode(c) != [] && CellStep(Encode(c)[0]) == (if IsCheckOp(c[0]) then OpStep(c[0]) else 1) && CellWidth(Encode(c)[0]) == Width(c[0]) <= |Encode(c)|
    ensures c != [] ==> IsCheckCell(Encode(c)[0]) == IsCheck(c[0]) && IsTestCell(Encode(c)[0]) == IsTest(c[0])
  {
    hide Encode;
    EncodeSome(c);
    if c != [] {
      HeadAt(c, 0);
      RelocateAt(c, 0);
      RelocateKind(c, 0);
      assert InstFits(c[0]);
      CheckIs(Relocate(c)[0]);
    }
  }

  lemma CheckIs(i: Inst)
    ensures IsCheckCell(Header(i)) == IsCheck(i) && IsTestCell(Header(i)) == IsTest(i)
    ensures InstFits(i) ==> CellStep(Header(i)) == (if IsCheckOp(i) then OpStep(i) else 1)
  {
    hide CapAux;
  }

  lemma {:induction false} NoFailAgrees(c: Code, k: nat)
    requires k <= |c|
    ensures 0 <= Pos(c, k) <= |Encode(c)| && (CellNoFail(Encode(c), Pos(c, k), |Encode(c)|) <==> AllNoFail(c[k..]))
    decreases |c| - k
  {
    hide Encode, Pos, IsNoFail, NoFailCell, CellWidth;
    PosInside(c, k);
    EncodeLength(c);
    if k < |c| {
      HeadAt(c, k);
      NoFailAgrees(c, k + 1);
      assert c[k..] == [c[k]] + c[k + 1..];
    }
  }

  lemma HeadFailAgrees(c: Code)
    requires CodeFits(c)
    ensures CellHeadFail(Encode(c)) == IsHeadFail(c)
  {
    hide Encode, IsNoFail, NoFailCell, CellWidth;
    StartAgrees(c);
    if c != [] {
      HeadAt(c, 0);
      NoFailAgrees(c, 1);
    }
  }

  lemma FillAgrees(c: Code)
    requires c != []
    ensures Encode(c) != [] && CellFill(Encode(c)) == FillCharset(c[0])
  {
    hide RawCells, Flatten, Header, Relocate;
    HeadAt(c, 0);
    RelocateKind(c, 0);
    if c[0].Set? {
      var r := Relocate(c);
      CellsAt(r, 0);
      assert Flatten(r) == Encode(c);
      assert Flatten(r)[0..CHARSETINSTSIZE] == [Header(r[0])] + RawCells(r[0].cs);
      assert Flatten(r)[1..CHARSETINSTSIZE] == Flatten(r)[0..CHARSETINSTSIZE][1..];
      CharsetBack(c[0].cs);
    }
  }

  lemma TagAgrees(c: Code)
    requires CodeFits(c)
    ensures CellTag(Encode(c)) == ToCharset(c)
  {
    hide Encode, CellFill, FillCharset, CellStep;
    StartAgrees(c);
    if c != [] {
      FillAgrees(c);
      EncodeLength(c);
      PosUp(c, 1, |c|);
      PosOrder(c, 1, |c|);
      assert Pos(c, 1) == Pos(c, 0) + Width(c[0]);
    }
  }

  // ---------- codes put together ----------

  /** No instruction leads out of the code. */
  predicate Within(c: Code) { forall k :: 0 <= k < |c| && HasTarget(c[k]) ==> 0 <= Dest(c, k) <= |c| }

  lemma WFWithin(c: Code)
    requires WF(c)
    ensures Within(c)
  {
    forall k | 0 <= k < |c| && HasTarget(c[k]) ensures 0 <= Dest(c, k) <= |c| { assert InstOk(c, k); }
  }

  /** Fragment c, or one whose instructions take as many cells, is at index off of big. */
  predicate WidthsAt(big: Code, off: nat, c: Code) { off + |c| <= |big| && forall j :: 0 <= j < |c| ==> Width(big[off + j]) == Width(c[j]) }

  lemma {:induction false} PosIn(big: Code, off: nat, c: Code, j: nat)
    requires WidthsAt(big, off, c) && j <= |c|
    ensures Pos(big, off + j) == Pos(big, off) + Pos(c, j)
    decreases j
  {
    if j > 0 { PosIn(big, off, c, j - 1); }
  }

  /** An instruction of a fragment is relocated as in the fragment alone. */
  lemma RelocateIn(big: Code, off: nat, c: Code, k: nat)
    requires WidthsAt(big, off, c) && k < |c| && big[off + k] == c[k] && (HasTarget(c[k]) ==> 0 <= Dest(c, k) <= |c|)
    ensures Relocate(big)[off + k] == Relocate(c)[k]
  {
    hide Pos, Width;
    if HasTarget(c[k]) {
      PosIn(big, off, c, k);
      PosIn(big, off, c, Dest(c, k));
    }
  }

  predicate PartAt(big: Code, off: nat, c: Code) { off + |c| <= |big| && big[off..off + |c|] == c }

  lemma RelocatePart(big: Code, off: nat, c: Code)
    requires PartAt(big, off, c) && Within(c)
    ensures Relocate(big)[off..off + |c|] == Relocate(c)
  {
    hide Relocate;
    assert forall j :: 0 <= j < |c| ==> big[off + j] == big[off..off + |c|][j] == c[j];
    forall k | 0 <= k < |c| ensures Relocate(big)[off + k] == Relocate(c)[k] { RelocateIn(big, off, c, k); }
  }

  /** Codes that keep to themselves are encoded one after the other. */
  lemma EncodeAppend(a: Code, b: Code)
    requires Within(a) && Within(b)
    ensures Encode(a + b) == Encode(a) + Encode(b) && Within(a + b)
  {
    hide Relocate, Flatten;
    RelocatePart(a + b, 0, a);
    RelocatePart(a + b, |a|, b);
    var r := Relocate(a + b);
    assert r == r[0..|a|] + r[|a|..|a| + |b|];
    FlattenAppend(Relocate(a), Relocate(b));
    AppendWithin(a, b);
  }

  lemma AppendWithin(a: Code, b: Code)
    requires Within(a) && Within(b)
    ensures Within(a + b)
  {
    var c := a + b;
    forall k | 0 <= k < |c| && HasTarget(c[k]) ensures 0 <= Dest(c, k) <= |c| {
      if k < |a| { assert c[k] == a[k] && Dest(a, k) == Dest(c, k); } else { assert c[k] == b[k - |a|] && Dest(b, k - |a|) == Dest(c, k) - |a|; }
    }
  }

  /** A code in which every instruction takes one cell is its own relocation. */
  lemma PlainCode(c: Code)
    requires forall k :: 0 <= k < |c| ==> Width(c[k]) == 1
    requires Within(c)
    ensures Relocate(c) == c && Encode(c) == Flatten(c)
  {
    hide Pos;
    forall k | 0 <= k < |c| ensures Relocate(c)[k] == c[k] {
      if HasTarget(c[k]) { PosPlain(c, k); PosPlain(c, Dest(c, k)); }
    }
  }

  lemma {:induction false} PosPlain(c: Code, k: nat)
    requires (forall j :: 0 <= j < |c| ==> Width(c[j]) == 1) && k <= |c|
    ensures Pos(c, k) == k
  {
    if k > 0 { PosPlain(c, k - 1); }
  }
}
