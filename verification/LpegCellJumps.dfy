/** Jumps to jumps, and the parts of a choice, over cells.  The builder finds the end of the first
    alternative by reading the cell before a jump target; that may belong to a charset. */
module LpegCellJumps {
  import opened LpegMachine
  import opened LpegCombinators
  import opened LpegWellFormed
  import opened LpegCells
  import opened LpegCellPasses
  import opened LpegCellBuild
  import opened LpegCellRelate
  import opened LpegCellShapes

  // ---------- jumps to jumps ----------

  lemma JumpHead(c: Code, i: nat)
    requires WF(c) && i < |c|
    ensures 0 <= Pos(c, i) < |Encode(c)| && (Encode(c)[Pos(c, i)].code == IJMP <==> c[i].Jmp?) && IsJmpCell(Encode(c)[Pos(c, i)]) == IsJmp(c[i])
    ensures HasTarget(c[i]) ==> 0 <= Dest(c, i) <= |c| && Pos(c, i) + Encode(c)[Pos(c, i)].offset == Pos(c, Dest(c, i))
    ensures CellWidth(Encode(c)[Pos(c, i)]) == Width(c[i]) && Pos(c, i + 1) == Pos(c, i) + Width(c[i])
  {
    hide Pos, Encode;
    HeadAt(c, i);
    assert InstOk(c, i);
    RelocateAt(c, i);
    JmpIs(Relocate(c)[i]);
  }

  lemma JmpIs(i: Inst)
    ensures IsJmpCell(Header(i)) == IsJmp(i)
  {
    hide CapAux;
  }

  /** A chain of jumps ends at the same place. */
  lemma {:induction false} ChainAgrees(c: Code, i: nat)
    requires WF(c) && i <= |c|
    ensures 0 <= Target(c, i) <= |c| && CellTarget(Encode(c), Pos(c, i)) == Pos(c, Target(c, i))
    decreases |c| - i
  {
    hide Pos, Encode, WF, Width, CellWidth;
    PosInside(c, i);
    EncodeLength(c);
    if i < |c| {
      JumpHead(c, i);
      if c[i].Jmp? {
        PosOrder(c, i, Dest(c, i));
        if c[i].offset > 0 { ChainAgrees(c, Dest(c, i)); }
      }
    }
  }

  /** Changing the offset of one jump. */
  lemma EncodeUpdate(c: Code, i: nat, o: int)
    requires i < |c| && IsJmp(c[i])
    ensures 0 <= Pos(c, i) < |Encode(c)|
    ensures Encode(c[i := SetOffset(c[i], o)]) == Encode(c)[Pos(c, i) := CellSetOffset(Encode(c)[Pos(c, i)], Pos(c, i + o) - Pos(c, i))]
  {
    hide Pos, Flatten, Relocate;
    var d, r := c[i := SetOffset(c[i], o)], Relocate(c);
    var e := Relocate(d);
    HeadAt(c, i);
    RelocateAt(c, i);
    RelocateAt(d, i);
    forall k ensures Pos(d, k) == Pos(c, k) { UpdatePos(c, i, o, k); }
    forall k | 0 <= k < |c| && k != i ensures e[k] == r[k] { RelocateSame(c, d, k); }
    PosPrefix(r, i);
    RelocatePos(c, i);
    assert e == r[i := SetOffset(r[i], Pos(c, i + o) - Pos(c, i))];
    FlattenUpdate(r, i, Pos(c, i + o) - Pos(c, i));
  }

  lemma UpdatePos(c: Code, i: nat, o: int, k: int)
    requires i < |c| && IsJmp(c[i])
    ensures Pos(c[i := SetOffset(c[i], o)], k) == Pos(c, k)
  {
    hide Pos;
    PosSame(c, c[i := SetOffset(c[i], o)], k);
  }

  lemma FlattenUpdate(r: Code, i: nat, o: int)
    requires i < |r| && IsJmp(r[i])
    ensures |Flatten(r[..i])| < |Flatten(r)| && Flatten(r[i := SetOffset(r[i], o)]) == Flatten(r)[|Flatten(r[..i])| := CellSetOffset(Header(r[i]), o)]
    ensures Flatten(r)[|Flatten(r[..i])|] == Header(r[i])
  {
    hide Flatten, Header;
    var x, y, a, b := r[i], SetOffset(r[i], o), r[..i], r[i + 1..];
    assert r == a + ([x] + b) && r[i := y] == a + ([y] + b);
    FlattenAppend(a, [x] + b);
    FlattenAppend(a, [y] + b);
    FlattenAppend([x], b);
    FlattenAppend([y], b);
    FlattenOne(x);
    FlattenOne(y);
    JumpCells(x, o);
    UpdateInside(Flatten(a), Header(x), CellSetOffset(Header(x), o), Flatten(b));
  }

  lemma JumpCells(x: Inst, o: int)
    requires IsJmp(x)
    ensures InstCells(x) == [Header(x)] && InstCells(SetOffset(x, o)) == [CellSetOffset(Header(x), o)]
  {
  }

  lemma UpdateInside(a: Cells, x: Cell, y: Cell, b: Cells)
    ensures (a + ([x] + b))[|a| := y] == a + ([y] + b) && (a + ([x] + b))[|a|] == x
  {
  }

  /** optimizejumps, over cells and over instructions. */
  lemma {:induction false} JumpsFromAgree(c: Code, i: nat)
    requires WF(c) && i <= |c|
    ensures 0 <= Pos(c, i) && CellJumpsFrom(Encode(c), Pos(c, i)) == Encode(OptimizeJumpsFrom(c, i))
    decreases |c| - i
  {
    hide Pos, Encode, WF, Width, CellWidth, Target, CellTarget, Replaces, OnlyShortens, IsJmp, IsJmpCell;
    PosInside(c, i);
    EncodeLength(c);
    if i < |c| {
      JumpHead(c, i);
      if IsJmp(c[i]) {
        ChainAgrees(c, Dest(c, i));
        var t := Target(c, Dest(c, i));
        EncodeUpdate(c, i, t - i);
        RetargetKeeps(c, i);
        UpdatePos(c, i, t - i, i + 1);
        JumpsFromAgree(Retarget(c, i), i + 1);
      } else {
        JumpsFromAgree(c, i + 1);
      }
    }
  }

  lemma JumpsAgree(c: Code)
    requires WF(c)
    ensures CellOptimizeJumps(Encode(c)) == Encode(OptimizeJumps(c))
  {
    hide Encode, WF;
    PosZero(c);
    JumpsFromAgree(c, 0);
  }

  // ---------- the first alternative of a choice ----------

  /** The cell before the target of the first instruction belongs to a charset, and looks like the jump
      at the end of an alternative. */
  predicate MisreadPart(c: Code) {
    c != [] && (IsTest(c[0]) || c[0].Choice?) &&
    (var t := Dest(c, 0);
     0 < t <= |c| && HasCharset(c[t - 1]) &&
     (var x := RawCell(c[t - 1].cs, RAWCELLS - 1);
      (x.code == ICOMMIT || (x.code == IJMP && !c[0].Choice?)) && Pos(c, t) - 1 + x.offset == Size(c)))
  }

  /** The first alternative ends at the same place, exactly if no charset is misread. */
  lemma FirstPartExact(c: Code)
    requires Within(c)
    ensures CellFirstPart(Encode(c)) == Pos(c, FirstPart(c)) <==> !MisreadPart(c)
  {
    hide Pos, Encode, RawCell;
    EncodeSome(c);
    PosZero(c);
    if c != [] {
      HeadAt(c, 0);
      RelocateAt(c, 0);
      CheckIs(Relocate(c)[0]);
      EncodeLength(c);
      if IsTest(c[0]) || c[0].Choice? {
        var t := Dest(c, 0);
        if t > 0 {
          BeforeTarget(c, t);
          if !HasCharset(c[t - 1]) {
            HeadAt(c, t - 1);
            if c[t - 1].Jmp? || c[t - 1].Commit? { PosOrder(c, Dest(c, t - 1), |c|); }
          }
        }
      }
    }
  }

  lemma BeforeTarget(c: Code, t: nat)
    requires 0 < t <= |c|
    ensures 0 < Pos(c, t) <= |Encode(c)|
    ensures Encode(c)[Pos(c, t) - 1] == if HasCharset(c[t - 1]) then RawCell(c[t - 1].cs, RAWCELLS - 1) else HeadOf(c, t - 1)
    ensures !HasCharset(c[t - 1]) ==> Pos(c, t - 1) == Pos(c, t) - 1
  {
    hide Flatten, RawCell, Header;
    LastCell(Relocate(c), t);
    RelocatePos(c, t);
    RelocateKind(c, t - 1);
    RelocateAt(c, t - 1);
    PosNext(c, t - 1);
  }
}
