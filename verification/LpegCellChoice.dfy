/** Ordered choice over cells: taken apart and rebuilt as over instructions, unless the end of a
    charset is taken for the end of an alternative. */
module LpegCellChoice {
  import opened LpegMachine
  import opened LpegCombinators
  import opened LpegWellFormed
  import opened LpegChoice
  import opened LpegCells
  import opened LpegCellPasses
  import opened LpegCellBuild
  import opened LpegCellRelate
  import opened LpegCellShapes
  import opened LpegCellJumps

  // ---------- two alternatives ----------

  lemma EncodeOne(i: Inst)
    requires !HasTarget(i)
    ensures Encode([i]) == InstCells(i)
  {
    RelocatePlain([i], 0);
    assert Relocate([i]) == [i];
    FlattenOne(i);
  }

  /** The choice of two codes, with nothing leading between it and the check behind it. */
  lemma UnionShapeClear(c1: Code, c2: Code)
    requires WF(c1) && WF(c2)
    ensures var s := Framed(Choice(|c1| + 2, 0), c1, Commit(|c2| + 1), c2); ChoiceClear(s) && s[0] == Choice(|c1| + 2, 0)
  {
    hide WF;
    var s := Framed(Choice(|c1| + 2, 0), c1, Commit(|c2| + 1), c2);
    if StartsWithCheck(c1) { WFClear(c1); }
    WFWithin(c1);
    WFWithin(c2);
    forall k | 0 <= k < |s| && HasTarget(s[k])
      ensures 0 <= Dest(s, k) <= |s| && (|s| > 1 && IsCheck(s[1]) && k >= 2 ==> Dest(s, k) >= 2)
    {
      if 1 <= k <= |c1| { assert s[k] == c1[k - 1] && Dest(s, k) == Dest(c1, k - 1) + 1; }
      else if k > |c1| + 1 { assert s[k] == c2[k - |c1| - 2] && Dest(s, k) == Dest(c2, k - |c1| - 2) + |c1| + 2; }
    }
  }

  lemma ShapeFits(h: Inst, c: Code, t: Inst, d: Code)
    requires InstFits(h) && InstFits(t) && CodeFits(c) && CodeFits(d)
    ensures CodeFits(Framed(h, c, t, d))
  {
    var s := Framed(h, c, t, d);
    forall k | 0 <= k < |s| ensures InstFits(s[k]) {
      if 1 <= k <= |c| { assert s[k] == c[k - 1]; } else if k > |c| + 1 { assert s[k] == d[k - |c| - 2]; }
    }
  }

  /** basicUnion. */
  lemma BasicUnionAgrees(c1: Code, c2: Code, t2: CharsetTag)
    requires WF(c1) && WF(c2) && CodeFits(c1) && CodeFits(c2)
    ensures CellBasicUnion(Encode(c1), Encode(c2), t2) == Encode(BasicUnion(c1, c2, t2))
  {
    hide WF, CodeFits, Encode, Pos, InstCells, CellOptimizeChoice, CellCheckToTest, Framed, TestShape, ChoiceClear, OptimizeChoice, CheckToTest, Within, CellHeadFail, IsHeadFail;
    TagAgrees(c1);
    HeadFailAgrees(c1);
    EncodeSome(c1);
    EncodeLength(c1);
    EncodeLength(c2);
    WFWithin(c1);
    WFWithin(c2);
    var t1 := ToCharset(c1);
    if t1.IsCharset? && t2.IsCharset? {
      EncodeOne(Set(t1.cs + t2.cs, 0));
    } else if Exclusive(t1, t2) || IsHeadFail(c1) {
      StartsSo(c1, t2);
      TestShapeCells(c1, Jmp(|c2| + 1), c2);
      TestShapeIs(c1, Jmp(|c2| + 1), c2);
    } else {
      ShapeCells(Choice(|c1| + 2, 0), c1, Commit(|c2| + 1), c2);
      UnionShapeClear(c1, c2);
      ShapeFits(Choice(|c1| + 2, 0), c1, Commit(|c2| + 1), c2);
      ChoiceAgrees(Framed(Choice(|c1| + 2, 0), c1, Commit(|c2| + 1), c2));
      ShapeIs(Choice(|c1| + 2, 0), c1, Commit(|c2| + 1), c2);
    }
  }

  lemma StartsSo(c: Code, t2: CharsetTag)
    requires Exclusive(ToCharset(c), t2) || IsHeadFail(c)
    ensures StartsWithCheck(c)
  {
  }

  lemma ShapeIs(h: Inst, c: Code, t: Inst, d: Code)
    ensures Framed(h, c, t, d) == [h] + c + [t] + d
  {
  }

  lemma TestShapeIs(c: Code, t: Inst, d: Code)
    requires StartsWithCheck(c)
    ensures TestShape(c, t, d) == CheckToTest(c, |c| + 1) + [t] + d
  {
  }

  // ---------- an alternative before the rest ----------

  /** An alternative at the start of a code: what leads out of its own instructions leads to its end. */
  predicate PartOk(c: Code, sp: nat) {
    && 1 < sp <= |c| && (IsTest(c[0]) || c[0].Choice?) && c[0].offset == sp && (c[sp - 1].Jmp? || c[sp - 1].Commit?) && Dest(c, sp - 1) == |c|
    && (forall k :: 0 <= k < sp - 1 && HasTarget(c[k]) ==> 0 <= Dest(c, k) <= sp)
    && (c[sp - 1].Jmp? ==> IsTest(c[0]) && forall k :: 1 <= k < sp - 1 && HasTarget(c[k]) ==> Dest(c, k) >= 1)
    && Within(c[sp..])
  }

  lemma GoodPart(c: Code)
    requires Good(c) && FirstPart(c) > 0
    ensures PartOk(c, FirstPart(c)) && Good(c[FirstPart(c)..])
  {
    hide WF, Total, WalkTotal, FormSound;
    var sp := FirstPart(c);
    var f :| HasForm(c, f) && |FormCode(f)| == sp;
    var a, x := FormCode(f), c[sp..];
    WithExitAt(a, x);
    assert forall k :: 0 <= k < sp - 1 ==> c[k] == a[k];
    FormTargets(f, x);
    forall k | 0 <= k < sp - 1 && HasTarget(c[k]) ensures 0 <= Dest(c, k) <= sp && (c[sp - 1].Jmp? && k >= 1 ==> Dest(c, k) >= 1) { assert Dest(a, k) == Dest(c, k); }
    assert Good(x);
    WFWithin(x);
  }

  /** Where the instructions of an alternative lead. */
  lemma FormTargets(f: Form, x: Code)
    requires FormShape(f) && FormSound(f, x)
    ensures var a := FormCode(f);
      && (forall k :: 0 <= k < |a| - 1 && HasTarget(a[k]) ==> 0 <= Dest(a, k) <= |a|)
      && (a[|a| - 1].Jmp? ==> IsTest(a[0]) && forall k :: 1 <= k < |a| - 1 && HasTarget(a[k]) ==> Dest(a, k) >= 1)
  {
    hide WF, Total, WalkTotal, Excludes;
    var a := FormCode(f);
    match f
    case Option(b) => WFWithin(b);
    case Plain(e) =>
      WFWithin(e);
      forall k | 0 <= k < |a| - 1 && HasTarget(a[k]) ensures 0 <= Dest(a, k) <= |a| { if k >= 1 { assert a[k] == e[k - 1] && Dest(a, k) == Dest(e, k - 1) + 1; } }
    case Tested(e, aux) =>
      WFWithin(e);
      forall k | 0 <= k < |a| - 1 && HasTarget(a[k]) ensures 0 <= Dest(a, k) <= |a| { if k >= 2 { assert a[k] == e[k - 1] && Dest(a, k) == Dest(e, k - 1) + 1; } }
    case Testing(e) =>
      WFWithin(e);
      WFClear(e);
      forall k | 0 <= k < |a| - 1 && HasTarget(a[k]) ensures 0 <= Dest(a, k) <= |a| && (k >= 1 ==> Dest(a, k) >= 1) { if k >= 1 { assert a[k] == e[k] && Dest(a, k) == Dest(e, k); } }
  }

  /** The cells of an alternative. */
  lemma PartCells(c: Code, sp: nat)
    requires PartOk(c, sp)
    ensures 0 < Pos(c, sp) <= |Encode(c)|
    ensures var p, r := Encode(c)[..Pos(c, sp)], Relocate(c);
      p == Flatten(r[..sp - 1]) + [Header(r[sp - 1])] && Encode(c)[Pos(c, sp)..] == Encode(c[sp..])
    ensures 1 <= Width(c[0]) < Pos(c, sp)
  {
    hide Flatten, Pos, Relocate, Header, Within;
    var r := Relocate(c);
    PosInside(c, sp);
    RelocatePos(c, sp);
    FlattenPrefix(r, sp);
    assert r[..sp] == r[..sp - 1] + [r[sp - 1]];
    FlattenSnoc(r[..sp - 1], r[sp - 1]);
    RelocateAt(c, sp - 1);
    assert InstCells(r[sp - 1]) == [Header(r[sp - 1])];
    PartRest(c, sp);
    PosZero(c);
    PosNext(c, 0);
    PosUp(c, 1, sp);
  }

  lemma PartRest(c: Code, sp: nat)
    requires sp <= |c| && Within(c[sp..])
    ensures Relocate(c)[sp..] == Relocate(c[sp..])
  {
    hide Relocate, Within;
    var b := c[sp..];
    assert c[sp..sp + |b|] == b;
    RelocatePart(c, sp, b);
    assert Relocate(c)[sp..sp + |b|] == Relocate(c)[sp..];
  }

  function Kept(c: Code, sp: nat, rest: Code): Code
    requires 0 < sp <= |c| && (c[sp - 1].Jmp? || c[sp - 1].Commit?)
  {
    c[..sp - 1] + [SetOffset(c[sp - 1], |rest| + 1)] + rest
  }

  lemma KeptRelocate(c: Code, sp: nat, rest: Code)
    requires PartOk(c, sp) && Within(rest)
    ensures Relocate(Kept(c, sp, rest)) == Relocate(c)[..sp - 1] + [SetOffset(Relocate(c)[sp - 1], Size(rest) + 1)] + Relocate(rest)
  {
    hide Pos, Relocate, Within, Width;
    var d, r := Kept(c, sp, rest), Relocate(c);
    var e := Relocate(d);
    assert d[sp..sp + |rest|] == rest && |d| == sp + |rest|;
    KeptPos(c, sp, rest);
    RelocatePart(d, sp, rest);
    forall k | 0 <= k < sp - 1 ensures e[k] == r[k] {
      assert d[k] == c[k];
      RelocateAt(c, k);
      RelocateAt(d, k);
    }
    RelocateAt(c, sp - 1);
    RelocateAt(d, sp - 1);
    assert e[sp - 1] == SetOffset(r[sp - 1], Size(rest) + 1);
    assert e == e[..sp - 1] + [e[sp - 1]] + e[sp..sp + |rest|];
    assert e[..sp - 1] == r[..sp - 1];
  }

  lemma KeptPos(c: Code, sp: nat, rest: Code)
    requires PartOk(c, sp)
    ensures var d := Kept(c, sp, rest);
      && (forall k :: 0 <= k <= sp ==> Pos(d, k) == Pos(c, k)) && Pos(c, sp) == Pos(c, sp - 1) + 1 && Pos(d, sp + |rest|) == Pos(c, sp) + Size(rest)
  {
    hide Pos, Within;
    var d := Kept(c, sp, rest);
    forall k | 0 <= k <= sp ensures Pos(d, k) == Pos(c, k) {
      if k < sp { PosUntil2(c, d, k); } else { PosUntil2(c, d, sp - 1); PosNext(c, sp - 1); PosNext(d, sp - 1); }
    }
    PosNext(c, sp - 1);
    assert d[sp..sp + |rest|] == rest;
    ShapeWidths(d, sp, rest);
    PosIn(d, sp, rest, |rest|);
  }

  lemma {:induction false} PosUntil2(c: Code, d: Code, k: int)
    requires k <= |c| && k <= |d| && forall j :: 0 <= j < k ==> Width(c[j]) == Width(d[j])
    ensures Pos(c, k) == Pos(d, k)
    decreases k
  {
    if k > 0 { PosUntil2(c, d, k - 1); }
  }

  /** The alternative as it is. */
  lemma KeepAgrees(c: Code, sp: nat, rest: Code)
    requires PartOk(c, sp) && Within(rest)
    ensures 0 < Pos(c, sp) <= |Encode(c)|
    ensures var p := Encode(c)[..Pos(c, sp)]; var e := |p| - 1;
      Encode(Kept(c, sp, rest)) == p[..e] + [CellSetOffset(p[e], |Encode(rest)| + 1)] + Encode(rest)
  {
    hide Pos, Relocate, Flatten, Header, Kept, Within;
    var r := Relocate(c);
    PartCells(c, sp);
    KeptRelocate(c, sp, rest);
    EncodeLength(rest);
    RelocateAt(c, sp - 1);
    var z := SetOffset(r[sp - 1], Size(rest) + 1);
    FlattenAppend(r[..sp - 1] + [z], Relocate(rest));
    FlattenSnoc(r[..sp - 1], z);
    JumpCells(r[sp - 1], Size(rest) + 1);
    var a, p := Flatten(r[..sp - 1]), Encode(c)[..Pos(c, sp)];
    assert p[..|p| - 1] == a && p[|p| - 1] == Header(r[sp - 1]);
  }

  function Rebuilt(c: Code, sp: nat, rest: Code): Code
    requires 1 < sp <= |c| && IsTest(c[0])
  {
    [SetOffset(c[0], sp + 1), Choice(sp, 1)] + c[1..sp - 1] + [Commit(|rest| + 1)] + rest
  }

  lemma RebuiltPos(c: Code, sp: nat, rest: Code)
    requires PartOk(c, sp) && IsTest(c[0])
    ensures var d := Rebuilt(c, sp, rest);
      && Pos(d, 0) == 0 && Pos(d, 1) == Width(c[0]) && (forall k :: 1 <= k <= sp ==> Pos(d, k + 1) == Pos(c, k) + 1)
      && Pos(c, sp) == Pos(c, sp - 1) + 1 && Pos(d, sp + 1 + |rest|) == Pos(c, sp) + 1 + Size(rest)
  {
    hide Pos, Within;
    var d := Rebuilt(c, sp, rest);
    PosZero(d); PosZero(c);
    PosNext(d, 0); PosNext(d, 1); PosNext(c, 0);
    PosNext(c, sp - 1);
    forall k | 1 <= k <= sp ensures Pos(d, k + 1) == Pos(c, k) + 1 { ShiftedPos(c, d, k, sp); }
    assert d[sp + 1..sp + 1 + |rest|] == rest;
    ShapeWidths(d, sp + 1, rest);
    PosIn(d, sp + 1, rest, |rest|);
  }

  lemma {:induction false} ShiftedPos(c: Code, d: Code, k: nat, sp: nat)
    requires 1 <= k <= sp <= |c| && sp + 1 <= |d| && Pos(d, 2) == Pos(c, 1) + 1 && forall j :: 1 <= j < sp ==> Width(d[j + 1]) == Width(c[j])
    ensures Pos(d, k + 1) == Pos(c, k) + 1
    decreases k
  {
    if k > 1 {
      ShiftedPos(c, d, k - 1, sp);
      PosNext(c, k - 1);
      PosNext(d, k);
      assert Width(d[(k - 1) + 1]) == Width(c[k - 1]);
    }
  }

  lemma RebuiltRelocate(c: Code, sp: nat, rest: Code)
    requires PartOk(c, sp) && Within(rest) && c[sp - 1].Jmp?
    ensures Relocate(Rebuilt(c, sp, rest)) ==
      [SetOffset(Relocate(c)[0], Pos(c, sp) + 1), Choice(Pos(c, sp) - Width(c[0]) + 1, 1)] + Relocate(c)[1..sp - 1] + [Commit(Size(rest) + 1)] + Relocate(rest)
  {
    hide Pos, Relocate, Within, Width, Rebuilt;
    var d, r := Rebuilt(c, sp, rest), Relocate(c);
    var e := Relocate(d);
    RebuiltHeads(c, sp, rest);
    RebuiltMiddle(c, sp, rest);
    RelocatePart(d, sp + 1, rest);
    assert e == [e[0], e[1]] + e[2..sp] + [e[sp]] + e[sp + 1..sp + 1 + |rest|];
  }

  lemma RebuiltHeads(c: Code, sp: nat, rest: Code)
    requires PartOk(c, sp) && c[sp - 1].Jmp?
    ensures var d, r := Rebuilt(c, sp, rest), Relocate(c);
      && |d| == sp + 1 + |rest| && 1 < sp <= |c| == |r| && PartAt(d, sp + 1, rest) && IsTest(r[0])
      && Relocate(d)[0] == SetOffset(r[0], Pos(c, sp) + 1) && Relocate(d)[1] == Choice(Pos(c, sp) - Width(c[0]) + 1, 1) && Relocate(d)[sp] == Commit(Size(rest) + 1)
  {
    hide Pos, Relocate, Within, Width;
    var d := Rebuilt(c, sp, rest);
    RebuiltPos(c, sp, rest);
    assert d[sp + 1..sp + 1 + |rest|] == rest && |d| == sp + 1 + |rest|;
    RelocateAt(c, 0); RelocateAt(d, 0); RelocateAt(d, 1); RelocateAt(d, sp);
  }

  lemma RebuiltMiddle(c: Code, sp: nat, rest: Code)
    requires PartOk(c, sp) && c[sp - 1].Jmp?
    ensures sp <= |Rebuilt(c, sp, rest)| && Relocate(Rebuilt(c, sp, rest))[2..sp] == Relocate(c)[1..sp - 1]
  {
    hide Pos, Relocate, Within, Width;
    var d, r := Rebuilt(c, sp, rest), Relocate(c);
    var e := Relocate(d);
    RebuiltPos(c, sp, rest);
    forall j | 0 <= j < sp - 2 ensures e[2..sp][j] == r[1..sp - 1][j] {
      var k := j + 1;
      assert d[k + 1] == c[k];
      RelocateAt(c, k);
      RelocateAt(d, k + 1);
      assert e[k + 1] == r[k];
    }
  }

  /** The alternative with a choice again. */
  lemma RebuildAgrees(c: Code, sp: nat, rest: Code)
    requires PartOk(c, sp) && Within(rest) && c[sp - 1].Jmp?
    ensures 0 < Pos(c, sp) <= |Encode(c)| && Width(c[0]) < Pos(c, sp)
    ensures var p := Encode(c)[..Pos(c, sp)]; var e, w := |p| - 1, Width(c[0]);
      Encode(Rebuilt(c, sp, rest)) ==
        [CellSetOffset(p[0], Pos(c, sp) + 1)] + p[1..w] + InstCells(Choice(|p| - w + 1, 1)) + p[w..e] + InstCells(Commit(|Encode(rest)| + 1)) + Encode(rest)
  {
    hide Pos, Relocate, Flatten, Header, Rebuilt, Within, PartOk, InstCells;
    var r := Relocate(c);
    PartCells(c, sp);
    RebuiltRelocate(c, sp, rest);
    RebuiltHeads(c, sp, rest);
    EncodeLength(rest);
    RelocateKind(c, 0);
    var x, y, z := SetOffset(r[0], Pos(c, sp) + 1), Choice(Pos(c, sp) - Width(c[0]) + 1, 1), Commit(Size(rest) + 1);
    var mid := r[1..sp - 1];
    FlattenAppend([x, y] + mid + [z], Relocate(rest));
    FlattenSnoc([x, y] + mid, z);
    FlattenAppend([x, y], mid);
    FlattenSnoc([x], y);
    FlattenOne(x);
    assert [x] + [y] == [x, y] && r[..sp - 1] == [r[0]] + mid;
    FlattenAppend([r[0]], mid);
    FlattenOne(r[0]);
    TestCells(r[0], Pos(c, sp) + 1);
    CellsTaken(Encode(c)[..Pos(c, sp)], InstCells(r[0]), Flatten(mid), Header(r[sp - 1]));
  }

  lemma TestCells(x: Inst, o: int)
    requires IsCheckOp(x)
    ensures InstCells(SetOffset(x, o)) == [CellSetOffset(Header(x), o)] + InstCells(x)[1..] && InstCells(x) != [] && InstCells(x)[0] == Header(x) && |InstCells(x)| == Width(x)
  {
  }

  lemma CellsTaken(p: Cells, x: Cells, mid: Cells, z: Cell)
    requires p == (x + mid) + [z] && x != []
    ensures p[0] == x[0] && p[1..|x|] == x[1..] && p[|x|..|p| - 1] == mid
  {
  }

  // ---------- taking a choice apart ----------

  lemma {:induction false} NoFailFlat(r: Code, k: nat)
    requires k <= |r|
    ensures 0 <= Pos(r, k) <= |Flatten(r)| && (CellNoFail(Flatten(r), Pos(r, k), |Flatten(r)|) <==> AllNoFail(r[k..]))
    decreases |r| - k
  {
    hide Flatten, Pos, IsNoFail, NoFailCell, CellWidth;
    FlattenLength(r);
    PosUp(r, 0, k);
    PosUp(r, k, |r|);
    PosZero(r);
    if k < |r| {
      CellsAt(r, k);
      CodeIs(r[k]);
      WidthIs(r[k]);
      NoFailFlat(r, k + 1);
      assert r[k..] == [r[k]] + r[k + 1..];
    }
  }

  lemma FillFlat(r: Code)
    requires r != []
    ensures Flatten(r) != [] && Flatten(r)[0] == Header(r[0]) && CellFill(Flatten(r)) == FillCharset(r[0])
  {
    hide RawCells, Flatten, Header;
    CellsAt(r, 0);
    CodeIs(r[0]);
    if r[0].Set? {
      assert Flatten(r)[0..CHARSETINSTSIZE] == [Header(r[0])] + RawCells(r[0].cs);
      assert Flatten(r)[1..CHARSETINSTSIZE] == Flatten(r)[0..CHARSETINSTSIZE][1..];
      CharsetBack(r[0].cs);
    }
  }

  lemma InterfereAgrees(c: Code, sp: nat, t2: CharsetTag)
    requires 0 < sp <= |c|
    ensures 0 < Pos(c, sp) <= |Encode(c)| && CellInterfere(Encode(c)[..Pos(c, sp)], t2) == Interfere(c[..sp], t2)
  {
    hide Flatten, Pos, Relocate, IsNoFail, NoFailCell, CellFill, Header;
    var r := Relocate(c);
    var part := r[..sp];
    PosInside(c, sp);
    RelocatePos(c, sp);
    FlattenPrefix(r, sp);
    PosZero(part);
    NoFailFlat(part, 0);
    assert part[0..] == part;
    forall k | 0 <= k < sp ensures IsNoFail(part[k]) == IsNoFail(c[..sp][k]) { RelocateKind(c, k); }
    FillFlat(part);
    CodeIs(part[0]);
    RelocateKind(c, 0);
  }

  /** One alternative put before the rest. */
  lemma PlaceAgrees(c: Code, sp: nat, rest: Code, t2: CharsetTag)
    requires PartOk(c, sp) && Within(rest)
    ensures 0 < Pos(c, sp) <= |Encode(c)| && IsPart(c[..sp])
    ensures CellPlace(Encode(c)[..Pos(c, sp)], Encode(rest), t2) == Encode(PlacePart(c[..sp], rest, t2))
  {
    hide Pos, Encode, InstCells, CellInterfere, Interfere, Within, CellPlace, PlacePart, PartOk, Kept, Rebuilt;
    PartFacts(c, sp);
    InterfereAgrees(c, sp, t2);
    if c[sp - 1].Commit? || !Interfere(c[..sp], t2) {
      KeepAgrees(c, sp, rest);
      PlaceKept(c, sp, rest, t2);
      CellsKept(Encode(c)[..Pos(c, sp)], Encode(rest), t2);
    } else {
      PlaceRebuilt(c, sp, rest, t2);
      RebuildAgrees(c, sp, rest);
      CellsRebuilt(Encode(c)[..Pos(c, sp)], Encode(rest), t2);
    }
  }

  lemma PlaceKept(c: Code, sp: nat, rest: Code, t2: CharsetTag)
    requires PartOk(c, sp) && IsPart(c[..sp]) && (c[sp - 1].Commit? || !Interfere(c[..sp], t2))
    ensures PlacePart(c[..sp], rest, t2) == Kept(c, sp, rest)
  {
    hide Within, Interfere;
    assert c[..sp][..sp - 1] == c[..sp - 1];
  }

  lemma PlaceRebuilt(c: Code, sp: nat, rest: Code, t2: CharsetTag)
    requires PartOk(c, sp) && IsPart(c[..sp]) && !(c[sp - 1].Commit? || !Interfere(c[..sp], t2))
    ensures c[sp - 1].Jmp? && PlacePart(c[..sp], rest, t2) == Rebuilt(c, sp, rest)
  {
    hide Within, Interfere;
    assert c[..sp][1..sp - 1] == c[1..sp - 1];
  }

  lemma CellsKept(part: Cells, rest: Cells, t2: CharsetTag)
    requires part != [] && (part[|part| - 1].code == ICOMMIT || !CellInterfere(part, t2))
    ensures var e := |part| - 1; CellPlace(part, rest, t2) == part[..e] + [CellSetOffset(part[e], |rest| + 1)] + rest
  {
    hide CellInterfere;
  }

  lemma CellsRebuilt(part: Cells, rest: Cells, t2: CharsetTag)
    requires part != [] && part[|part| - 1].code != ICOMMIT && CellInterfere(part, t2) && CellWidth(part[0]) < |part|
    ensures var e, w := |part| - 1, CellWidth(part[0]);
      CellPlace(part, rest, t2) ==
        [CellSetOffset(part[0], part[0].offset + 1)] + part[1..w] + InstCells(Choice(|part| - w + 1, 1)) + part[w..e] + InstCells(Commit(|rest| + 1)) + rest
  {
    hide CellInterfere, InstCells;
  }

  lemma PartFacts(c: Code, sp: nat)
    requires PartOk(c, sp)
    ensures 1 < sp <= |c| && IsPart(c[..sp]) && 0 < Pos(c, sp) <= |Encode(c)|
    ensures var p := Encode(c)[..Pos(c, sp)]; (p[|p| - 1].code == ICOMMIT <==> c[sp - 1].Commit?) && CellWidth(p[0]) == Width(c[0]) < |p| && p[0].offset == Pos(c, sp)
  {
    hide Pos, Encode, Within;
    PosInside(c, sp);
    HeadAt(c, sp - 1);
    HeadAt(c, 0);
    PosNext(c, sp - 1);
    PosZero(c);
    PosUp(c, 1, sp);
    PosNext(c, 0);
    PosOrder(c, 1, sp);
    if sp - 1 > 0 { PosUp(c, 1, sp - 1); }
  }

  /** No charset is misread while the choice is taken apart. */
  predicate PartsClear(c: Code)
    decreases |c|
  {
    !MisreadPart(c) && (FirstPart(c) > 0 ==> PartsClear(c[FirstPart(c)..]))
  }

  lemma SuffixFits(c: Code, k: nat)
    requires CodeFits(c) && k <= |c|
    ensures CodeFits(c[k..])
  {
  }

  /** What a choice of two codes leads to stays inside it. */
  lemma BasicWithin(c1: Code, c2: Code, t2: CharsetTag)
    requires WF(c1) && WF(c2)
    ensures Within(BasicUnion(c1, c2, t2))
  {
    hide WF, ToCharset, Exclusive, IsHeadFail, OptimizeChoice, Framed, ChoiceClear, TestShape;
    var t1 := ToCharset(c1);
    WFWithin(c1);
    WFWithin(c2);
    if t1.IsCharset? && t2.IsCharset? {
    } else if Exclusive(t1, t2) || IsHeadFail(c1) {
      StartsSo(c1, t2);
      TestUnionWithin(c1, c2);
    } else {
      UnionShapeClear(c1, c2);
      ShapeIs(Choice(|c1| + 2, 0), c1, Commit(|c2| + 1), c2);
      ChoiceWithin([Choice(|c1| + 2, 0)] + c1 + [Commit(|c2| + 1)] + c2);
    }
  }

  lemma TestUnionWithin(c1: Code, c2: Code)
    requires Within(c1) && Within(c2) && StartsWithCheck(c1)
    ensures Within(CheckToTest(c1, |c1| + 1) + [Jmp(|c2| + 1)] + c2)
  {
    var s := CheckToTest(c1, |c1| + 1) + [Jmp(|c2| + 1)] + c2;
    forall k | 0 <= k < |s| && HasTarget(s[k]) ensures 0 <= Dest(s, k) <= |s| {
      if 1 <= k < |c1| { assert s[k] == c1[k] && Dest(s, k) == Dest(c1, k); }
      else if k > |c1| { assert s[k] == c2[k - |c1| - 1] && Dest(s, k) == Dest(c2, k - |c1| - 1) + |c1| + 1; }
    }
  }

  lemma ChoiceWithin(c: Code)
    requires ChoiceClear(c)
    ensures c != [] && c[0].Choice? && Within(OptimizeChoice(c))
  {
    var d := OptimizeChoice(c);
    forall k | 0 <= k < |d| && HasTarget(d[k]) ensures 0 <= Dest(d, k) <= |d| {
      if k >= 2 { assert d[k] == c[k] && Dest(d, k) == Dest(c, k); } else { assert 0 <= Dest(c, 0) <= |c|; }
    }
  }

  lemma PlaceWithin(c: Code, sp: nat, rest: Code, t2: CharsetTag)
    requires PartOk(c, sp) && Within(rest)
    ensures IsPart(c[..sp]) && Within(PlacePart(c[..sp], rest, t2))
  {
    hide Interfere, PartOk, Kept, Rebuilt, PlacePart, IsPart, Within;
    PartFacts(c, sp);
    if c[sp - 1].Commit? || !Interfere(c[..sp], t2) {
      PlaceKept(c, sp, rest, t2);
      KeptWithin(c, sp, rest);
    } else {
      PlaceRebuilt(c, sp, rest, t2);
      RebuiltWithin(c, sp, rest);
    }
  }

  lemma KeptWithin(c: Code, sp: nat, rest: Code)
    requires PartOk(c, sp) && Within(rest)
    ensures Within(Kept(c, sp, rest))
  {
    var d := Kept(c, sp, rest);
    forall k | 0 <= k < |d| && HasTarget(d[k]) ensures 0 <= Dest(d, k) <= |d| {
      if k < sp - 1 { assert d[k] == c[k] && Dest(d, k) == Dest(c, k); }
      else if k >= sp { assert d[k] == rest[k - sp] && Dest(d, k) == Dest(rest, k - sp) + sp; }
    }
  }

  lemma RebuiltWithin(c: Code, sp: nat, rest: Code)
    requires PartOk(c, sp) && Within(rest) && c[sp - 1].Jmp?
    ensures IsTest(c[0]) && Within(Rebuilt(c, sp, rest))
  {
    var d := Rebuilt(c, sp, rest);
    forall k | 0 <= k < |d| && HasTarget(d[k]) ensures 0 <= Dest(d, k) <= |d| {
      if 2 <= k < sp { assert d[k] == c[k - 1] && Dest(d, k) == Dest(c, k - 1) + 1; }
      else if k > sp { assert d[k] == rest[k - sp - 1] && Dest(d, k) == Dest(rest, k - sp - 1) + sp + 1; }
    }
  }

  lemma {:induction false} SeparateWithin(c1: Code, c2: Code, t2: CharsetTag)
    requires Good(c1) && WF(c2)
    ensures Within(SeparateParts(c1, c2, t2))
    decreases |c1|
  {
    hide WF, PartOk, Within, BasicUnion, PlacePart, Total, WalkTotal, HasForm, FirstPart, Good, IsPart;
    GoodWF(c1);
    var sp := FirstPart(c1);
    if sp == 0 {
      BasicWithin(c1, c2, t2);
    } else {
      GoodPart(c1);
      SeparateWithin(c1[sp..], c2, t2);
      PlaceWithin(c1, sp, SeparateParts(c1[sp..], c2, t2), t2);
    }
  }

  /** What is placed behind an alternative can be told from the result. */
  lemma PlacedOnce(part: Cells, x: Cells, y: Cells, t2: CharsetTag)
    requires part != [] && CellPlace(part, x, t2) == CellPlace(part, y, t2)
    ensures x == y
  {
    hide CellInterfere;
    var n, a, b := |CellPlace(part, [], t2)|, CellPlace(part, x, t2), CellPlace(part, y, t2);
    assert |a| == n + |x| && |b| == n + |y|;
    assert a[n..] == x && b[n..] == y;
  }

  /** The first cell of a choice whose first alternative does not start with a check. */
  lemma UnionHead(p1: Cells, p2: Cells, t2: CharsetTag)
    requires p1 != [] && !IsCheckCell(p1[0])
    ensures CellBasicUnion(p1, p2, t2) != [] && CellBasicUnion(p1, p2, t2)[0] == Cell(ICHOICE, 0, |p1| + 2)
  {
    hide IsCheckCell;
    assert CellTag(p1).NoInfo? && !CellHeadFail(p1);
    var raw := InstCells(Choice(|p1| + 2, 0)) + p1 + InstCells(Commit(|p2| + 1)) + p2;
    assert raw[1] == p1[0] && raw[0] == Cell(ICHOICE, 0, |p1| + 2);
  }

  /** Something taken for the end of an alternative is seen in the first cell. */
  lemma MisreadHead(p: Cells, x: Cells, t2: CharsetTag)
    requires CellFirstPart(p) > 0
    ensures CellPlace(p[..CellFirstPart(p)], x, t2) != [] && CellPlace(p[..CellFirstPart(p)], x, t2)[0] != Cell(ICHOICE, 0, |p| + 2)
  {
    hide CellInterfere;
    var sp := CellFirstPart(p);
    assert sp == p[0].offset && sp > 1;
  }

  lemma MisreadPartIs(c: Code)
    requires MisreadPart(c)
    ensures FirstPart(c) == 0 && c != [] && !IsCheck(c[0])
  {
  }

  /** separateparts over cells gives the cells of the code that it gives over instructions, exactly if
      no charset is misread on the way. */
  lemma {:induction false} SeparateExact(c1: Code, c2: Code)
    requires Good(c1) && WF(c2) && CodeFits(c1) && CodeFits(c2)
    ensures CellSeparate(Encode(c1), Encode(c2), ToCharset(c2)) == Encode(SeparateParts(c1, c2, ToCharset(c2))) <==> PartsClear(c1)
    decreases |c1|
  {
    hide WF, Encode, Pos, CodeFits, MisreadPart, PartOk, Within, BasicUnion, CellBasicUnion, PlacePart, CellPlace, Total, WalkTotal, HasForm, CellFirstPart, FirstPart, Good, IsCheckCell, IsCheck;
    var t2, sp := ToCharset(c2), FirstPart(c1);
    GoodWF(c1);
    WFWithin(c1);
    FirstPartExact(c1);
    PosZero(c1);
    if MisreadPart(c1) {
      MisreadPartIs(c1);
      StartAgrees(c1);
      BasicUnionAgrees(c1, c2, t2);
      UnionHead(Encode(c1), Encode(c2), t2);
      MisreadHead(Encode(c1), CellSeparate(Encode(c1)[CellFirstPart(Encode(c1))..], Encode(c2), t2), t2);
    } else if sp == 0 {
      BasicUnionAgrees(c1, c2, t2);
    } else {
      GoodPart(c1);
      SuffixFits(c1, sp);
      SeparateExact(c1[sp..], c2);
      SeparateWithin(c1[sp..], c2, t2);
      PosOrder(c1, 0, sp);
      RestCells(c1, sp);
      PlaceExact(c1, sp, SeparateParts(c1[sp..], c2, t2), CellSeparate(Encode(c1[sp..]), Encode(c2), t2), t2);
    }
  }

  /** One alternative before a rest in cells and the rest in instructions. */
  lemma PlaceExact(c: Code, sp: nat, rest: Code, cells: Cells, t2: CharsetTag)
    requires PartOk(c, sp) && Within(rest)
    ensures 0 < Pos(c, sp) <= |Encode(c)| && IsPart(c[..sp])
    ensures CellPlace(Encode(c)[..Pos(c, sp)], cells, t2) == Encode(PlacePart(c[..sp], rest, t2)) <==> cells == Encode(rest)
  {
    hide Pos, Encode, CellPlace, PlacePart, PartOk, IsPart, Within;
    PlaceAgrees(c, sp, rest, t2);
    var part := Encode(c)[..Pos(c, sp)];
    if CellPlace(part, cells, t2) == CellPlace(part, Encode(rest), t2) { PlacedOnce(part, cells, Encode(rest), t2); }
  }

  lemma GoodWF(c: Code)
    requires Good(c)
    ensures WF(c)
  {
  }

  lemma RestCells(c: Code, sp: nat)
    requires PartOk(c, sp)
    ensures 0 < Pos(c, sp) <= |Encode(c)| && Encode(c)[Pos(c, sp)..] == Encode(c[sp..])
  {
    hide Pos, Encode, Within;
    PartCells(c, sp);
  }
}
