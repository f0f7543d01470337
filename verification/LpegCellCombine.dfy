/** Each combinator over cells writes the cells of the code it is meant to write, unless it reads the
    end of a charset as an instruction; for the passes that may, exactly when it does not. */
module LpegCellCombine {
  import opened LpegMachine
  import opened LpegCombinators
  import opened LpegVerifier
  import opened LpegWellFormed
  import opened LpegSequence
  import opened LpegRepetition
  import opened LpegChoice
  import opened LpegCells
  import opened LpegCellPasses
  import opened LpegCellBuild
  import opened LpegCellRelate
  import opened LpegCellShapes
  import opened LpegCellJumps
  import opened LpegCellChoice

  lemma WFFits(c: Code)
    requires WF(c)
    ensures CodeFits(c)
  {
    forall k | 0 <= k < |c| ensures InstFits(c[k]) { assert InstOk(c, k); }
  }

  // ---------- which table ----------

  /** The opcode table with every entry beyond its end taken for a movable capture. */
  const Worst: Table := b => IEMPTYCAPTURE <= b <= ICLOSECAPTURE || b >= OPCODES

  /** Whatever is read beyond the end of the opcode table, no charset is misread by the pass. */
  predicate NeverMisread(c: Code) { RawClear(c, Worst) }

  lemma WorstMisread(c: Code, start: nat, m: Table)
    requires IsTable(m) && Misread(c, start, m)
    ensures Misread(c, start, Worst)
  {
  }

  lemma {:induction false} WorstFrom(c: Code, i: nat, limit: int, m: Table)
    requires IsTable(m) && RawClearFrom(c, i, limit, Worst)
    ensures RawClearFrom(c, i, limit, m)
    decreases |c| - i
  {
    hide AtBorder, FindSlice, MoveSlice, Misread, IsJmp;
    if i >= |c| {
    } else if IsJmp(c[i]) && Dest(c, i) >= limit {
      WorstFrom(c, i + 1, Dest(c, i) + 1, m);
    } else if AtBorder(c, i, limit) && FindSlice(c, i, limit).bytes > 0 {
      var f := FindSlice(c, i, limit);
      if Misread(c, f.start, m) { WorstMisread(c, f.start, m); }
      WorstFrom(MoveSlice(c, f.start, i, i + f.checks, f.bytes), i + f.checks + 1, limit, m);
    } else {
      WorstFrom(c, i + 1, limit, m);
    }
  }

  /** The worst table stands for all of them. */
  lemma NeverMisreadIs(c: Code)
    ensures NeverMisread(c) <==> forall m :: IsTable(m) ==> RawClear(c, m)
  {
    if NeverMisread(c) {
      forall m | IsTable(m) ensures RawClear(c, m) { WorstFrom(c, 0, 0, m); }
    }
    assert IsTable(Worst);
  }

  // ---------- sequences ----------

  lemma AnyCodePlain(n: nat)
    ensures Encode(AnyCode(n)) == Flatten(AnyCode(n))
    ensures forall k :: 0 <= k < |AnyCode(n)| ==> AnyCode(n)[k].Any? && AnyCode(n)[k].offset == 0
  {
    if n > UCHAR_MAX { AnyCodePlain(n - UCHAR_MAX); }
    PlainCode(AnyCode(n));
  }

  /** When the concatenation of two codes reaches the pass that moves captures. */
  predicate ConcatMoves(c1: Code, c2: Code) { !IsFail(c1) && !IsSucc(c2) && !IsFail(c2) && !IsSucc(c1) && !(IsAnyCode(c1) && IsAnyCode(c2)) }

  /** concat_l. */
  lemma ConcatExact(c1: Code, c2: Code, m: Table)
    requires WF(c1) && WF(c2) && IsTable(m) && (ConcatMoves(c1, c2) ==> TestsClear(c1 + c2))
    ensures CellConcat(Encode(c1), Encode(c2), m) == Encode(ConcatCode(c1, c2)) <==> (ConcatMoves(c1, c2) ==> RawClear(c1 + c2, m))
  {
    hide WF, CodeFits, IsTable, Encode, RawClear, TestsClear, OptimizeCaptures, CellOptimizeCaptures, AnyCode, Flatten, CellIsAny, IsAnyCode;
    WFFits(c1);
    WFFits(c2);
    IsFailAgrees(c1);
    IsFailAgrees(c2);
    IsAnyAgrees(c1);
    IsAnyAgrees(c2);
    if ConcatMoves(c1, c2) {
      WFWithin(c1);
      WFWithin(c2);
      EncodeAppend(c1, c2);
      SeqWF(c1, c2);
      WFFits(c1 + c2);
      CellCapturesExact(c1 + c2, m);
    } else if IsAnyCode(c1) && IsAnyCode(c2) {
      AnyIs(c1);
      AnyIs(c2);
      AnyCodePlain(c1[0].n + c2[0].n);
    }
  }

  lemma AnyIs(c: Code)
    requires IsAnyCode(c)
    ensures |c| == 1 && c[0].Any? && !IsFail(c) && !IsSucc(c)
  {
  }

  // ---------- predicates ----------

  /** An instruction that leads nowhere, or to the end of what follows it. */
  predicate Leads(t: Inst, d: Code) { Width(t) == 1 && InstFits(t) && (HasTarget(t) ==> t.offset == |d| + 1) }

  /** Nothing leads between a choice and the code behind it. */
  lemma FramedClear(c: Code, t: Inst, d: Code)
    requires WF(c) && WF(d) && Leads(t, d)
    ensures var s := Framed(Choice(|c| + 2, 0), c, t, d); ChoiceClear(s) && CodeFits(s) && s[0] == Choice(|c| + 2, 0)
    ensures ShapeOk(Choice(|c| + 2, 0), c, t, d)
  {
    hide WF;
    var s := Framed(Choice(|c| + 2, 0), c, t, d);
    if StartsWithCheck(c) { WFClear(c); }
    WFWithin(c);
    WFWithin(d);
    WFFits(c);
    WFFits(d);
    ShapeFits(Choice(|c| + 2, 0), c, t, d);
    forall k | 0 <= k < |s| && HasTarget(s[k])
      ensures 0 <= Dest(s, k) <= |s| && (|s| > 1 && IsCheck(s[1]) && k >= 2 ==> Dest(s, k) >= 2)
    {
      if 1 <= k <= |c| { assert s[k] == c[k - 1] && Dest(s, k) == Dest(c, k - 1) + 1; }
      else if k > |c| + 1 { assert s[k] == d[k - |c| - 2] && Dest(s, k) == Dest(d, k - |c| - 2) + |c| + 2; }
    }
  }

  /** diff_l. */
  lemma DiffAgrees(c1: Code, c2: Code)
    requires WF(c1) && WF(c2)
    ensures CellDiff(Encode(c1), Encode(c2)) == Encode(DiffCode(c1, c2))
  {
    hide WF, CodeFits, Encode, Pos, InstCells, CellOptimizeChoice, CellCheckToTest, Framed, TestShape, ChoiceClear, OptimizeChoice, CheckToTest, Within, CellHeadFail, IsHeadFail;
    WFFits(c1);
    WFFits(c2);
    TagAgrees(c1);
    TagAgrees(c2);
    HeadFailAgrees(c2);
    EncodeLength(c2);
    WFWithin(c1);
    WFWithin(c2);
    var t1, t2 := ToCharset(c1), ToCharset(c2);
    if t1.IsCharset? && t2.IsCharset? {
      EncodeOne(Set(t1.cs - t2.cs, 0));
    } else if IsHeadFail(c2) {
      StartsSo(c2, NoInfo);
      TestShapeCells(c2, Fail, c1);
      TestShapeIs(c2, Fail, c1);
    } else {
      var h := Choice(|c2| + 2, 0);
      FramedClear(c2, FailTwice, c1);
      ShapeCells(h, c2, FailTwice, c1);
      ChoiceAgrees(Framed(h, c2, FailTwice, c1));
      ShapeIs(h, c2, FailTwice, c1);
    }
  }

  lemma NotAgrees(c: Code)
    requires WF(c)
    ensures CellNot(Encode(c)) == Encode(NotCode(c))
  {
    hide WF, Encode, CellDiff, DiffCode, InstCells;
    IsFailAgrees(c);
    EncodeNone();
    EncodeOne(Fail);
    EmptyWF();
    DiffAgrees([], c);
  }

  lemma EmptyWF()
    ensures WF([])
  {
  }

  lemma FailWF()
    ensures WF([Fail])
  {
  }

  /** A charset as a test over one more instruction. */
  lemma AndCells(cs: set<Byte>)
    ensures Encode([Set(cs, 2), Fail]) == InstCells(Set(cs, CHARSETINSTSIZE + 1)) + InstCells(Fail)
  {
    hide RawCells, InstCells, Flatten;
    var c := [Set(cs, 2), Fail];
    var r := Relocate(c);
    assert Pos(c, 0) == 0 && Pos(c, 1) == CHARSETINSTSIZE && Pos(c, 2) == CHARSETINSTSIZE + 1;
    assert r == [Set(cs, CHARSETINSTSIZE + 1)] + [Fail];
    FlattenSnoc([Set(cs, CHARSETINSTSIZE + 1)], Fail);
    FlattenOne(Set(cs, CHARSETINSTSIZE + 1));
  }

  /** and_l. */
  lemma AndAgrees(c: Code)
    requires WF(c)
    ensures CellAnd(Encode(c)) == Encode(AndCode(c))
  {
    hide WF, CodeFits, Encode, Pos, InstCells, Framed, Within, ChoiceClear, ToCharset;
    WFFits(c);
    IsFailAgrees(c);
    TagAgrees(c);
    EncodeLength(c);
    if IsFail(c) || IsSucc(c) {
    } else if ToCharset(c).IsCharset? {
      AndCells(AllBytes - ToCharset(c).cs);
    } else {
      FailWF();
      FramedClear(c, BackCommit(2), [Fail]);
      ShapeCells(Choice(|c| + 2, 0), c, BackCommit(2), [Fail]);
      ShapeIs(Choice(|c| + 2, 0), c, BackCommit(2), [Fail]);
      EncodeOne(Fail);
      SizeOfFail();
      assert [Choice(|c| + 2, 0)] + c + [BackCommit(2), Fail] == [Choice(|c| + 2, 0)] + c + [BackCommit(2)] + [Fail];
    }
  }

  lemma SizeOfFail()
    ensures Size([Fail]) == 1
  {
    assert Pos([Fail], 0) == 0;
  }

  // ---------- repetitions ----------

  lemma {:induction false} TimesAgree(c: Code, n: nat)
    requires Within(c)
    ensures Within(Times(c, n)) && Encode(Times(c, n)) == CellTimes(Encode(c), n)
  {
    hide Encode, Within;
    if n == 0 { EncodeNone(); NoneWithin(); } else {
      TimesAgree(c, n - 1);
      EncodeAppend(c, Times(c, n - 1));
    }
  }

  lemma NoneWithin()
    ensures Within([])
  {
  }

  lemma SpanAgrees(c: Code, cs: set<Byte>, n: nat)
    requires Within(c)
    ensures Encode(RepeatCharset(c, cs, n)) == CellTimes(Encode(c), n) + InstCells(Span(cs))
  {
    hide Encode, InstCells;
    TimesAgree(c, n);
    EncodeOne(Span(cs));
    EncodeAppend(Times(c, n), [Span(cs)]);
  }

  lemma LoopTestAgrees(c: Code, n: nat)
    requires Within(c) && StartsWithCheck(c) && IsHeadFail(c)
    ensures Encode(c) != [] && Encode(RepeatHeadFail(c, n)) == CellTimes(Encode(c), n) + CellCheckToTest(Encode(c), |Encode(c)| + 1) + InstCells(Jmp(-|Encode(c)|))
  {
    hide Encode, InstCells, CellCheckToTest, Times, CellTimes, TestShape, IsHeadFail, Pos;
    var loop := TestShape(c, Jmp(-|c|), []);
    TimesAgree(c, n);
    LoopWithin(c);
    NoneWithin();
    TestShapeCells(c, Jmp(-|c|), []);
    TestShapeIs(c, Jmp(-|c|), []);
    EncodeNone();
    EncodeLength(c);
    EncodeAppend(Times(c, n), loop);
    assert RepeatHeadFail(c, n) == Times(c, n) + loop;
    assert Encode(loop) + [] == Encode(loop);
  }

  lemma LoopWithin(c: Code)
    requires Within(c) && StartsWithCheck(c)
    ensures Within(TestShape(c, Jmp(-|c|), []))
  {
    var s := TestShape(c, Jmp(-|c|), []);
    forall k | 0 <= k < |s| && HasTarget(s[k]) ensures 0 <= Dest(s, k) <= |s| {
      if 1 <= k < |c| { assert s[k] == c[k] && Dest(s, k) == Dest(c, k); }
    }
  }

  lemma LoopChoiceAgrees(c: Code, n: nat)
    requires Within(c)
    ensures Encode(Repeats(c, n)) == CellTimes(Encode(c), n) + InstCells(Choice(|Encode(c)| + 2, 0)) + Encode(c) + InstCells(PartialCommit(-|Encode(c)|))
  {
    hide Encode, InstCells, Times, CellTimes, Framed, Pos;
    var h, t := Choice(|c| + 2, 0), PartialCommit(-|c|);
    var loop := Framed(h, c, t, []);
    TimesAgree(c, n);
    LoopChoiceWithin(c);
    NoneWithin();
    ShapeCells(h, c, t, []);
    ShapeIs(h, c, t, []);
    EncodeNone();
    EncodeLength(c);
    EncodeAppend(Times(c, n), loop);
    assert Repeats(c, n) == Times(c, n) + loop;
    assert Encode(loop) + [] == Encode(loop);
  }

  lemma LoopChoiceWithin(c: Code)
    requires Within(c)
    ensures Within(Framed(Choice(|c| + 2, 0), c, PartialCommit(-|c|), []))
  {
    var s := Framed(Choice(|c| + 2, 0), c, PartialCommit(-|c|), []);
    forall k | 0 <= k < |s| && HasTarget(s[k]) ensures 0 <= Dest(s, k) <= |s| {
      if 1 <= k <= |c| { assert s[k] == c[k - 1] && Dest(s, k) == Dest(c, k - 1) + 1; }
    }
  }

  /** Shortening jumps changes no opcode. */
  lemma {:induction false} JumpsKeepCodes(p: Cells, i: nat, k: nat)
    requires k < |p|
    ensures CellJumpsFrom(p, i)[k].code == p[k].code
    decreases |p| - i
  {
    hide CellTarget;
    if i < |p| {
      var d := if IsJmpCell(p[i]) then p[i := CellSetOffset(p[i], CellTarget(p, i + p[i].offset) - i)] else p;
      JumpsKeepCodes(d, i + CellWidth(p[i]), k);
    }
  }

  lemma JumpsKeepDifference(p: Cells, q: Cells)
    requires CodesDiffer(p, q)
    ensures CellOptimizeJumps(p) != CellOptimizeJumps(q)
  {
    hide CellJumpsFrom;
    var k :| 0 <= k < |p| && k < |q| && p[k].code != q[k].code;
    JumpsKeepCodes(p, 0, k);
    JumpsKeepCodes(q, 0, k);
  }

  /** star_l, for n >= 0. */
  lemma AtLeastExact(c: Code, n: nat, m: Table)
    requires WF(c) && Walks(c, false) && IsTable(m)
    requires ToCharset(c).IsCharset? || TestsClear(RawAtLeast(c, n))
    ensures CellAtLeast(Encode(c), n, m) == Encode(AtLeastCode(c, n)) <==> ToCharset(c).IsCharset? || RawClear(RawAtLeast(c, n), m)
  {
    hide WF, CodeFits, Encode, InstCells, Times, CellTimes, IsTable, RawClear, TestsClear, OptimizeCaptures, CellOptimizeCaptures, OptimizeJumps, CellOptimizeJumps, IsHeadFail, CellHeadFail, Walks, KeepsAll, CellCheckToTest, CodesDiffer;
    WFFits(c);
    WFWithin(c);
    TagAgrees(c);
    HeadFailAgrees(c);
    if ToCharset(c).IsCharset? {
      SpanAgrees(c, ToCharset(c).cs, n);
    } else {
      var raw := RawAtLeast(c, n);
      LoopCells(c, n);
      RawAtLeastShape(c, n);
      WFFits(raw);
      CellCapturesExact(raw, m);
      OptimizeCapturesCorrect(raw);
      KeptWF(OptimizeCaptures(raw), raw);
      JumpsAgree(OptimizeCaptures(raw));
      if !RawClear(raw, m) { JumpsKeepDifference(CellOptimizeCaptures(Encode(raw), m), Encode(OptimizeCaptures(raw))); }
    }
  }

  lemma KeptWF(d: Code, c: Code)
    requires KeepsAll(d, c)
    ensures WF(d)
  {
  }

  lemma LoopCells(c: Code, n: nat)
    requires Within(c) && !ToCharset(c).IsCharset?
    ensures IsHeadFail(c) ==> Encode(c) != []
    ensures Encode(RawAtLeast(c, n)) == if IsHeadFail(c) then CellTimes(Encode(c), n) + CellCheckToTest(Encode(c), |Encode(c)| + 1) + InstCells(Jmp(-|Encode(c)|))
      else CellTimes(Encode(c), n) + InstCells(Choice(|Encode(c)| + 2, 0)) + Encode(c) + InstCells(PartialCommit(-|Encode(c)|))
  {
    hide Encode, InstCells, Times, CellTimes, CellCheckToTest, RepeatHeadFail, Repeats;
    if IsHeadFail(c) { LoopTestAgrees(c, n); } else { LoopChoiceAgrees(c, n); }
  }

  // ---------- options ----------

  /** A code whose first check has become a test over it and what follows. */
  lemma TestFrontCells(c: Code, d: Code)
    requires StartsWithCheck(c) && Within(c) && Within(d)
    ensures var s := CheckToTest(c, |c| + |d|) + d;
      Encode(c) != [] && Encode(s) == CellCheckToTest(Encode(c), Size(c) + Size(d)) + Encode(d) && Within(s) && Size(s) == Size(c) + Size(d)
  {
    hide Relocate, Flatten, CellCheckToTest, Pos, Width, Within, CheckToTest, WidthsAt;
    TestFrontPos(c, d);
    TestFrontRelocate(c, d);
    TestFrontWithin(c, d);
    var r := Relocate(c);
    RelocateAt(c, 0);
    FlattenAppend([SetOffset(r[0], Size(c) + Size(d))] + r[1..], Relocate(d));
    FlattenTest(r, Size(c) + Size(d));
  }

  lemma TestFrontRelocate(c: Code, d: Code)
    requires StartsWithCheck(c) && Within(c) && Within(d)
    ensures IsCheckOp(Relocate(c)[0]) && Relocate(CheckToTest(c, |c| + |d|) + d) == [SetOffset(Relocate(c)[0], Size(c) + Size(d))] + Relocate(c)[1..] + Relocate(d)
  {
    hide Relocate, Pos, Width, CheckToTest, WidthsAt;
    var s := CheckToTest(c, |c| + |d|) + d;
    TestFrontPos(c, d);
    var e, r := Relocate(s), Relocate(c);
    RelocateAt(s, 0);
    RelocateAt(c, 0);
    RelocatePart(s, |c|, d);
    forall k | 1 <= k < |c| ensures e[k] == r[k] { RelocateIn(s, 0, c, k); }
    assert e == ([e[0]] + e[1..|c|]) + e[|c|..|c| + |d|] && e[1..|c|] == r[1..];
  }

  lemma TestFrontWithin(c: Code, d: Code)
    requires StartsWithCheck(c) && Within(c) && Within(d)
    ensures Within(CheckToTest(c, |c| + |d|) + d)
  {
    var s := CheckToTest(c, |c| + |d|) + d;
    forall k | 0 <= k < |s| && HasTarget(s[k]) ensures 0 <= Dest(s, k) <= |s| {
      if 1 <= k < |c| { assert Dest(s, k) == Dest(c, k); } else if k >= |c| { assert s[k] == d[k - |c|] && Dest(s, k) == Dest(d, k - |c|) + |c|; }
    }
  }

  lemma TestFrontPos(c: Code, d: Code)
    requires StartsWithCheck(c)
    ensures var s := CheckToTest(c, |c| + |d|) + d;
      && |s| == |c| + |d| && WidthsAt(s, 0, c) && PartAt(s, |c|, d) && s[0] == SetOffset(c[0], |c| + |d|) && (forall k :: 1 <= k < |c| ==> s[k] == c[k])
      && Pos(s, 0) == 0 && Pos(s, |s|) == Size(c) + Size(d)
  {
    hide Pos;
    var s := CheckToTest(c, |c| + |d|) + d;
    assert s[|c|..|c| + |d|] == d;
    ShapeWidths(s, |c|, d);
    PosZero(s);
    PosIn(s, 0, c, |c|);
    PosIn(s, |c|, d, |d|);
  }

  lemma {:induction false} OptionalTestsAgree(c: Code, n: nat)
    requires IsHeadFail(c) && Within(c)
    ensures Encode(c) != [] && Encode(OptionalHeadFail(c, n)) == CellOptionalHeadFail(Encode(c), n) && Within(OptionalHeadFail(c, n))
    ensures |OptionalHeadFail(c, n)| == n * |c| && Size(OptionalHeadFail(c, n)) == n * Size(c)
    decreases n
  {
    hide Encode, Pos, Within, CheckToTest, CellCheckToTest, AllNoFail;
    EncodeSome(c);
    EncodeLength(c);
    if n == 0 {
      EncodeNone();
      NoneWithin();
      PosZero([]);
    } else {
      OptionalTestsAgree(c, n - 1);
      TestFrontCells(c, OptionalHeadFail(c, n - 1));
      assert |c| + (n - 1) * |c| == n * |c| && Size(c) + (n - 1) * Size(c) == n * Size(c);
    }
  }

  lemma StepOutAgrees(t: Inst)
    requires t == Commit(1) || t == PartialCommit(1)
    ensures Encode([t]) == InstCells(t) && Within([t])
  {
    hide InstCells, Flatten;
    PlainCode([t]);
    FlattenOne(t);
  }

  lemma {:induction false} OptionalBodyAgrees(c: Code, n: nat)
    requires Within(c) && n > 0
    ensures Within(OptionalBody(c, n)) && Encode(OptionalBody(c, n)) == CellOptionalBody(Encode(c), n)
    ensures |OptionalBody(c, n)| == n * (|c| + 1) && |Encode(OptionalBody(c, n))| == n * (|Encode(c)| + 1)
    decreases n
  {
    hide Encode, Within, InstCells;
    StepOutAgrees(Commit(1));
    StepOutAgrees(PartialCommit(1));
    if n == 1 {
      EncodeAppend(c, [Commit(1)]);
    } else {
      OptionalBodyAgrees(c, n - 1);
      EncodeAppend(c, [PartialCommit(1)]);
      EncodeAppend(c + [PartialCommit(1)], OptionalBody(c, n - 1));
      assert (|c| + 1) + (n - 1) * (|c| + 1) == n * (|c| + 1);
      assert (|Encode(c)| + 1) + (n - 1) * (|Encode(c)| + 1) == n * (|Encode(c)| + 1);
    }
  }

  /** A choice that leads over what follows it. */
  lemma FrontChoiceCells(b: Code)
    requires Within(b)
    ensures Encode([Choice(|b| + 1, 0)] + b) == InstCells(Choice(|Encode(b)| + 1, 0)) + Encode(b) && Within([Choice(|b| + 1, 0)] + b)
  {
    hide Relocate, Flatten, InstCells, Within;
    FrontRelocate(b);
    EncodeLength(b);
    FlattenAppend([Choice(Size(b) + 1, 0)], Relocate(b));
    FlattenOne(Choice(Size(b) + 1, 0));
    FrontWithin(b);
  }

  lemma FrontRelocate(b: Code)
    requires Within(b)
    ensures Relocate([Choice(|b| + 1, 0)] + b) == [Choice(Size(b) + 1, 0)] + Relocate(b)
  {
    hide Relocate, Pos, Within;
    var s := [Choice(|b| + 1, 0)] + b;
    assert s[1..1 + |b|] == b;
    ShapeWidths(s, 1, b);
    PosZero(s);
    PosNext(s, 0);
    PosZero(b);
    PosIn(s, 1, b, |b|);
    RelocateAt(s, 0);
    RelocatePart(s, 1, b);
    var e := Relocate(s);
    assert e == [e[0]] + e[1..1 + |b|];
  }

  lemma FrontWithin(b: Code)
    requires Within(b)
    ensures Within([Choice(|b| + 1, 0)] + b)
  {
    var s := [Choice(|b| + 1, 0)] + b;
    forall k | 0 <= k < |s| && HasTarget(s[k]) ensures 0 <= Dest(s, k) <= |s| {
      if k > 0 { assert s[k] == b[k - 1] && Dest(s, k) == Dest(b, k - 1) + 1; }
    }
  }

  /** star_l, for n < 0. */
  lemma AtMostAgrees(c: Code, n: nat)
    requires WF(c) && n > 0
    ensures IsHeadFail(c) ==> Encode(c) != []
    ensures CellAtMost(Encode(c), n) == Encode(AtMostCode(c, n))
  {
    hide WF, CodeFits, Encode, InstCells, IsHeadFail, CellHeadFail, CellOptionalBody, OptionalBody, ChoiceClear, OptimizeChoice, CellOptimizeChoice, Within, OptionalHeadFail, CellOptionalHeadFail;
    WFFits(c);
    WFWithin(c);
    HeadFailAgrees(c);
    if IsHeadFail(c) {
      OptionalTestsAgree(c, n);
    } else {
      OptionalBodyAgrees(c, n);
      FrontChoiceCells(OptionalBody(c, n));
      OptionsClear(c, n);
      ChoiceAgrees([Choice(1 + n * (|c| + 1), 0)] + OptionalBody(c, n));
    }
  }

  lemma OptionsClear(c: Code, n: nat)
    requires WF(c) && n > 0
    ensures var s := [Choice(1 + n * (|c| + 1), 0)] + OptionalBody(c, n); ChoiceClear(s) && CodeFits(s)
  {
    hide WF, OptionalBody;
    var s := RawOptionals(c, n);
    OptionalBodySize(c, n);
    RawOptionalsWF(c, n);
    WFWithin(s);
    WFFits(s);
    forall k | 2 <= k < |s| && HasTarget(s[k]) && IsCheck(s[1]) ensures Dest(s, k) >= 2 { OptionLeads(c, n, k); }
  }

  lemma OptionLeads(c: Code, n: nat, k: nat)
    requires WF(c) && n > 0 && 2 <= k < |RawOptionals(c, n)| && HasTarget(RawOptionals(c, n)[k]) && IsCheck(RawOptionals(c, n)[1])
    ensures Dest(RawOptionals(c, n), k) >= 2
  {
    hide WF;
    var s := RawOptionals(c, n);
    OptionalBodySize(c, n);
    assert s[1..] == OptionalBody(c, n);
    assert s[1] == OptionalBody(c, n)[0];
    if c != [] { assert OptionalBody(c, n)[..|c|][0] == c[0]; }
    OptionalBodyInst(c, s, 1, n, k);
  }

  // ---------- captures ----------

  lemma WrapCells(c: Code, kind: CapKind, idx: int)
    requires Within(c)
    ensures Encode([OpenCapture(idx, kind, 0)] + c + [CloseCapture(0, Cclose, 0)]) == InstCells(OpenCapture(idx, kind, 0)) + Encode(c) + InstCells(CloseCapture(0, Cclose, 0))
  {
    hide Encode, InstCells;
    var o, e := OpenCapture(idx, kind, 0), CloseCapture(0, Cclose, 0);
    EncodeOne(o);
    EncodeOne(e);
    EncodeAppend([o], c);
    EncodeAppend([o] + c, [e]);
  }

  /** capture_aux. */
  lemma CaptureExact(c: Code, kind: CapKind, idx: int, v: bool, m: Table)
    requires WF(c) && Walks(c, v) && IsTable(m)
    requires SkipChecks(c, 0, 0).0 == |c| || TestsClear([OpenCapture(idx, kind, 0)] + c + [CloseCapture(0, Cclose, 0)])
    ensures CellCapture(Encode(c), kind, idx, m) == Encode(CaptureCode(c, kind, idx))
       <==> SkipChecks(c, 0, 0).0 == |c| || RawClear([OpenCapture(idx, kind, 0)] + c + [CloseCapture(0, Cclose, 0)], m)
  {
    hide WF, CodeFits, Encode, InstCells, IsTable, RawClear, TestsClear, OptimizeCaptures, CellOptimizeCaptures, Walks, SkipChecks, CellSkip, Within, Pos, FirstPart;
    WFFits(c);
    WFWithin(c);
    ChecksCells(c, m);
    if SkipChecks(c, 0, 0).0 == |c| {
      FullCells(c, FullCapture(idx, kind, SkipChecks(c, 0, 0).1));
    } else {
      WrapCells(c, kind, idx);
      OpenCloseShape(c, kind, idx, v);
      WFFits([OpenCapture(idx, kind, 0)] + c + [CloseCapture(0, Cclose, 0)]);
      CellCapturesExact([OpenCapture(idx, kind, 0)] + c + [CloseCapture(0, Cclose, 0)], m);
    }
  }

  /** The cells are all checks exactly if the instructions are. */
  lemma ChecksCells(c: Code, m: Table)
    requires CodeFits(c) && IsTable(m)
    ensures CellSkip(Encode(c), 0, 0).1 == SkipChecks(c, 0, 0).1
    ensures CellSkip(Encode(c), 0, 0).0 == |Encode(c)| <==> SkipChecks(c, 0, 0).0 == |c|
  {
    hide CodeFits, Encode, IsTable, SkipChecks, CellSkip, Pos;
    SkipAgrees(c, 0, 0, m);
    PosZero(c);
    EncodeLength(c);
    PosOrder(c, SkipChecks(c, 0, 0).0, |c|);
  }

  lemma FullCells(c: Code, i: Inst)
    requires Within(c) && i.FullCapture?
    ensures Encode(c + [i]) == Encode(c) + InstCells(i)
  {
    hide Encode, InstCells, Within;
    EncodeOne(i);
    OneWithin(i);
    EncodeAppend(c, [i]);
  }

  lemma OneWithin(i: Inst)
    requires !HasTarget(i)
    ensures Within([i])
  {
  }

  // ---------- choices ----------

  /** union_l. */
  lemma UnionExact(c1: Code, c2: Code)
    requires Good(c1) && Good(c2)
    ensures CellUnion(Encode(c1), Encode(c2)) == Encode(UnionCode(c1, c2)) <==> IsFail(c1) || IsFail(c2) || IsSucc(c1) || PartsClear(c1)
  {
    hide WF, CodeFits, Encode, Good, PartsClear, SeparateParts, CellSeparate, ToCharset, CellTag, IsFail, CellIsFail, IsSucc, CellIsSucc;
    GoodWF(c1);
    GoodWF(c2);
    WFFits(c1);
    WFFits(c2);
    IsFailAgrees(c1);
    IsFailAgrees(c2);
    TagAgrees(c2);
    SeparateExact(c1, c2);
  }
}
