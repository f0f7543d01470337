/** The combinators as the source writes them, over the cells of a pattern: they allocate the new
    pattern, copy the operands into it and rewrite it in place.  Each is proved to leave the cells of
    its specification. */
module LpegInPlace {
  import opened LpegMachine
  import opened LpegReference
  import opened LpegCombinators
  import opened LpegVerifier
  import opened LpegWellFormed
  import opened LpegCompiler
  import opened LpegCells
  import opened LpegCellPasses
  import opened LpegCellBuild
  import opened LpegCellRelate
  import opened LpegCellShapes
  import opened LpegCellJumps
  import opened LpegCellCombine
  import opened LpegCellRun
  import opened LpegCellCompiler
  import LpegRepetition
  import LpegVm

  // ---------- array slices ----------

  /** c with the slice off..off + e (both ends included) in reverse. */
  function Inverted(c: Cells, off: nat, e: int): (r: Cells)
    requires -1 <= e && off + e < |c|
    ensures |r| == |c|
  {
    seq(|c|, j requires 0 <= j < |c| => if off <= j <= off + e then c[2 * off + e - j] else c[j])
  }

  /** c with the slice off..off + e rotated n steps to the left. */
  function Rotated(c: Cells, off: nat, e: nat, n: nat): (r: Cells)
    requires n <= e + 1 && off + e < |c|
    ensures |r| == |c|
  {
    c[..off] + c[off + n..off + e + 1] + c[off..off + n] + c[off + e + 1..]
  }

  lemma RotatedAt(c: Cells, off: nat, e: nat, n: nat, j: nat)
    requires n <= e + 1 && off + e < |c| && j < |c|
    ensures Rotated(c, off, e, n)[j] ==
      if j < off || off + e < j then c[j] else if j + n <= off + e then c[j + n] else c[j + n - e - 1]
  {
  }

  /** A rotation is three inversions. */
  lemma ThreeInversions(c: Cells, off: nat, e: nat, n: nat)
    requires n <= e + 1 && off + e < |c|
    ensures Inverted(Inverted(Inverted(c, off, n - 1), off + n, e - n), off, e) == Rotated(c, off, e, n)
  {
    var c1 := Inverted(c, off, n - 1);
    var c2 := Inverted(c1, off + n, e - n);
    var c3 := Inverted(c2, off, e);
    forall j | 0 <= j < |c|
      ensures c3[j] == Rotated(c, off, e, n)[j]
    {
      RotatedAt(c, off, e, n, j);
      if off <= j <= off + e {
        var k := 2 * off + e - j;
        assert c3[j] == c2[k];
        if off + n <= k { assert c2[k] == c1[j + n] == c[j + n]; }
        else { assert c2[k] == c1[k] == c[j + n - e - 1]; }
      }
    }
  }

  /** invert: swap the ends of the slice and move inwards. */
  method Invert(p: array<Cell>, off: nat, e: int)
    requires -1 <= e && off + e < p.Length
    modifies p
    ensures p[..] == Inverted(old(p[..]), off, e)
  {
    var i, k := 0, e;
    while i < k
      invariant 0 <= i <= k + 1 && i + k == e
      invariant forall j :: 0 <= j < p.Length ==>
        p[j] == if off <= j < off + i || off + k < j <= off + e then old(p[2 * off + e - j]) else old(p[j])
    {
      p[off + i], p[off + k] := p[off + k], p[off + i];
      i, k := i + 1, k - 1;
    }
  }

  /** rotate: by three inversions. */
  method Rotate(p: array<Cell>, off: nat, e: nat, n: nat)
    requires n <= e + 1 && off + e < p.Length
    modifies p
    ensures p[..] == Rotated(old(p[..]), off, e, n)
  {
    ghost var c := p[..];
    Invert(p, off, n - 1);
    ghost var c1 := p[..];
    Invert(p, off + n, e - n);
    ghost var c2 := p[..];
    Invert(p, off, e);
    assert c1 == Inverted(c, off, n - 1) && c2 == Inverted(c1, off + n, e - n) && p[..] == Inverted(c2, off, e);
    ThreeInversions(c, off, e, n);
  }

  // ---------- the passes ----------

  /** skipchecks. */
  method SkipChecksLoop(p: array<Cell>, from: nat, up: nat) returns (i: nat, n: nat)
    ensures (i, n) == CellSkip(p[..], from, up)
  {
    i, n := 0, 0;
    while from + i < p.Length && IsCheckCell(p[from + i]) && CellStep(p[from + i]) + up + n <= MAXOFF
      invariant CellSkip(p[..], from, up) ==
        (i + CellSkip(p[..], from + i, up + n).0, n + CellSkip(p[..], from + i, up + n).1)
      decreases p.Length - (from + i)
    {
      i, n := i + CellWidth(p[from + i]), n + CellStep(p[from + i]);
    }
  }

  /** The first capture of the group that ends at i, stepping back by cells. */
  method FindGroup(p: array<Cell>, i: nat, limit: int, m: Table) returns (start: nat, maxoff: nat)
    requires i < p.Length
    ensures start == CellGroupStart(p[..], i, limit, m) && maxoff == CellMaxOff(p[..], start, i)
  {
    start, maxoff := i, CellOff(p[i]);
    while start > limit && start > 0 && MovableCell(p[start - 1], m)
      invariant start <= i
      invariant CellGroupStart(p[..], start, limit, m) == CellGroupStart(p[..], i, limit, m)
      invariant maxoff == CellMaxOff(p[..], start, i)
    {
      start := start - 1;
      if CellOff(p[start]) > maxoff { maxoff := CellOff(p[start]); }
    }
  }

  method CorrectOffsets(p: array<Cell>, start: nat, i: nat, n: nat)
    requires start <= i < p.Length
    modifies p
    ensures p[..] == old(p[..start]) + CellDelay(old(p[start..i + 1]), n) + old(p[i + 1..])
  {
    ghost var c := p[..];
    var j := start;
    while j <= i
      invariant start <= j <= i + 1
      invariant forall k :: 0 <= k < p.Length ==> p[k] == if start <= k < j then c[k].(aux := ToByte(c[k].aux + 16 * n)) else c[k]
    {
      p[j] := p[j].(aux := ToByte(p[j].aux + 16 * n));
      j := j + 1;
    }
    ghost var moved := CellDelay(c[start..i + 1], n);
    forall k | 0 <= k < p.Length
      ensures p[k] == (c[..start] + moved + c[i + 1..])[k]
    {
      if start <= k <= i { assert moved[k - start] == c[k].(aux := ToByte(c[k].aux + 16 * n)); }
    }
  }

  /** Correct the offsets of the captures start..i and rotate them past the checks up to end. */
  method MoveGroup(p: array<Cell>, start: nat, i: nat, end: nat, n: nat)
    requires start <= i < end < p.Length
    modifies p
    ensures p[..] == CellMove(old(p[..]), start, i, end, n)
  {
    hide Rotated, CellMove, CellDelay;
    ghost var c := p[..];
    CorrectOffsets(p, start, i, n);
    Rotate(p, start, end - start, i - start + 1);
    MoveIsRotation(c, start, i, end, n);
    assert p.Length == |c| && c[..start] == old(p[..start]) && c[start..i + 1] == old(p[start..i + 1]) && c[i + 1..] == old(p[i + 1..]);
  }

  lemma MoveIsRotation(c: Cells, start: nat, i: nat, end: nat, n: nat)
    requires start <= i < end < |c|
    ensures Rotated(c[..start] + CellDelay(c[start..i + 1], n) + c[i + 1..], start, end - start, i - start + 1)
         == CellMove(c, start, i, end, n)
  {
    hide CellDelay;
    var moved := CellDelay(c[start..i + 1], n);
    var d := c[..start] + moved + c[i + 1..];
    ThreeParts(c[..start], moved, c[i + 1..]);
    assert d[i + 1..end + 1] == d[i + 1..][..end - i] && c[i + 1..end + 1] == c[i + 1..][..end - i];
    assert d[end + 1..] == d[i + 1..][end - i..] && c[end + 1..] == c[i + 1..][end - i..];
  }

  lemma ThreeParts(a: Cells, b: Cells, x: Cells)
    ensures var d := a + b + x; d[..|a|] == a && d[|a|..|a| + |b|] == b && d[|a| + |b|..] == x
  {
  }

  /** One round of the pass, where a capture stands before a check. */
  method BorderRound(p: array<Cell>, i: nat, limit: int, m: Table) returns (next: nat)
    requires CellBorder(p[..], i, limit, m) && !IsJmpCell(p[i])
    modifies p
    ensures next > i && CellPass(p[..], next, limit, m) == CellPass(old(p[..]), i, limit, m)
  {
    hide CellSkip, CellMaxOff, CellGroupStart, CellMove;
    var start, maxoff := FindGroup(p, i, limit, m);
    var k, n := SkipChecksLoop(p, i + 1, maxoff);
    if n == 0 || i + k >= p.Length {
      next := i + 1;
    } else {
      SkipSome(p[..], i + 1, maxoff);
      MoveGroup(p, start, i, i + k, n);
      next := i + k + 1;
    }
  }

  /** A table in which no jump is movable. */
  ghost predicate JumpsStay(m: Table) { forall x: Cell :: IsJmpCell(x) ==> !m(x.code) }

  lemma TableJumps(m: Table)
    requires IsTable(m)
    ensures JumpsStay(m)
  {
  }

  /** optimizecaptures, in one pass over the array. */
  method OptimizeCapturesPass(p: array<Cell>, m: Table)
    requires IsTable(m)
    modifies p
    ensures p[..] == CellOptimizeCaptures(old(p[..]), m)
  {
    hide CellGroupStart, CellSkip, CellMaxOff, CellMove;
    TableJumps(m);
    var i, limit := 0, 0;
    while i < p.Length
      invariant 0 <= i
      invariant CellPass(p[..], i, limit, m) == CellOptimizeCaptures(old(p[..]), m)
      decreases p.Length - i
    {
      if IsJmpCell(p[i]) && i + p[i].offset >= limit {
        limit := i + p[i].offset + 1;
        i := i + CellWidth(p[i]);
      } else if i >= limit && i + 1 < p.Length && MovableCell(p[i], m) && IsCheckCell(p[i + 1]) {
        i := BorderRound(p, i, limit, m);
      } else {
        i := i + CellWidth(p[i]);
      }
    }
  }

  /** The cells of the well-formed code c. */
  ghost predicate StandsFor(p: Cells, c: Code) { WF(c) && p == Encode(c) }

  /** In the cells of well-formed code a jump that goes back leads to no other jump. */
  lemma BackJumpEnds(c: Code, i: nat)
    requires WF(c) && i < |c| && c[i].Jmp?
    ensures 0 <= Pos(c, i) < |Encode(c)| && 0 <= Dest(c, i) <= |c|
    ensures var h := Encode(c)[Pos(c, i)]; var t := Pos(c, i) + h.offset;
      && t == Pos(c, Dest(c, i)) && 0 <= t <= |Encode(c)|
      && (h.offset <= 0 ==> t < |Encode(c)| && Encode(c)[t].code != IJMP)
  {
    hide Pos, Encode;
    JumpHead(c, i);
    PosInside(c, Dest(c, i));
    PosOrder(c, Dest(c, i), i);
    assert InstOk(c, i);
    if Dest(c, i) <= i { JumpHead(c, Dest(c, i)); }
  }

  /** target: follow a chain of jumps, forward or back. */
  method FollowJumps(p: array<Cell>, from: int, ghost c: Code, ghost k: nat) returns (i: int)
    requires StandsFor(p[..], c) && k <= |c| && from == Pos(c, k)
    ensures i == CellTarget(p[..], from)
  {
    hide Encode, WF, Pos, IsJmpCell;
    i := from;
    ghost var at := k;
    ghost var done := false;
    PosInside(c, k);
    while i < p.Length && p[i].code == IJMP
      invariant 0 <= at <= |c| && i == Pos(c, at) && 0 <= i <= p.Length
      invariant if done then i == CellTarget(p[..], from) && i < p.Length && p[i].code != IJMP else CellTarget(p[..], i) == CellTarget(p[..], from)
      decreases if done then 0 else 1, p.Length - i
    {
      EncodeLength(c);
      PosOrder(c, at, |c|);
      JumpHead(c, at);
      BackJumpEnds(c, at);
      ghost var next := Dest(c, at);
      if p[i].offset <= 0 { done := true; }
      i := i + p[i].offset;
      at := next;
    }
  }

  /** One jump sent straight to the end of its chain. */
  method RetargetAt(p: array<Cell>, i: nat, ghost c: Code, ghost k: nat)
    requires StandsFor(p[..], c) && k < |c| && i == Pos(c, k) && IsJmp(c[k]) && i < p.Length
    modifies p
    ensures StandsFor(p[..], Retarget(c, k))
    ensures p[..] == old(p[..])[i := CellSetOffset(old(p[i]), CellTarget(old(p[..]), i + old(p[i]).offset) - i)]
  {
    hide Encode, WF, Pos, Target, CellTarget, IsJmpCell, SetOffset, CellSetOffset, Replaces, OnlyShortens;
    JumpHead(c, k);
    var t := FollowJumps(p, i + p[i].offset, c, Dest(c, k));
    ChainAgrees(c, Dest(c, k));
    EncodeUpdate(c, k, Target(c, Dest(c, k)) - k);
    RetargetKeeps(c, k);
    ghost var was := p[..];
    p[i] := CellSetOffset(p[i], t - i);
    assert p[..] == was[i := CellSetOffset(was[i], t - i)];
  }

  lemma JumpsStep(p: Cells, i: nat)
    requires i < |p|
    ensures var d := if IsJmpCell(p[i]) then p[i := CellSetOffset(p[i], CellTarget(p, i + p[i].offset) - i)] else p;
      CellJumpsFrom(p, i) == CellJumpsFrom(d, i + CellWidth(p[i])) && CellWidth(d[i]) == CellWidth(p[i])
  {
    hide CellTarget;
  }

  /** optimizejumps, in one pass over the array. */
  method OptimizeJumpsPass(p: array<Cell>, ghost c: Code)
    requires StandsFor(p[..], c)
    modifies p
    ensures p[..] == CellOptimizeJumps(old(p[..]))
  {
    hide Encode, WF, Pos, CellTarget, CellSetOffset, Target, CellJumpsFrom, IsJmpCell, CellWidth;
    var i := 0;
    ghost var d, k := c, 0;
    PosZero(c);
    while i < p.Length
      invariant k <= |d| && i == Pos(d, k) && 0 <= i && StandsFor(p[..], d)
      invariant CellJumpsFrom(p[..], i) == CellOptimizeJumps(old(p[..]))
      decreases p.Length - i
    {
      EncodeLength(d);
      PosOrder(d, k, |d|);
      JumpHead(d, k);
      ghost var q := p[..];
      JumpsStep(q, i);
      if IsJmpCell(p[i]) {
        RetargetAt(p, i, d, k);
        UpdatePos(d, k, Target(d, Dest(d, k)) - k, k + 1);
        d := Retarget(d, k);
      }
      i := i + CellWidth(p[i]);
      k := k + 1;
    }
    JumpsDone(p[..], i);
  }

  lemma JumpsDone(p: Cells, i: nat)
    requires i >= |p|
    ensures CellJumpsFrom(p, i) == p
  {
  }

  /** optimizechoice, on the choice at index `at`. */
  method OptimizeChoicePass(p: array<Cell>, at: nat)
    requires at < p.Length
    modifies p
    ensures p[..at] == old(p[..at]) && p[at..] == CellOptimizeChoice(old(p[at..]))
  {
    hide CellOptimizeChoice, Rotated, ToByte, CellStep, IsCheckCell, CellWidth;
    if at + 1 < p.Length && IsCheckCell(p[at + 1]) && at + CellWidth(p[at + 1]) < p.Length {
      WidthPositive(p[at + 1]);
      ghost var was := p[..];
      var lc := CellWidth(p[at + 1]);
      Rotate(p, at, lc, 1);
      SwappedAt(was, at, lc);
      assert p[at] == was[at + 1] && p[at + lc] == was[at];
      ghost var swapped := p[..];
      p[at + lc] := p[at + lc].(aux := ToByte(CellStep(p[at])));
      p[at] := CellSetOffset(p[at], p[at + lc].offset);
      p[at + lc] := CellSetOffset(p[at + lc], p[at + lc].offset - lc);
      assert p[..] == swapped[at + lc := p[at + lc]][at := p[at]];
      SwappedChoice(was, at, lc, swapped);
    } else {
      NotSwapped(p[at..]);
    }
  }

  lemma WidthPositive(h: Cell)
    ensures CellWidth(h) > 0
  {
  }

  lemma NotSwapped(p: Cells)
    requires p != [] && !(|p| > 1 && IsCheckCell(p[1]) && CellWidth(p[1]) < |p|)
    ensures CellOptimizeChoice(p) == p
  {
  }

  /** A rotation by one over the check behind a choice. */
  lemma SwappedAt(c: Cells, at: nat, lc: nat)
    requires lc > 0 && at + lc < |c|
    ensures var d := Rotated(c, at, lc, 1);
      && |d| == |c| && d[at] == c[at + 1] && d[at + lc] == c[at] && d[..at] == c[..at] && d[at + lc + 1..] == c[at + lc + 1..]
      && d[at + 1..at + lc] == c[at + 2..at + lc + 1]
  {
  }

  lemma SwappedChoice(c: Cells, at: nat, lc: nat, d: Cells)
    requires 0 < lc && at + lc < |c| && lc == CellWidth(c[at + 1]) && IsCheckCell(c[at + 1])
    requires |d| == |c| && d[at] == c[at + 1] && d[at + lc] == c[at] && d[..at] == c[..at] && d[at + lc + 1..] == c[at + lc + 1..]
    requires d[at + 1..at + lc] == c[at + 2..at + lc + 1]
    ensures var e := d[at + lc := c[at].(aux := ToByte(CellStep(c[at + 1])), offset := c[at].offset - lc)][at := CellSetOffset(c[at + 1], c[at].offset)];
      e[..at] == c[..at] && e[at..] == CellOptimizeChoice(c[at..])
  {
    hide ToByte, CellStep, CellSetOffset, CellOptimizeChoice, CellWidth, IsCheckCell;
    var x, y := c[at].(aux := ToByte(CellStep(c[at + 1])), offset := c[at].offset - lc), CellSetOffset(c[at + 1], c[at].offset);
    var e, inst, rest := d[at + lc := x][at := y], c[at + 1..at + lc + 1], c[at + lc + 1..];
    assert c[at..] == [c[at]] + (inst + rest);
    SwapInCells(c[at], inst, rest, inst[0 := y], x);
    assert inst[0 := y] == [y] + c[at + 2..at + lc + 1];
    assert e[at..] == [y] + d[at + 1..at + lc] + [x] + d[at + lc + 1..];
  }

  // ---------- building new patterns ----------

  method NewPatt(n: nat) returns (p: array<Cell>)
    ensures fresh(p) && p.Length == n
  {
    p := new Cell[n](_ => Cell(IFAIL, 0, 0));
  }

  /** addpatt: copy a pattern into p from index `at` on; returns where it ends. */
  method AddPatt(p: array<Cell>, at: nat, src: Cells) returns (end: nat)
    requires at + |src| <= p.Length
    modifies p
    ensures end == at + |src| && p[..at] == old(p[..at]) && p[at..end] == src && p[end..] == old(p[end..])
  {
    var i := 0;
    while i < |src|
      invariant 0 <= i <= |src|
      invariant forall j :: 0 <= j < p.Length ==> p[j] == if at <= j < at + i then src[j - at] else old(p[j])
    {
      p[at + i] := src[i];
      i := i + 1;
    }
    end := at + |src|;
  }

  /** Copy src to index `at` of a pattern whose own code starts at `size`; what is there grows by src. */
  method Append(p: array<Cell>, size: nat, at: nat, src: Cells) returns (end: nat)
    requires size <= at && at + |src| <= p.Length
    modifies p
    ensures end == at + |src| && p[size..end] == old(p[size..at]) + src
    ensures forall j :: end <= j < p.Length ==> p[j] == old(p[j])
  {
    end := AddPatt(p, at, src);
    forall j | end <= j < p.Length
      ensures p[j] == old(p[j])
    {
      assert p[end..][j - end] == old(p[end..])[j - end];
    }
    assert p[size..at] == p[..at][size..] == old(p[..at])[size..] == old(p[size..at]);
    assert p[size..end] == p[size..at] + p[at..end];
  }

  /** Copy src and turn its first check into a test. */
  method AppendTest(p: array<Cell>, size: nat, at: nat, src: Cells, n: int) returns (end: nat)
    requires size <= at && at + |src| <= p.Length && src != []
    modifies p
    ensures end == at + |src| && p[size..end] == old(p[size..at]) + CellCheckToTest(src, n)
    ensures forall j :: end <= j < p.Length ==> p[j] == old(p[j])
  {
    end := Append(p, size, at, src);
    ghost var before, copied := old(p[size..at]), p[size..end];
    assert copied == before + src;
    assert p[at] == p[size..end][at - size] == copied[at - size] == src[0];
    p[at] := CellSetOffset(p[at], n);
    assert p[size..end] == copied[at - size := CellSetOffset(src[0], n)] == before + src[0 := CellSetOffset(src[0], n)];
  }

  method AppendInst(p: array<Cell>, size: nat, at: nat, i: Inst) returns (end: nat)
    requires size <= at && at + Width(i) <= p.Length
    modifies p
    ensures end == at + Width(i) && p[size..end] == old(p[size..at]) + InstCells(i)
    ensures forall j :: end <= j < p.Length ==> p[j] == old(p[j])
  {
    end := Append(p, size, at, InstCells(i));
  }

  /** A new pattern with the given cells. */
  method CopyPatt(src: Cells) returns (p: array<Cell>)
    ensures fresh(p) && p[..] == src
  {
    p := NewPatt(|src|);
    var e := AddPatt(p, 0, src);
    assert p[..] == p[0..e];
  }

  /** concat_l. */
  method ConcatL(p1: Cells, p2: Cells, m: Table) returns (p: array<Cell>)
    requires IsTable(m)
    ensures fresh(p) && p[..] == CellConcat(p1, p2, m)
  {
    hide CellOptimizeCaptures, AnyCode, Flatten;
    if CellIsFail(p1) || CellIsSucc(p2) {
      p := CopyPatt(p1);
    } else if CellIsFail(p2) || CellIsSucc(p1) {
      p := CopyPatt(p2);
    } else if CellIsAny(p1) && CellIsAny(p2) {
      p := CopyPatt(Flatten(AnyCode(p1[0].aux + p2[0].aux)));
    } else {
      p := NewPatt(|p1| + |p2|);
      var e := Append(p, 0, 0, p1);
      e := Append(p, 0, e, p2);
      assert p[..] == p[0..e] == p1 + p2;
      OptimizeCapturesPass(p, m);
    }
  }

  method DiffTestBuild(p1: Cells, p2: Cells) returns (p: array<Cell>)
    requires p2 != []
    ensures fresh(p) && p[..] == CellCheckToTest(p2, |p2| + 1) + InstCells(Fail) + p1
  {
    hide CellCheckToTest, InstCells;
    p := NewPatt(|p2| + 1 + |p1|);
    var e := AppendTest(p, 0, 0, p2, |p2| + 1);
    e := AppendInst(p, 0, e, Fail);
    e := Append(p, 0, e, p1);
    assert p[..] == p[0..e];
  }

  method DiffChoiceBuild(p1: Cells, p2: Cells) returns (p: array<Cell>)
    ensures fresh(p) && p[..] == CellOptimizeChoice(InstCells(Choice(|p2| + 2, 0)) + p2 + InstCells(FailTwice) + p1)
  {
    hide CellOptimizeChoice, InstCells;
    p := NewPatt(1 + |p2| + 1 + |p1|);
    var e := AppendInst(p, 0, 0, Choice(1 + |p2| + 1, 0));
    e := Append(p, 0, e, p2);
    e := AppendInst(p, 0, e, FailTwice);
    e := Append(p, 0, e, p1);
    assert p[0..] == p[0..e];
    OptimizeChoicePass(p, 0);
    assert p[..] == p[0..];
  }

  /** diff_l. */
  method DiffL(p1: Cells, p2: Cells) returns (p: array<Cell>)
    ensures fresh(p) && p[..] == CellDiff(p1, p2)
  {
    hide CellOptimizeChoice, InstCells, CellTag, CellHeadFail, CellCheckToTest;
    var t1, t2 := CellTag(p1), CellTag(p2);
    if t1.IsCharset? && t2.IsCharset? {
      p := CopyPatt(InstCells(Set(t1.cs - t2.cs, 0)));
    } else if CellHeadFail(p2) {
      HeadFailNotEmpty(p2);
      p := DiffTestBuild(p1, p2);
    } else {
      p := DiffChoiceBuild(p1, p2);
    }
  }

  lemma HeadFailNotEmpty(p: Cells)
    requires CellHeadFail(p)
    ensures p != []
  {
  }

  method TestUnionBuild(p1: Cells, p2: Cells, size: nat) returns (op: array<Cell>)
    requires p1 != []
    ensures fresh(op) && op.Length == size + |p1| + 1 + |p2|
    ensures op[size..] == CellCheckToTest(p1, |p1| + 1) + InstCells(Jmp(|p2| + 1)) + p2
  {
    hide CellCheckToTest, InstCells;
    op := NewPatt(size + |p1| + 1 + |p2|);
    var e := AppendTest(op, size, size, p1, |p1| + 1);
    e := AppendInst(op, size, e, Jmp(|p2| + 1));
    e := Append(op, size, e, p2);
    assert op[size..] == op[size..e];
  }

  method ChoiceUnionBuild(p1: Cells, p2: Cells, size: nat) returns (op: array<Cell>)
    ensures fresh(op) && op.Length == size + 1 + |p1| + 1 + |p2|
    ensures op[size..] == CellOptimizeChoice(InstCells(Choice(|p1| + 2, 0)) + p1 + InstCells(Commit(|p2| + 1)) + p2)
  {
    hide CellOptimizeChoice, InstCells;
    op := NewPatt(size + 1 + |p1| + 1 + |p2|);
    var e := AppendInst(op, size, size, Choice(1 + |p1| + 1, 0));
    e := Append(op, size, e, p1);
    e := AppendInst(op, size, e, Commit(1 + |p2|));
    e := Append(op, size, e, p2);
    ghost var raw := op[size..];
    assert raw == op[size..e] == InstCells(Choice(|p1| + 2, 0)) + p1 + InstCells(Commit(|p2| + 1)) + p2;
    OptimizeChoicePass(op, size);
  }

  /** basicUnion: the code goes into a new pattern after `size` cells left for the caller. */
  method BasicUnionBuild(p1: Cells, p2: Cells, size: nat, t2: CharsetTag) returns (op: array<Cell>)
    ensures fresh(op) && op.Length == size + |CellBasicUnion(p1, p2, t2)| && op[size..] == CellBasicUnion(p1, p2, t2)
  {
    hide CellOptimizeChoice, InstCells, CellTag, CellHeadFail, CellCheckToTest;
    var t1 := CellTag(p1);
    if t1.IsCharset? && t2.IsCharset? {
      op := NewPatt(size + CHARSETINSTSIZE);
      var e := AppendInst(op, size, size, Set(t1.cs + t2.cs, 0));
      assert op[size..] == op[size..e];
    } else if p1 != [] && (Exclusive(t1, t2) || CellHeadFail(p1)) {
      op := TestUnionBuild(p1, p2, size);
    } else {
      op := ChoiceUnionBuild(p1, p2, size);
    }
    assert |op[size..]| == op.Length - size;
  }

  /** Write an alternative as it is before the rest of the choice; its last jump goes to the end. */
  method KeepPart(op: array<Cell>, size: nat, part: Cells)
    requires part != [] && size + |part| <= op.Length
    modifies op
    ensures op[size..] == part[..|part| - 1] + [CellSetOffset(part[|part| - 1], op.Length - size - |part| + 1)] + old(op[size + |part|..])
  {
    var end := Append(op, size, size, part);
    assert op[end - 1] == op[size..end][|part| - 1] == part[|part| - 1];
    assert op[size..end - 1] == op[size..end][..|part| - 1] == part[..|part| - 1];
    op[end - 1] := CellSetOffset(op[end - 1], op.Length - (end - 1));
    assert op[size..] == op[size..end - 1] + [op[end - 1]] + op[end..];
  }

  lemma TestCells(part: Cells, w: nat, n: int)
    requires 0 < w <= |part|
    ensures CellCheckToTest(part[..w], n) == [CellSetOffset(part[0], n)] + part[1..w]
  {
    assert part[..w][0 := CellSetOffset(part[0], n)] == [CellSetOffset(part[0], n)] + part[1..w];
  }

  /** Write an alternative with a bare test as test, choice, rest and commit: one cell more. */
  method RebuildPart(op: array<Cell>, size: nat, part: Cells)
    requires part != [] && CellWidth(part[0]) < |part| && size + |part| + 1 <= op.Length
    modifies op
    ensures var w, e := CellWidth(part[0]), |part| - 1;
      op[size..] == [CellSetOffset(part[0], part[0].offset + 1)] + part[1..w] + InstCells(Choice(|part| - w + 1, 1)) + part[w..e]
                    + InstCells(Commit(op.Length - size - |part|)) + old(op[size + |part| + 1..])
  {
    hide InstCells, CellCheckToTest, CellSetOffset;
    var w := CellWidth(part[0]);
    TestCells(part, w, part[0].offset + 1);
    var e := AppendTest(op, size, size, part[..w], part[0].offset + 1);
    assert op[size..e] == CellCheckToTest(part[..w], part[0].offset + 1);
    e := AppendInst(op, size, e, Choice(|part| - w + 1, 1));
    e := Append(op, size, e, part[w..|part| - 1]);
    e := AppendInst(op, size, e, Commit(op.Length - e));
    assert op[e..] == old(op[size + |part| + 1..]);
    assert op[size..] == op[size..e] + op[e..];
  }

  /** Is the alternative kept as it is? */
  predicate KeepsPart(part: Cells, t2: CharsetTag)
    requires part != []
  {
    part[|part| - 1].code == ICOMMIT || !CellInterfere(part, t2) || CellWidth(part[0]) > |part| - 1
  }

  /** Cells an alternative takes: one more when the choice has to come back. */
  function CellsOfPart(part: Cells, t2: CharsetTag): nat
    requires part != []
  {
    if KeepsPart(part, t2) then |part| else |part| + 1
  }

  method PlacePartIn(op: array<Cell>, size: nat, part: Cells, t2: CharsetTag)
    requires part != [] && size + CellsOfPart(part, t2) <= op.Length
    modifies op
    ensures op[size..] == CellPlace(part, old(op[size + CellsOfPart(part, t2)..]), t2)
  {
    hide InstCells, CellInterfere, CellSetOffset;
    if KeepsPart(part, t2) {
      KeepPart(op, size, part);
    } else {
      RebuildPart(op, size, part);
    }
  }

  /** separateparts: the innermost call allocates the pattern, and each alternative is then
      written into the cells left for it, from the last one to the first. */
  method SeparatePartsBuild(p1: Cells, p2: Cells, size: nat, t2: CharsetTag) returns (op: array<Cell>)
    ensures fresh(op) && op.Length == size + |CellSeparate(p1, p2, t2)| && op[size..] == CellSeparate(p1, p2, t2)
    decreases |p1|
  {
    hide CellBasicUnion, CellPlace, CellInterfere;
    var sp := CellFirstPart(p1);
    if sp == 0 {
      op := BasicUnionBuild(p1, p2, size, t2);
    } else {
      var part := p1[..sp];
      var size2 := size + CellsOfPart(part, t2);
      op := SeparatePartsBuild(p1[sp..], p2, size2, t2);
      ghost var rest := op[size2..];
      PlacePartIn(op, size, part, t2);
      assert |op[size..]| == |CellPlace(part, rest, t2)|;
    }
  }

  /** union_l. */
  method UnionL(p1: Cells, p2: Cells) returns (p: array<Cell>)
    ensures fresh(p) && p[..] == CellUnion(p1, p2)
  {
    hide CellSeparate, CellTag;
    if CellIsFail(p1) {
      p := CopyPatt(p2);
    } else if CellIsFail(p2) || CellIsSucc(p1) {
      p := CopyPatt(p1);
    } else {
      p := SeparatePartsBuild(p1, p2, 0, CellTag(p2));
      assert p[..] == p[0..];
    }
  }

  // ---------- repetitions ----------

  /** The n leading copies of a repetition. */
  method AddCopies(p: array<Cell>, src: Cells, n: nat) returns (at: nat)
    requires |CellTimes(src, n)| <= p.Length
    modifies p
    ensures at == |CellTimes(src, n)| && p[0..at] == CellTimes(src, n)
  {
    at := 0;
    var i := 0;
    assert CellTimes(src, 0) + CellTimes(src, n) == CellTimes(src, n);
    while i < n
      invariant 0 <= i <= n && at == |CellTimes(src, i)| && at <= p.Length && p[0..at] == CellTimes(src, i)
      invariant CellTimes(src, n) == CellTimes(src, i) + CellTimes(src, n - i)
    {
      TimesNext(src, i);
      assert CellTimes(src, n - i) == src + CellTimes(src, n - i - 1);
      assert CellTimes(src, i) + (src + CellTimes(src, n - i - 1)) == CellTimes(src, i + 1) + CellTimes(src, n - i - 1);
      at := Append(p, 0, at, src);
      i := i + 1;
    }
    assert CellTimes(src, 0) == [];
  }

  lemma {:induction false} TimesNext(c: Cells, n: nat)
    ensures CellTimes(c, n + 1) == CellTimes(c, n) + c
    decreases n
  {
    if n == 0 {
      assert CellTimes(c, 0) == [] && c + CellTimes(c, 0) == c && CellTimes(c, 0) + c == c;
    } else {
      TimesNext(c, n - 1);
      assert c + (CellTimes(c, n - 1) + c) == c + CellTimes(c, n - 1) + c;
    }
  }

  datatype StarResult = Built(p: array<Cell>) | EmptyBody | StackError

  /** e; ...; e; span; */
  method RepeatCharsetBuild(p1: Cells, cs: set<Byte>, n: nat) returns (p: array<Cell>)
    ensures fresh(p) && p[..] == CellTimes(p1, n) + InstCells(Span(cs))
  {
    hide InstCells, CellTimes;
    p := NewPatt(|CellTimes(p1, n)| + CHARSETINSTSIZE);
    var e := AddCopies(p, p1, n);
    e := AppendInst(p, 0, e, Span(cs));
    assert p[..] == p[0..e];
  }

  /** e; ...; e; L2: e' (to L1); jump L2; L1: */
  method RepeatHeadFailBuild(p1: Cells, n: nat) returns (p: array<Cell>)
    requires p1 != []
    ensures fresh(p) && p[..] == CellTimes(p1, n) + CellCheckToTest(p1, |p1| + 1) + InstCells(Jmp(-|p1|))
  {
    hide InstCells, CellTimes, CellCheckToTest;
    p := NewPatt(|CellTimes(p1, n)| + |p1| + 1);
    var e := AddCopies(p, p1, n);
    e := AppendTest(p, 0, e, p1, |p1| + 1);
    e := AppendInst(p, 0, e, Jmp(-|p1|));
    assert p[..] == p[0..e];
  }

  /** e; ...; e; choice L1; L2: e; partialcommit L2; L1: */
  method RepeatsBuild(p1: Cells, n: nat) returns (p: array<Cell>)
    ensures fresh(p) && p[..] == CellTimes(p1, n) + InstCells(Choice(|p1| + 2, 0)) + p1 + InstCells(PartialCommit(-|p1|))
  {
    hide InstCells, CellTimes;
    p := NewPatt(|CellTimes(p1, n)| + |p1| + 2);
    var e := AddCopies(p, p1, n);
    e := AppendInst(p, 0, e, Choice(1 + |p1| + 1, 0));
    e := Append(p, 0, e, p1);
    e := AppendInst(p, 0, e, PartialCommit(-|p1|));
    assert p[..] == p[0..e];
  }

  /** optionalheadfail: the i-th copy gets a test over itself and the copies behind it. */
  method OptionalHeadFailBuild(p1: Cells, n: nat) returns (p: array<Cell>)
    requires p1 != []
    ensures fresh(p) && p[..] == CellOptionalHeadFail(p1, n)
  {
    hide CellCheckToTest;
    OptionalTestsSize(p1, n);
    p := NewPatt(n * |p1|);
    var i, e := 0, 0;
    while i < n
      invariant 0 <= i <= n && e == i * |p1| && e <= p.Length
      invariant p[0..e] + CellOptionalHeadFail(p1, n - i) == CellOptionalHeadFail(p1, n)
    {
      ghost var before := p[0..e];
      Room(i, n, |p1|);
      e := AppendTest(p, 0, e, p1, (n - i) * |p1|);
      assert before + (CellCheckToTest(p1, (n - i) * |p1|) + CellOptionalHeadFail(p1, n - i - 1)) == p[0..e] + CellOptionalHeadFail(p1, n - i - 1);
      i := i + 1;
    }
    assert p[..] == p[0..e] + [];
  }

  lemma Room(i: nat, n: nat, w: nat)
    requires i < n
    ensures i * w + w == (i + 1) * w <= n * w
  {
    assert (i + 1) * w + (n - i - 1) * w == n * w;
    assert (n - i - 1) * w >= 0;
  }

  lemma {:induction false} OptionalTestsSize(p1: Cells, n: nat)
    requires p1 != []
    ensures |CellOptionalHeadFail(p1, n)| == n * |p1|
  {
    if n > 0 {
      OptionalTestsSize(p1, n - 1);
      assert (n - 1) * |p1| + |p1| == n * |p1|;
    }
  }

  /** Copies of a body with a partial commit behind each of them. */
  function Steps(p1: Cells, n: nat): Cells {
    if n == 0 then [] else Steps(p1, n - 1) + (p1 + InstCells(PartialCommit(1)))
  }

  lemma {:induction false} BodyOfSteps(p1: Cells, n: nat)
    requires n > 0
    ensures CellOptionalBody(p1, n) == Steps(p1, n - 1) + (p1 + InstCells(Commit(1)))
    decreases n
  {
    hide InstCells;
    var step := p1 + InstCells(PartialCommit(1));
    if n > 1 {
      BodyOfSteps(p1, n - 1);
      StepsFront(p1, n - 2);
      assert step + (Steps(p1, n - 2) + (p1 + InstCells(Commit(1)))) == (step + Steps(p1, n - 2)) + (p1 + InstCells(Commit(1)));
    } else {
      assert Steps(p1, 0) == [];
    }
  }

  lemma {:induction false} StepsFront(p1: Cells, n: nat)
    ensures Steps(p1, n + 1) == (p1 + InstCells(PartialCommit(1))) + Steps(p1, n)
    decreases n
  {
    hide InstCells;
    var step := p1 + InstCells(PartialCommit(1));
    if n > 0 {
      StepsFront(p1, n - 1);
      assert (step + Steps(p1, n - 1)) + step == step + (Steps(p1, n - 1) + step);
    } else {
      assert Steps(p1, 0) == [] && Steps(p1, 1) == [] + step;
    }
  }

  /** The cells that the loop of `optionals` writes: each body is followed by a partial commit. */
  method OptionalStepsBuild(p1: Cells, n: nat) returns (p: array<Cell>)
    requires n > 0
    ensures fresh(p) && p[..] == InstCells(Choice(1 + n * (|p1| + 1), 0)) + Steps(p1, n)
  {
    hide InstCells;
    ghost var head := InstCells(Choice(1 + n * (|p1| + 1), 0));
    p := NewPatt(1 + n * (|p1| + 1));
    var e := AppendInst(p, 0, 0, Choice(1 + n * (|p1| + 1), 0));
    var i := 0;
    while i < n
      invariant 0 <= i <= n && e == 1 + i * (|p1| + 1) && e <= p.Length && p[0..e] == head + Steps(p1, i)
    {
      Room(i, n, |p1| + 1);
      e := Append(p, 0, e, p1);
      e := AppendInst(p, 0, e, PartialCommit(1));
      assert (head + Steps(p1, i)) + p1 + InstCells(PartialCommit(1)) == head + (Steps(p1, i) + (p1 + InstCells(PartialCommit(1))));
      i := i + 1;
    }
    assert p[..] == p[0..e];
  }

  /** optionals: the last partial commit becomes a commit. */
  method OptionalsBuild(p1: Cells, n: nat) returns (p: array<Cell>)
    requires n > 0
    ensures fresh(p) && p[..] == CellOptimizeChoice(InstCells(Choice(1 + n * (|p1| + 1), 0)) + CellOptionalBody(p1, n))
  {
    hide CellOptimizeChoice;
    p := OptionalStepsBuild(p1, n);
    ghost var head := InstCells(Choice(1 + n * (|p1| + 1), 0));
    ghost var was := p[..];
    p[p.Length - 1] := Cell(ICOMMIT, 0, 1);
    BodyOfSteps(p1, n);
    assert was == head + (Steps(p1, n - 1) + (p1 + [Cell(IPARTIALCOMMIT, 0, 1)]));
    assert p[..] == was[..|was| - 1] + [Cell(ICOMMIT, 0, 1)];
    assert p[..] == head + (Steps(p1, n - 1) + (p1 + [Cell(ICOMMIT, 0, 1)]));
    assert p[0..] == p[..];
    OptimizeChoicePass(p, 0);
    assert p[0..] == p[..];
  }

  /** star_l, where a repetition is asked for: the raw code, with a loop test of a general body. */
  method RawStar(p1: Cells, n: nat, ghost c: Code, ghost a: Pattern) returns (r: StarResult)
    requires p1 == Encode(c) && Implements(c, a) && !CellTag(p1).IsCharset?
    ensures match r
            case Built(p) => fresh(p) && p[..] == Encode(LpegRepetition.RawAtLeast(c, n)) && !Nullable(a)
            case EmptyBody => Nullable(a)
            case StackError => NeedsTest(c) && VerdictOf(c) == TooManyPending
  {
    hide Encode, WF, CellTag, CellHeadFail, IsHeadFail, ToCharset, Walks, CellWalks, CellTimes, CellCheckToTest, InstCells, Implements, CodeFits, VerdictOf, CellVerdictOf;
    BodyFacts(c, a);
    LoopCells(c, n);
    if CellHeadFail(p1) {
      TestFree(c, a);
      var p := RepeatHeadFailBuild(p1, n);
      r := Built(p);
    } else {
      var verdict := LpegVm.Verify(p1, Nullable(a));
      if verdict == TooManyPending { return StackError; }
      if verdict == Rejects { return EmptyBody; }
      var p := RepeatsBuild(p1, n);
      r := Built(p);
    }
  }

  /** What is known of the body of a repetition. */
  lemma BodyFacts(c: Code, a: Pattern)
    requires Implements(c, a)
    ensures WF(c) && Within(c) && Walks(c, Nullable(a)) && CellWalks(Encode(c), Nullable(a))
    ensures CellTag(Encode(c)) == ToCharset(c) && CellHeadFail(Encode(c)) == IsHeadFail(c)
    ensures CellVerdictOf(Encode(c)) == VerdictOf(c)
    ensures VerdictOf(c) == TooManyPending || VerdictOf(c) == if Nullable(a) then Rejects else Accepts
  {
    hide Encode, WF, CellTag, CellHeadFail, IsHeadFail, ToCharset, Walks, CellWalks, CodeFits, VerdictOf, CellVerdictOf, Within;
    ImplementsFacts(c, a);
    WFWithin(c);
    TagAgrees(c);
    HeadFailAgrees(c);
    WalksAgree(c, Nullable(a));
    VerdictAgrees(c, Nullable(a));
    VerdictIs(c, Nullable(a));
  }

  /** star_l: at least n copies, or, for a negative n, at most -n. */
  method StarL(p1: Cells, n: int, m: Table, ghost c: Code, ghost a: Pattern) returns (r: StarResult)
    requires IsTable(m) && p1 == Encode(c) && Implements(c, a) && (n >= 0 ==> AtLeastSafe(c, n))
    ensures match r
            case Built(p) => fresh(p) && p[..] == Encode(if n >= 0 then AtLeastCode(c, n) else AtMostCode(c, -n)) && (n >= 0 ==> !Nullable(a))
            case EmptyBody => n >= 0 && Nullable(a)
            case StackError => n >= 0 && NeedsTest(c) && VerdictOf(c) == TooManyPending
  {
    hide Encode, WF, CellTag, CellHeadFail, IsHeadFail, ToCharset, Walks, CellWalks, CellTimes, Implements, CodeFits, VerdictOf, CellVerdictOf, AtLeastSafe,
      AtLeastCode, AtMostCode, CellOptionalHeadFail, CellOptionalBody, CellOptimizeChoice, InstCells;
    BodyFacts(c, a);
    if n >= 0 {
      if CellTag(p1).IsCharset? {
        var p := RepeatCharsetBuild(p1, CellTag(p1).cs, n);
        CharsetStar(c, a, n);
        return Built(p);
      }
      r := RawStar(p1, n, c, a);
      if r.Built? {
        StarPasses(c, a, n, m);
        OptimizeCapturesPass(r.p, m);
        OptimizeJumpsPass(r.p, OptimizeCaptures(LpegRepetition.RawAtLeast(c, n)));
      }
    } else {
      AtMostAgrees(c, -n);
      OptionCells(c, -n);
      var p: array<Cell>;
      if CellHeadFail(p1) { p := OptionalHeadFailBuild(p1, -n); } else { p := OptionalsBuild(p1, -n); }
      return Built(p);
    }
  }

  lemma CharsetStar(c: Code, a: Pattern, n: nat)
    requires Implements(c, a) && ToCharset(c).IsCharset?
    ensures Encode(AtLeastCode(c, n)) == CellTimes(Encode(c), n) + InstCells(Span(ToCharset(c).cs)) && !Nullable(a)
  {
    hide Encode, WF, Walks, InstCells, CellTimes;
    ImplementsFacts(c, a);
    WFWithin(c);
    SpanAgrees(c, ToCharset(c).cs, n);
    TestFree(c, a);
  }

  /** The two passes over the raw code of a repetition. */
  lemma StarPasses(c: Code, a: Pattern, n: nat, m: Table)
    requires IsTable(m) && Implements(c, a) && AtLeastSafe(c, n) && !Nullable(a) && !ToCharset(c).IsCharset?
    ensures var raw := LpegRepetition.RawAtLeast(c, n); var d := OptimizeCaptures(raw);
      && CellOptimizeCaptures(Encode(raw), m) == Encode(d) && StandsFor(Encode(d), d)
      && CellOptimizeJumps(Encode(d)) == Encode(AtLeastCode(c, n))
  {
    hide Encode, WF, Walks, CellOptimizeCaptures, CellOptimizeJumps, OptimizeCaptures, OptimizeJumps, KeepsAll, RawClear, TestsClear, ToCharset, IsHeadFail, CodeFits;
    var raw := LpegRepetition.RawAtLeast(c, n);
    ImplementsFacts(c, a);
    LpegRepetition.RawAtLeastShape(c, n);
    WFFits(raw);
    NeverMisreadIs(raw);
    CellCapturesExact(raw, m);
    OptimizeCapturesCorrect(raw);
    KeptWF(OptimizeCaptures(raw), raw);
    JumpsAgree(OptimizeCaptures(raw));
    StarIs(c, n);
  }

  lemma StarIs(c: Code, n: nat)
    requires !ToCharset(c).IsCharset?
    ensures AtLeastCode(c, n) == OptimizeJumps(OptimizeCaptures(LpegRepetition.RawAtLeast(c, n)))
  {
    hide OptimizeCaptures, OptimizeJumps;
  }

  lemma OptionCells(c: Code, n: nat)
    requires n > 0 && WF(c) && CellHeadFail(Encode(c)) == IsHeadFail(c)
    ensures CellHeadFail(Encode(c)) ==> Encode(c) != [] && Encode(AtMostCode(c, n)) == CellOptionalHeadFail(Encode(c), n)
    ensures !CellHeadFail(Encode(c)) ==> Encode(AtMostCode(c, n)) == CellOptimizeChoice(InstCells(Choice(1 + n * (|Encode(c)| + 1), 0)) + CellOptionalBody(Encode(c), n))
  {
    hide Encode, WF, AtMostCode, CellHeadFail, IsHeadFail, CellOptionalHeadFail, CellOptionalBody, CellOptimizeChoice, InstCells;
    AtMostAgrees(c, n);
  }

  // ---------- captures ----------

  /** capture_aux. */
  method CaptureAux(p1: Cells, kind: CapKind, idx: int, m: Table) returns (p: array<Cell>)
    requires IsTable(m)
    ensures fresh(p) && p[..] == CellCapture(p1, kind, idx, m)
  {
    hide InstCells, CellOptimizeCaptures, CellSkip;
    var whole := CopyPatt(p1);
    var lc, n := SkipChecksLoop(whole, 0, 0);
    var e: nat;
    if lc == |p1| {
      p := NewPatt(|p1| + 1);
      e := Append(p, 0, 0, p1);
      e := AppendInst(p, 0, e, FullCapture(idx, kind, n));
      assert p[..] == p[0..e];
    } else {
      p := NewPatt(|p1| + 2);
      e := AppendInst(p, 0, 0, OpenCapture(idx, kind, 0));
      e := Append(p, 0, e, p1);
      e := AppendInst(p, 0, e, CloseCapture(0, Cclose, 0));
      assert p[..] == p[0..e];
      OptimizeCapturesPass(p, m);
    }
  }
}
