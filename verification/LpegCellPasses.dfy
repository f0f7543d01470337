/** The passes of the pattern builder as they run over cells.  The one that moves captures steps back
    by cells, and so may take the end of a charset for a capture; it computes the code that its
    instructions are meant to have exactly when that does not happen. */
module LpegCellPasses {
  import opened LpegMachine
  import opened LpegCombinators
  import opened LpegSimulation
  import opened LpegWellFormed
  import opened LpegCells

  // ---------- the pass that moves captures ----------

  /** The backward scan: while (start > limit && ismovablecap(p + start - 1)). */
  function CellGroupStart(p: Cells, start: nat, limit: int, m: Table): (r: nat)
    requires start <= |p|
    ensures r <= start
  {
    if limit < start && start > 0 && MovableCell(p[start - 1], m) then CellGroupStart(p, start - 1, limit, m) else start
  }

  function CellMaxOff(p: Cells, start: nat, i: nat): nat
    requires start <= i < |p|
    decreases i - start
  {
    if start == i then CellOff(p[i])
    else
      var k := CellMaxOff(p, start + 1, i);
      if CellOff(p[start]) > k then CellOff(p[start]) else k
  }

  /** skipchecks: how many cells, and how many bytes they take. */
  function CellSkip(p: Cells, i: nat, up: nat): (r: (nat, nat))
    decreases |p| - i
  {
    if i < |p| && IsCheckCell(p[i]) && CellStep(p[i]) + up <= MAXOFF then
      var (k, n) := CellSkip(p, i + CellWidth(p[i]), up + CellStep(p[i]));
      (CellWidth(p[i]) + k, n + CellStep(p[i]))
    else (0, 0)
  }

  function CellDelay(p: Cells, n: nat): (r: Cells)
    ensures |r| == |p|
  {
    seq(|p|, k requires 0 <= k < |p| => p[k].(aux := ToByte(p[k].aux + 16 * n)))
  }

  /** The cells start..i change places with those at i + 1..end. */
  function CellMove(p: Cells, start: nat, i: nat, end: nat, n: nat): (r: Cells)
    requires start <= i <= end < |p|
    ensures |r| == |p|
  {
    p[..start] + p[i + 1..end + 1] + CellDelay(p[start..i + 1], n) + p[end + 1..]
  }

  predicate CellBorder(p: Cells, i: nat, limit: int, m: Table) {
    i >= limit && i + 1 < |p| && MovableCell(p[i], m) && IsCheckCell(p[i + 1])
  }

  /** The loop of optimizecaptures. */
  function CellPass(p: Cells, i: nat, limit: int, m: Table): (r: Cells)
    ensures |r| == |p|
    decreases |p| - i
  {
    if i >= |p| then p
    else if IsJmpCell(p[i]) && i + p[i].offset >= limit then CellPass(p, i + CellWidth(p[i]), i + p[i].offset + 1, m)
    else if CellBorder(p, i, limit, m) then
      var start := CellGroupStart(p, i, limit, m);
      var (k, n) := CellSkip(p, i + 1, CellMaxOff(p, start, i));
      if n == 0 || i + k >= |p| then CellPass(p, i + 1, limit, m)
      else CellPass(CellMove(p, start, i, i + k, n), i + k + 1, limit, m)
    else CellPass(p, i + CellWidth(p[i]), limit, m)
  }

  function CellOptimizeCaptures(p: Cells, m: Table): Cells { CellPass(p, 0, 0, m) }

  // ---------- when the scan misreads a charset ----------

  /** The cell before instruction `start` belongs to a charset, and looks like a capture. */
  predicate Misread(c: Code, start: nat, m: Table) {
    0 < start <= |c| && HasCharset(c[start - 1]) && MovableCell(RawCell(c[start - 1].cs, RAWCELLS - 1), m)
  }

  /** No charset that looks like a capture at its end stands right before a group that is moved. */
  predicate RawClearFrom(c: Code, i: nat, limit: int, m: Table)
    decreases |c| - i
  {
    if i >= |c| then true
    else if IsJmp(c[i]) && Dest(c, i) >= limit then RawClearFrom(c, i + 1, Dest(c, i) + 1, m)
    else if AtBorder(c, i, limit) then
      var f := FindSlice(c, i, limit);
      if f.bytes == 0 then RawClearFrom(c, i + 1, limit, m)
      else !Misread(c, f.start, m) && RawClearFrom(MoveSlice(c, f.start, i, i + f.checks, f.bytes), i + f.checks + 1, limit, m)
    else RawClearFrom(c, i + 1, limit, m)
  }

  predicate RawClear(c: Code, m: Table) { RawClearFrom(c, 0, 0, m) }

  // ---------- the same pass, by cells and by instructions ----------

  /** A limit in instructions and the same one in cells: just behind a jump target. */
  predicate SameLimit(c: Code, limit: int, climit: int) {
    if limit == 0 then climit == 0 else 0 < limit <= |c| + 1 && climit == Pos(c, limit - 1) + 1
  }

  /** The comparisons of the scans with their limits agree, but for a charset that is a jump target itself. */
  lemma LimitAgrees(c: Code, limit: int, climit: int, i: nat)
    requires SameLimit(c, limit, climit) && i <= |c|
    ensures climit < Pos(c, i) <==> limit < i || (limit == i && i > 0 && HasCharset(c[i - 1]))
    ensures climit <= Pos(c, i) <==> limit <= i
  {
    if limit > 0 {
      if i < limit { PosUp(c, i, limit - 1); }
      else if i > limit { PosUp(c, limit, i); }
      if i >= limit { assert Pos(c, limit) == Pos(c, limit - 1) + Width(c[limit - 1]); PosUp(c, limit, i); }
    } else if i > 0 { PosUp(c, 0, i); }
  }

  /** The backward scan goes on to the capture before. */
  lemma GroupGoesOn(c: Code, i: nat, limit: int, climit: int, m: Table)
    requires CodeFits(c) && IsTable(m) && 0 < i < |c| && SameLimit(c, limit, climit) && limit < i && IsMovableCap(c[i - 1])
    ensures 0 <= Pos(c, i - 1) == Pos(c, i) - 1 < |Encode(c)|
    ensures CellGroupStart(Encode(c), Pos(c, i), climit, m) == CellGroupStart(Encode(c), Pos(c, i - 1), climit, m)
  {
    hide Pos, Encode, MovableCell, SameLimit, RawCell, CodeFits, IsTable;
    PosInside(c, i);
    PosInside(c, i - 1);
    OneCell(c, i - 1);
    LimitAgrees(c, limit, climit, i);
    EncodeBefore(c, i, m);
  }

  /** The backward scan stops. */
  lemma GroupStops(c: Code, i: nat, limit: int, climit: int, m: Table)
    requires CodeFits(c) && IsTable(m) && i < |c| && SameLimit(c, limit, climit) && !Misread(c, i, m)
    requires !(limit < i && i > 0 && IsMovableCap(c[i - 1]))
    ensures 0 <= Pos(c, i) <= |Encode(c)| && CellGroupStart(Encode(c), Pos(c, i), climit, m) == Pos(c, i)
  {
    hide Pos, Encode, MovableCell, SameLimit, RawCell, CodeFits, IsTable;
    PosInside(c, i);
    LimitAgrees(c, limit, climit, i);
    if i > 0 { EncodeBefore(c, i, m); }
  }

  /** Without a misread charset the backward scans stop at the same capture. */
  lemma {:induction false} GroupAgrees(c: Code, i: nat, limit: int, climit: int, m: Table)
    requires CodeFits(c) && IsTable(m) && i < |c| && SameLimit(c, limit, climit) && !Misread(c, GroupStart(c, i, limit), m)
    ensures 0 <= Pos(c, i) <= |Encode(c)| && CellGroupStart(Encode(c), Pos(c, i), climit, m) == Pos(c, GroupStart(c, i, limit))
    decreases i
  {
    hide Pos, Encode, CellGroupStart, SameLimit, RawCell, CodeFits, IsTable, IsMovableCap, Misread;
    PosInside(c, i);
    if limit < i && i > 0 && IsMovableCap(c[i - 1]) {
      GroupGoesOn(c, i, limit, climit, m);
      GroupAgrees(c, i - 1, limit, climit, m);
    } else {
      GroupStops(c, i, limit, climit, m);
    }
  }

  lemma PosInside(c: Code, k: nat)
    requires k <= |c|
    ensures 0 <= Pos(c, k) <= |Encode(c)| && (Pos(c, k) == 0 <==> k == 0)
  {
    EncodeLength(c);
    PosUp(c, 0, k);
    PosUp(c, k, |c|);
  }

  /** The checks to be skipped are the same. */
  lemma {:induction false} SkipAgrees(c: Code, i: nat, up: nat, m: Table)
    requires CodeFits(c) && IsTable(m) && i <= |c| && up <= MAXOFF
    ensures i + SkipChecks(c, i, up).0 <= |c| && 0 <= Pos(c, i)
    ensures CellSkip(Encode(c), Pos(c, i), up) == (Pos(c, i + SkipChecks(c, i, up).0) - Pos(c, i), SkipChecks(c, i, up).1)
    decreases |c| - i
  {
    hide Encode, Pos, IsCheck, IsCheckCell, CellStep, OpStep, CellWidth, Width, CodeFits, IsTable;
    PosInside(c, i);
    if i == |c| {
      EncodeLength(c);
    } else {
      CheckSays(c, i, m);
      if IsCheck(c[i]) && OpStep(c[i]) <= MAXOFF - up { SkipAgrees(c, i + 1, up + OpStep(c[i]), m); }
    }
  }

  lemma CheckSays(c: Code, i: nat, m: Table)
    requires CodeFits(c) && IsTable(m) && i < |c|
    ensures 0 <= Pos(c, i) < |Encode(c)| && IsCheckCell(Encode(c)[Pos(c, i)]) == IsCheck(c[i])
    ensures IsCheck(c[i]) ==> CellStep(Encode(c)[Pos(c, i)]) == OpStep(c[i]) && Pos(c, i + 1) == Pos(c, i) + CellWidth(Encode(c)[Pos(c, i)])
  {
    EncodeSays(c, i, m);
    hide Encode, Pos, CodeFits;
  }

  /** Captures take one cell each. */
  lemma {:induction false} CapturePos(c: Code, start: nat, i: nat)
    requires start <= i < |c| && forall j :: start <= j <= i ==> IsMovable(c[j])
    ensures Pos(c, i) == Pos(c, start) + (i - start) && Pos(c, i + 1) == Pos(c, i) + 1
    decreases i
  {
    assert IsMovable(c[i]);
    if start < i { CapturePos(c, start, i - 1); }
  }

  lemma OffSays(c: Code, i: nat, m: Table)
    requires CodeFits(c) && IsTable(m) && i < |c| && IsMovable(c[i])
    ensures 0 <= Pos(c, i) < |Encode(c)| && CellOff(Encode(c)[Pos(c, i)]) == CaptureOffset(c[i])
  {
    hide Encode, Pos, CodeFits, IsTable, CellOff, CaptureOffset;
    EncodeSays(c, i, m);
  }

  lemma {:induction false} MaxAgrees(c: Code, start: nat, i: nat, m: Table)
    requires CodeFits(c) && IsTable(m) && start <= i < |c| && forall j :: start <= j <= i ==> IsMovableCap(c[j])
    ensures 0 <= Pos(c, start) <= Pos(c, i) < |Encode(c)| && CellMaxOff(Encode(c), Pos(c, start), Pos(c, i)) == MaxOff(c, start, i)
    decreases i - start
  {
    hide Encode, Pos, CodeFits, IsTable, CellOff, CaptureOffset;
    assert IsMovableCap(c[start]) && IsMovableCap(c[i]);
    OffSays(c, start, m);
    OffSays(c, i, m);
    if start < i {
      PosUp(c, start, i);
      OneCell(c, start);
      MaxAgrees(c, start + 1, i, m);
    }
  }

  // ---------- moving ----------

  lemma {:induction false} DelayAgrees(caps: Code, n: nat)
    requires Delayable(caps, n)
    ensures Flatten(DelayAll(caps, n)) == CellDelay(Flatten(caps), n)
    decreases |caps|
  {
    hide Header, CapAux, InstCells, KindNumber, ToByte, Flatten;
    if caps == [] {
      FlattenNone();
      assert DelayAll(caps, n) == [];
    } else {
      var front, last := caps[..|caps| - 1], caps[|caps| - 1];
      assert IsMovable(last) && caps == front + [last];
      DelayAgrees(front, n);
      assert DelayAll(caps, n) == DelayAll(front, n) + [Delayed(last, n)];
      FlattenSnoc(front, last);
      FlattenSnoc(DelayAll(front, n), Delayed(last, n));
      DelayOne(last, n);
      assert CellDelay(Flatten(front) + [Header(last)], n) == CellDelay(Flatten(front), n) + [Header(last).(aux := ToByte(Header(last).aux + 16 * n))];
    }
  }

  lemma DelayOne(i: Inst, n: nat)
    requires IsMovable(i) && i.off + n <= MAXOFF
    ensures InstCells(Delayed(i, n)) == [Header(i).(aux := ToByte(Header(i).aux + 16 * n))] && InstCells(i) == [Header(i)]
  {
    CapAuxParts(i.kind, i.off);
    CapAuxParts(i.kind, i.off + n);
    hide CapAux;
  }

  /** Four parts, one after the other. */
  function Four<T>(a: seq<T>, x: seq<T>, y: seq<T>, rest: seq<T>): (r: seq<T>)
    ensures |r| == |a| + |x| + |y| + |rest|
  {
    a + (x + (y + rest))
  }

  /** A code with a slice, and the code in which it has been moved, part by part. */
  lemma SliceParts(c: Code, start: nat, i: nat, end: nat, n: nat)
    requires start <= i < end < |c| && (forall j :: start <= j <= i ==> IsMovable(c[j]))
    ensures c == Four(c[..start], c[start..i + 1], c[i + 1..end + 1], c[end + 1..])
    ensures MoveSlice(c, start, i, end, n) == Four(c[..start], c[i + 1..end + 1], DelayAll(c[start..i + 1], n), c[end + 1..])
  {
    hide DelayAll;
  }

  /** Moving a slice moves no position outside it. */
  lemma MovedPos(c: Code, start: nat, i: nat, end: nat, n: nat, k: int)
    requires start <= i < end < |c| && (forall j :: start <= j <= i ==> IsMovable(c[j])) && OutsidePc(k, start, end)
    ensures Pos(MoveSlice(c, start, i, end, n), k) == Pos(c, k)
  {
    SliceParts(c, start, i, end, n);
    var a, caps, checks, rest := c[..start], c[start..i + 1], c[i + 1..end + 1], c[end + 1..];
    var moved := DelayAll(caps, n);
    assert forall j :: 0 <= j < |caps| ==> Width(caps[j]) == Width(moved[j]);
    var d := MoveSlice(c, start, i, end, n);
    hide Pos, MoveSlice, DelayAll, IsMovable, Width;
    if k <= start {
      assert forall j :: 0 <= j < k ==> c[j] == a[j] == d[j];
      PosUntil(c, d, k);
    } else {
      PosSwapped(a, caps, checks, moved, rest, k);
    }
  }

  lemma {:induction false} PosUntil(c: Code, d: Code, k: int)
    requires |c| == |d| && k <= |c| && forall j :: 0 <= j < k ==> c[j] == d[j]
    ensures Pos(c, k) == Pos(d, k)
    decreases k
  {
    if k > 0 { PosUntil(c, d, k - 1); }
  }

  /** Behind two parts that change places. */
  lemma PosSwapped(a: Code, x: Code, y: Code, x2: Code, rest: Code, k: int)
    requires |x| == |x2| && (forall j :: 0 <= j < |x| ==> Width(x[j]) == Width(x2[j])) && k >= |a| + |x| + |y|
    ensures Pos(Four(a, x, y, rest), k) == Pos(Four(a, y, x2, rest), k)
  {
    hide Width;
    var c, d, n := Four(a, x, y, rest), Four(a, y, x2, rest), |a| + |x| + |y| + |rest|;
    var t := if k <= n then k - |a| - |x| - |y| else |rest|;
    PosSame(x, x2, |x|);
    PosTail(a, x, y, rest, t);
    PosTail(a, y, x2, rest, t);
    assert |c| == n == |d|;
    if k > n { assert Pos(c, k) == Pos(c, n) + k - n && Pos(d, k) == Pos(d, n) + k - n; }
  }

  lemma PosTail(a: Code, x: Code, y: Code, rest: Code, t: nat)
    requires t <= |rest|
    ensures Pos(a + (x + (y + rest)), |a| + |x| + |y| + t) == Pos(a, |a|) + Pos(x, |x|) + Pos(y, |y|) + Pos(rest, t)
  {
    hide Pos;
    PosAppend(a, x + (y + rest), |x| + (|y| + t));
    PosAppend(x, y + rest, |y| + t);
    PosAppend(y, rest, t);
  }

  /** A slice that nothing enters is relocated as it is moved. */
  lemma MovedRelocate(c: Code, start: nat, i: nat, end: nat, n: nat)
    requires IsSlice(c, start, i, end, n)
    ensures Relocate(MoveSlice(c, start, i, end, n)) == MoveSlice(Relocate(c), start, i, end, n)
  {
    var d, r := MoveSlice(c, start, i, end, n), Relocate(c);
    forall j | start <= j <= i ensures IsMovable(r[j]) { RelocateAt(c, j); assert IsMovable(c[j]); }
    var e := MoveSlice(r, start, i, end, n);
    hide MoveSlice, IsSlice, Relocate;
    forall j | 0 <= j < |d|
      ensures Relocate(d)[j] == e[j]
    {
      MovedRelocateAt(c, start, i, end, n, j);
    }
  }

  lemma RelocateSame(c: Code, d: Code, j: nat)
    requires j < |c| == |d| && c[j] == d[j]
    requires HasTarget(c[j]) ==> Pos(c, j) == Pos(d, j) && Pos(c, Dest(c, j)) == Pos(d, Dest(c, j))
    ensures Relocate(d)[j] == Relocate(c)[j]
  {
    hide Pos;
  }

  lemma RelocatePlain(c: Code, j: nat)
    requires j < |c| && !HasTarget(c[j])
    ensures Relocate(c)[j] == c[j]
  {
  }

  lemma MovedRelocateAt(c: Code, start: nat, i: nat, end: nat, n: nat, j: nat)
    requires IsSlice(c, start, i, end, n) && (forall k :: start <= k <= i ==> IsMovable(Relocate(c)[k])) && j < |c|
    ensures Relocate(MoveSlice(c, start, i, end, n))[j] == MoveSlice(Relocate(c), start, i, end, n)[j]
  {
    hide MoveSlice, Relocate, Pos;
    var d, r := MoveSlice(c, start, i, end, n), Relocate(c);
    MoveSliceAt(c, start, i, end, n, j);
    MoveSliceIndex(r, start, i, end, n, j);
    if j < start || end < j {
      assert HasTarget(c[j]) ==> OutsidePc(Dest(c, j), start, end);
      if HasTarget(c[j]) {
        MovedPos(c, start, i, end, n, j);
        MovedPos(c, start, i, end, n, Dest(c, j));
      }
      RelocateSame(c, d, j);
    } else if j < start + (end - i) {
      RelocatePlain(d, j);
      RelocatePlain(c, j + (i + 1 - start));
    } else {
      assert IsMovable(c[j - (end - i)]);
      RelocatePlain(d, j);
      RelocatePlain(c, j - (end - i));
    }
  }

  /** Flattening part by part. */
  lemma FlattenParts(a: Code, x: Code, y: Code, rest: Code)
    ensures Flatten(Four(a, x, y, rest)) == Four(Flatten(a), Flatten(x), Flatten(y), Flatten(rest))
  {
    FlattenAppend(a, x + (y + rest));
    FlattenAppend(x, y + rest);
    FlattenAppend(y, rest);
  }

  lemma CellMoveIs(p: Cells, a: Cells, x: Cells, y: Cells, rest: Cells, n: nat)
    requires p == Four(a, x, y, rest) && x != [] && y != []
    ensures CellMove(p, |a|, |a| + |x| - 1, |a| + |x| + |y| - 1, n) == Four(a, y, CellDelay(x, n), rest)
  {
    hide CellDelay;
    var i, j, k := |a|, |a| + |x|, |a| + |x| + |y|;
    assert p[..i] == a && p[i..j] == x && p[j..k] == y && p[k..] == rest;
  }

  /** Where the parts of a slice are. */
  lemma PartPos(c: Code, start: nat, i: nat, end: nat)
    requires start <= i < end < |c|
    ensures var r := Relocate(c);
      && Pos(c, start) == |Flatten(r[..start])|
      && Pos(c, i + 1) == |Flatten(r[..start])| + |Flatten(r[start..i + 1])|
      && Pos(c, end + 1) == |Flatten(r[..start])| + |Flatten(r[start..i + 1])| + |Flatten(r[i + 1..end + 1])|
  {
    var r := Relocate(c);
    hide Pos, Flatten, Relocate;
    var a, x, y := r[..start], r[start..i + 1], r[i + 1..end + 1];
    RelocatePos(c, start); RelocatePos(c, i + 1); RelocatePos(c, end + 1);
    PosPrefix(r, start); PosPrefix(r, i + 1); PosPrefix(r, end + 1);
    assert r[..i + 1] == a + x && r[..end + 1] == (a + x) + y;
    FlattenAppend(a, x);
    FlattenAppend(a + x, y);
  }

  predicate Delayable(c: Code, n: nat) { forall j :: 0 <= j < |c| ==> IsMovable(c[j]) && c[j].off + n <= MAXOFF }

  lemma SliceDelayable(c: Code, start: nat, i: nat, end: nat, n: nat)
    requires IsSlice(c, start, i, end, n) && forall j :: start <= j <= i ==> CaptureOffset(c[j]) + n <= MAXOFF
    ensures Delayable(Relocate(c)[start..i + 1], n) && forall j :: start <= j <= i ==> IsMovable(Relocate(c)[j])
  {
    forall j | start <= j <= i ensures IsMovable(Relocate(c)[j]) && Relocate(c)[j].off + n <= MAXOFF {
      assert IsMovable(c[j]) && CaptureOffset(c[j]) + n <= MAXOFF;
      RelocatePlain(c, j);
    }
  }

  /** Moving a slice in a code whose offsets count cells. */
  lemma MovedCells(r: Code, start: nat, i: nat, end: nat, n: nat)
    requires start <= i < end < |r| && (forall j :: start <= j <= i ==> IsMovable(r[j])) && Delayable(r[start..i + 1], n)
    ensures var a, x, y := |Flatten(r[..start])|, |Flatten(r[start..i + 1])|, |Flatten(r[i + 1..end + 1])|;
      && x > 0 && y > 0 && a + x + y <= |Flatten(r)|
      && Flatten(MoveSlice(r, start, i, end, n)) == CellMove(Flatten(r), a, a + x - 1, a + x + y - 1, n)
  {
    hide Flatten, MoveSlice, DelayAll, CellDelay, CellMove, Delayable, IsMovable, Four;
    SliceParts(r, start, i, end, n);
    var a, x, y, rest := r[..start], r[start..i + 1], r[i + 1..end + 1], r[end + 1..];
    DelayAgrees(x, n);
    FlattenSome(x);
    FlattenSome(y);
    FlattenParts(a, x, y, rest);
    FlattenParts(a, y, DelayAll(x, n), rest);
    CellMoveIs(Flatten(r), Flatten(a), Flatten(x), Flatten(y), Flatten(rest), n);
  }

  lemma FlattenSome(c: Code)
    requires c != []
    ensures Flatten(c) != []
  {
  }

  lemma SliceBounds(c: Code, start: nat, i: nat, end: nat, n: nat)
    requires IsSlice(c, start, i, end, n)
    ensures start <= i < end < |c| && forall j :: start <= j <= i ==> IsMovable(c[j])
    ensures Pos(c, start) <= Pos(c, i) < Pos(c, i) + 1 == Pos(c, i + 1) < Pos(c, end + 1)
  {
    CapturePos(c, start, i);
    PosUp(c, i + 1, end + 1);
  }

  /** Moving cells moves the slice. */
  lemma MoveAgrees(c: Code, start: nat, i: nat, end: nat, n: nat)
    requires IsSlice(c, start, i, end, n) && forall j :: start <= j <= i ==> CaptureOffset(c[j]) + n <= MAXOFF
    ensures 0 <= Pos(c, start) <= Pos(c, i) < Pos(c, i) + 1 == Pos(c, i + 1) < Pos(c, end + 1) <= |Encode(c)|
    ensures Encode(MoveSlice(c, start, i, end, n)) == CellMove(Encode(c), Pos(c, start), Pos(c, i), Pos(c, end + 1) - 1, n)
  {
    hide Pos, Flatten, Relocate, MoveSlice, CellMove, Delayable, IsMovable, IsSlice;
    SliceBounds(c, start, i, end, n);
    PosInside(c, start);
    PosInside(c, end + 1);
    SliceDelayable(c, start, i, end, n);
    MovedRelocate(c, start, i, end, n);
    PartPos(c, start, i, end);
    MovedCells(Relocate(c), start, i, end, n);
  }

  /** A jump that raises the limit. */
  lemma JumpStep(c: Code, i: nat, limit: nat, climit: int, m: Table)
    requires WF(c) && CodeFits(c) && IsTable(m) && i < |c| && SameLimit(c, limit, climit) && IsJmp(c[i]) && Dest(c, i) >= limit
    ensures 0 <= Pos(c, i) && 0 <= Pos(c, i + 1) && SameLimit(c, Dest(c, i) + 1, Pos(c, Dest(c, i)) + 1)
    ensures CellPass(Encode(c), Pos(c, i), climit, m) == CellPass(Encode(c), Pos(c, i + 1), Pos(c, Dest(c, i)) + 1, m)
  {
    hide Encode, Pos, CodeFits, IsTable, MovableCell, CellStep, CellOff, IsCheckCell;
    assert InstOk(c, i);
    EncodeSays(c, i, m);
    PosInside(c, i);
    LimitAgrees(c, limit, climit, Dest(c, i));
  }

  /** An instruction that is neither such a jump nor a capture before a check. */
  lemma PlainStep(c: Code, i: nat, limit: nat, climit: int, m: Table)
    requires WF(c) && CodeFits(c) && IsTable(m) && i < |c| && SameLimit(c, limit, climit)
    requires !(IsJmp(c[i]) && Dest(c, i) >= limit) && !AtBorder(c, i, limit)
    ensures 0 <= Pos(c, i) && 0 <= Pos(c, i + 1)
    ensures CellPass(Encode(c), Pos(c, i), climit, m) == CellPass(Encode(c), Pos(c, i + 1), climit, m)
  {
    hide Encode, Pos, CodeFits, IsTable, MovableCell, CellBorder, CellStep, CellOff, IsCheckCell;
    assert InstOk(c, i);
    EncodeSays(c, i, m);
    PosInside(c, i);
    PosInside(c, i + 1);
    LimitAgrees(c, limit, climit, i);
    if IsJmp(c[i]) { LimitAgrees(c, limit, climit, Dest(c, i)); }
    BorderSays(c, i, limit, climit, m);
  }

  /** A capture before a check is one in both. */
  lemma BorderSays(c: Code, i: nat, limit: nat, climit: int, m: Table)
    requires CodeFits(c) && IsTable(m) && i < |c| && SameLimit(c, limit, climit)
    ensures 0 <= Pos(c, i) && CellBorder(Encode(c), Pos(c, i), climit, m) == AtBorder(c, i, limit)
  {
    hide Encode, Pos, CodeFits, IsTable, MovableCell, IsCheckCell, SameLimit, IsCheck, Width;
    PosInside(c, i);
    PosInside(c, i + 1);
    EncodeLength(c);
    EncodeSays(c, i, m);
    LimitAgrees(c, limit, climit, i);
    if IsMovable(c[i]) { OneCell(c, i); }
    if i + 1 < |c| { CheckSays(c, i + 1, m); }
  }

  /** At a border both passes find the same group and the same checks. */
  lemma BorderFinds(c: Code, i: nat, limit: nat, climit: int, m: Table)
    requires CodeFits(c) && IsTable(m) && SameLimit(c, limit, climit) && AtBorder(c, i, limit) && !Misread(c, FindSlice(c, i, limit).start, m)
    ensures 0 <= Pos(c, i) < |Encode(c)| && Pos(c, i + 1) == Pos(c, i) + 1
    ensures var f := FindSlice(c, i, limit);
      var start := CellGroupStart(Encode(c), Pos(c, i), climit, m);
      start == Pos(c, f.start) && CellSkip(Encode(c), Pos(c, i) + 1, CellMaxOff(Encode(c), start, Pos(c, i))) == (Pos(c, i + f.checks + 1) - 1 - Pos(c, i), f.bytes)
  {
    hide Encode, Pos, CodeFits, IsTable, Misread, SameLimit, CellGroupStart, CellMaxOff, CellSkip, MaxOff, SkipChecks;
    var f := FindSlice(c, i, limit);
    GroupIsMovable(c, i, limit);
    OneCell(c, i);
    PosInside(c, i);
    MaxAgrees(c, f.start, i, m);
    GroupAgrees(c, i, limit, climit, m);
    SkipAgrees(c, i + 1, MaxOff(c, f.start, i), m);
  }

  /** The backward scan over cells goes at least as far as the one over instructions. */
  lemma {:induction false} GroupAtLeast(c: Code, i: nat, limit: int, climit: int, m: Table)
    requires CodeFits(c) && IsTable(m) && i < |c| && SameLimit(c, limit, climit)
    ensures 0 <= Pos(c, i) <= |Encode(c)| && CellGroupStart(Encode(c), Pos(c, i), climit, m) <= Pos(c, GroupStart(c, i, limit))
    decreases i
  {
    hide Pos, Encode, CellGroupStart, SameLimit, RawCell, CodeFits, IsTable, IsMovableCap, Misread;
    PosInside(c, i);
    if limit < i && i > 0 && IsMovableCap(c[i - 1]) {
      GroupGoesOn(c, i, limit, climit, m);
      GroupAtLeast(c, i - 1, limit, climit, m);
    }
  }

  lemma {:induction false} MaxGrows(p: Cells, s: nat, t: nat, i: nat)
    requires s <= t <= i < |p|
    ensures CellMaxOff(p, s, i) >= CellMaxOff(p, t, i)
    decreases t - s
  {
    if s < t { MaxGrows(p, s + 1, t, i); }
  }

  lemma OneCell(c: Code, i: nat)
    requires i < |c| && IsMovable(c[i])
    ensures Pos(c, i + 1) == Pos(c, i) + 1
  {
  }

  /** A border where the first check is too big to move anything across. */
  lemma ZeroStep(c: Code, i: nat, limit: nat, climit: int, m: Table)
    requires WF(c) && CodeFits(c) && IsTable(m) && SameLimit(c, limit, climit) && AtBorder(c, i, limit)
    requires FindSlice(c, i, limit).bytes == 0
    ensures 0 <= Pos(c, i) && 0 <= Pos(c, i + 1)
    ensures CellPass(Encode(c), Pos(c, i), climit, m) == CellPass(Encode(c), Pos(c, i + 1), climit, m)
  {
    hide Encode, Pos, WF, CodeFits, IsTable, SameLimit, CellGroupStart, CellMaxOff, CellSkip, CellBorder, IsJmpCell, CellPass, FindSlice;
    OneCell(c, i);
    PosInside(c, i);
    BorderSays(c, i, limit, climit, m);
    NoJump(c, i, m);
    ZeroSkip(c, i, limit, climit, m);
    StaysPut(Encode(c), Pos(c, i), climit, m);
  }

  lemma NoJump(c: Code, i: nat, m: Table)
    requires CodeFits(c) && IsTable(m) && i < |c| && IsMovableCap(c[i])
    ensures 0 <= Pos(c, i) < |Encode(c)| && !IsJmpCell(Encode(c)[Pos(c, i)])
  {
    EncodeSays(c, i, m);
  }

  lemma ZeroSkip(c: Code, i: nat, limit: nat, climit: int, m: Table)
    requires WF(c) && CodeFits(c) && IsTable(m) && SameLimit(c, limit, climit) && AtBorder(c, i, limit)
    requires FindSlice(c, i, limit).bytes == 0
    ensures 0 <= Pos(c, i) < |Encode(c)| && Pos(c, i + 1) == Pos(c, i) + 1
    ensures CellSkip(Encode(c), Pos(c, i) + 1, CellMaxOff(Encode(c), CellGroupStart(Encode(c), Pos(c, i), climit, m), Pos(c, i))) == (0, 0)
  {
    hide Encode, Pos, CodeFits, IsTable, SameLimit, CellGroupStart, CellMaxOff, MaxOff, SkipChecks, IsMovableCap, WF, IsCheckCell, CellStep, FindSlice;
    BigCheck(c, i, limit, m);
    OneCell(c, i);
    PosInside(c, i);
    MaxAtLeast(c, i, limit, climit, m);
  }

  lemma TooBig(c: Code, i: nat, up: nat)
    requires WF(c) && i < |c| && IsCheck(c[i]) && up <= MAXOFF && SkipChecks(c, i, up).1 == 0
    ensures OpStep(c[i]) > MAXOFF - up
  {
    assert InstOk(c, i);
  }

  lemma BigCheck(c: Code, i: nat, limit: nat, m: Table)
    requires WF(c) && CodeFits(c) && IsTable(m) && AtBorder(c, i, limit) && FindSlice(c, i, limit).bytes == 0
    ensures (forall j :: FindSlice(c, i, limit).start <= j <= i ==> IsMovableCap(c[j])) && 0 <= Pos(c, i + 1) < |Encode(c)|
    ensures CellStep(Encode(c)[Pos(c, i + 1)]) > MAXOFF - MaxOff(c, FindSlice(c, i, limit).start, i)
  {
    hide Encode, Pos, CodeFits, MaxOff, IsTable, CellStep, SkipChecks, WF;
    GroupIsMovable(c, i, limit);
    PosInside(c, i + 1);
    CheckSays(c, i + 1, m);
    TooBig(c, i + 1, MaxOff(c, FindSlice(c, i, limit).start, i));
  }

  lemma MaxAtLeast(c: Code, i: nat, limit: nat, climit: int, m: Table)
    requires CodeFits(c) && IsTable(m) && SameLimit(c, limit, climit) && AtBorder(c, i, limit)
    requires forall j :: FindSlice(c, i, limit).start <= j <= i ==> IsMovableCap(c[j])
    ensures 0 <= Pos(c, i) < |Encode(c)|
    ensures CellMaxOff(Encode(c), CellGroupStart(Encode(c), Pos(c, i), climit, m), Pos(c, i)) >= MaxOff(c, FindSlice(c, i, limit).start, i)
  {
    hide Encode, Pos, CodeFits, IsTable, SameLimit, CellGroupStart, CellMaxOff, MaxOff, SkipChecks;
    var start := FindSlice(c, i, limit).start;
    assert start == GroupStart(c, i, limit);
    MaxAgrees(c, start, i, m);
    GroupAtLeast(c, i, limit, climit, m);
    MaxGrows(Encode(c), CellGroupStart(Encode(c), Pos(c, i), climit, m), Pos(c, start), Pos(c, i));
  }

  /** A border where a group is moved. */
  lemma MoveStep(c: Code, i: nat, limit: nat, climit: int, m: Table)
    requires WF(c) && CodeFits(c) && IsTable(m) && JumpsBelow(c, i, limit) && AtBorder(c, i, limit) && SameLimit(c, limit, climit)
    requires FindSlice(c, i, limit).bytes > 0 && !Misread(c, FindSlice(c, i, limit).start, m) && TestsClearFrom(c, i, limit)
    ensures var d := MoveFound(c, i, limit); var next := i + FindSlice(c, i, limit).checks + 1;
      && 0 <= Pos(c, i) && next <= |d| == |c| && 0 <= Pos(d, next) && SameLimit(d, limit, climit)
      && CellPass(Encode(c), Pos(c, i), climit, m) == CellPass(Encode(d), Pos(d, next), climit, m)
  {
    hide Encode, Pos, WF, CodeFits, IsTable, SameLimit, CellGroupStart, CellMaxOff, CellSkip, CellBorder, IsJmpCell, MoveSlice, FindSlice, AtBorder, IsSlice, CellMove, TestsClearFrom;
    var f := FindSlice(c, i, limit);
    SliceFound(c, i, limit);
    BorderFinds(c, i, limit, climit, m);
    BorderSays(c, i, limit, climit, m);
    NoJump(c, i, m);
    MoveAgrees(c, f.start, i, i + f.checks, f.bytes);
    LimitMoved(c, f.start, i, i + f.checks, f.bytes, limit, climit);
    PosInside(c, i);
  }

  lemma SliceFound(c: Code, i: nat, limit: nat)
    requires WF(c) && JumpsBelow(c, i, limit) && AtBorder(c, i, limit) && FindSlice(c, i, limit).bytes > 0 && TestsClearFrom(c, i, limit)
    ensures var f := FindSlice(c, i, limit);
      && IsSlice(c, f.start, i, i + f.checks, f.bytes) && f.start <= i < i + f.checks < |c| && limit <= f.start && IsMovableCap(c[i])
      && (forall j :: f.start <= j <= i ==> CaptureOffset(c[j]) + f.bytes <= MAXOFF) && (forall j :: f.start <= j <= i ==> IsMovable(c[j]))
      && MoveFound(c, i, limit) == MoveSlice(c, f.start, i, i + f.checks, f.bytes)
  {
    FoundSlice(c, i, limit);
  }

  lemma LimitMoved(c: Code, start: nat, i: nat, end: nat, n: nat, limit: nat, climit: int)
    requires IsSlice(c, start, i, end, n) && limit <= start && SameLimit(c, limit, climit) && start <= i < end < |c| && forall j :: start <= j <= i ==> IsMovable(c[j])
    ensures var d := MoveSlice(c, start, i, end, n); SameLimit(d, limit, climit) && Pos(d, end + 1) == Pos(c, end + 1) >= 0
  {
    hide Pos, MoveSlice, IsSlice, IsMovable;
    MovedPos(c, start, i, end, n, end + 1);
    MovedPos(c, start, i, end, n, limit - 1);
    PosInside(c, end + 1);
  }

  lemma MovedFits(c: Code, i: nat, limit: nat)
    requires WF(c) && CodeFits(c) && JumpsBelow(c, i, limit) && AtBorder(c, i, limit) && FindSlice(c, i, limit).bytes > 0 && TestsClearFrom(c, i, limit)
    ensures CodeFits(MoveFound(c, i, limit)) && WF(MoveFound(c, i, limit)) && i + FindSlice(c, i, limit).checks + 1 <= |c| == |MoveFound(c, i, limit)|
  {
    hide WF, FindSlice, AtBorder, MoveSlice, TestsClearFrom;
    SliceFound(c, i, limit);
    MoveFoundKeeps(c, i, limit);
    var f, d := FindSlice(c, i, limit), MoveFound(c, i, limit);
    forall j | 0 <= j < |d| ensures InstFits(d[j]) {
      MoveSliceAt(c, f.start, i, i + f.checks, f.bytes, j);
      if j < f.start || i + f.checks < j { assert InstFits(c[j]); }
      else if j < f.start + f.checks { assert InstFits(c[j + (i + 1 - f.start)]); }
      else { assert InstFits(c[j - f.checks]) && IsMovable(c[j - f.checks]); }
    }
  }

  // ---------- a misread charset ----------

  lemma {:induction false} GroupAbove(p: Cells, i: nat, limit: int, m: Table, x: nat)
    requires x < i <= |p| && !MovableCell(p[x], m)
    ensures CellGroupStart(p, i, limit, m) > x
    decreases i
  {
    if limit < i && MovableCell(p[i - 1], m) { GroupAbove(p, i - 1, limit, m, x); }
  }

  /** The pass does not come back behind a cell that is no capture. */
  lemma CellMoveBefore(p: Cells, start: nat, i: nat, end: nat, n: nat, x: nat)
    requires x < start <= i <= end < |p|
    ensures CellMove(p, start, i, end, n)[x] == p[x]
  {
    hide CellDelay;
  }

  lemma {:induction false} CellPassKeeps(p: Cells, i: nat, limit: int, m: Table, x: nat, y: nat)
    requires y <= x < i && x < |p| && !MovableCell(p[x], m)
    ensures CellPass(p, i, limit, m)[y] == p[y]
    decreases |p| - i
  {
    hide MovableCell, CellSkip, IsJmpCell, CellMaxOff, CellWidth, CellMove;
    if i < |p| {
      if IsJmpCell(p[i]) && i + p[i].offset >= limit {
        CellPassKeeps(p, i + CellWidthOf(p[i]), i + p[i].offset + 1, m, x, y);
      } else if CellBorder(p, i, limit, m) {
        var start := CellGroupStart(p, i, limit, m);
        GroupAbove(p, i, limit, m, x);
        var (k, n) := CellSkip(p, i + 1, CellMaxOff(p, start, i));
        if n == 0 || i + k >= |p| {
          CellPassKeeps(p, i + 1, limit, m, x, y);
        } else {
          var d := CellMove(p, start, i, i + k, n);
          CellMoveBefore(p, start, i, i + k, n, x);
          CellMoveBefore(p, start, i, i + k, n, y);
          CellPassKeeps(d, i + k + 1, limit, m, x, y);
        }
      } else {
        CellPassKeeps(p, i + CellWidthOf(p[i]), limit, m, x, y);
      }
    }
  }

  function CellWidthOf(p: Cell): (w: nat)
    ensures w == CellWidth(p) >= 1
  {
    CellWidth(p)
  }

  lemma {:induction false} GroupStartAbove(c: Code, i: nat, limit: int, x: nat)
    requires x < i < |c| && !IsMovable(c[x])
    ensures GroupStart(c, i, limit) > x
    decreases i
  {
    if limit < i && IsMovableCap(c[i - 1]) { GroupStartAbove(c, i - 1, limit, x); }
  }

  lemma {:induction false} OptimizeKeeps(c: Code, i: nat, limit: int, x: nat, y: nat)
    requires y <= x < i && x < |c| && !IsMovable(c[x])
    ensures OptimizeCapturesFrom(c, i, limit)[y] == c[y]
    decreases |c| - i
  {
    hide IsMovable, IsMovableCap, IsCheck, IsJmp, FindSlice, MoveSlice;
    if i < |c| {
      if IsJmp(c[i]) && Dest(c, i) >= limit {
        OptimizeKeeps(c, i + 1, Dest(c, i) + 1, x, y);
      } else if AtBorder(c, i, limit) {
        var f := FindSlice(c, i, limit);
        if f.bytes == 0 {
          OptimizeKeeps(c, i + 1, limit, x, y);
        } else {
          SliceKeepsBefore(c, i, limit, x, y);
          OptimizeKeeps(MoveSlice(c, f.start, i, i + f.checks, f.bytes), i + f.checks + 1, limit, x, y);
        }
      } else {
        OptimizeKeeps(c, i + 1, limit, x, y);
      }
    }
  }

  lemma SliceKeepsBefore(c: Code, i: nat, limit: int, x: nat, y: nat)
    requires AtBorder(c, i, limit) && y <= x < i && !IsMovable(c[x])
    ensures var f := FindSlice(c, i, limit);
      var d := MoveSlice(c, f.start, i, i + f.checks, f.bytes); x < |d| && d[x] == c[x] && d[y] == c[y]
  {
    hide SkipChecks, MaxOff;
    GroupStartAbove(c, i, limit, x);
    var f := FindSlice(c, i, limit);
    MoveSliceIndex(c, f.start, i, i + f.checks, f.bytes, x);
    MoveSliceIndex(c, f.start, i, i + f.checks, f.bytes, y);
  }

  /** The cells of an instruction behind a common beginning of two codes. */
  lemma SameRaw(c: Code, e: Code, k: nat, s: int)
    requires k < |c| == |e| && e[..k + 1] == c[..k + 1] && HasCharset(c[k]) && Pos(c, k) < s < Pos(c, k + 1)
    ensures 0 <= s < |Encode(c)| && s < |Encode(e)| && Encode(e)[s] == Encode(c)[s]
  {
    hide Flatten, Pos, RawCell, Encode, Header;
    forall j | 0 <= j <= k ensures c[j] == e[j] { assert c[..k + 1][j] == e[..k + 1][j]; }
    PosUntil(c, e, k);
    PosUntil(c, e, k + 1);
    RawAt(c, k, s);
    RawAt(e, k, s);
  }

  lemma RawAt(c: Code, k: nat, s: int)
    requires k < |c| && HasCharset(c[k]) && Pos(c, k) < s < Pos(c, k + 1)
    ensures 0 <= s < |Encode(c)| && 0 <= s - Pos(c, k) - 1 < RAWCELLS && Encode(c)[s] == RawCell(c[k].cs, s - Pos(c, k) - 1)
  {
    hide Flatten, Pos, RawCell;
    var r := Relocate(c);
    CellsAt(r, k);
    RelocatePos(c, k);
    RelocatePos(c, k + 1);
    RelocateAt(c, k);
    var t := s - Pos(c, k);
    assert Flatten(r)[s] == Flatten(r)[Pos(r, k)..Pos(r, k + 1)][t];
    assert InstCells(r[k])[t] == RawCells(r[k].cs)[t - 1];
  }

  /** At a misread charset the scan takes at least one of its cells into the group, but not its first one. */
  lemma MisreadGroup(c: Code, i: nat, limit: nat, climit: int, m: Table)
    requires CodeFits(c) && IsTable(m) && i < |c| && SameLimit(c, limit, climit) && limit <= i
    requires Misread(c, GroupStart(c, i, limit), m)
    ensures var start := GroupStart(c, i, limit);
      && 0 <= Pos(c, i) <= |Encode(c)| && start > 0
      && Pos(c, start - 1) < CellGroupStart(Encode(c), Pos(c, i), climit, m) < Pos(c, start)
  {
    hide Pos, Encode, SameLimit, RawCell, CodeFits, IsTable, MovableCell;
    var start := GroupStart(c, i, limit);
    ScanToStart(c, i, limit, climit, m);
    LimitAgrees(c, limit, climit, start);
    EncodeBefore(c, start, m);
    PosInside(c, start);
    PosInside(c, i);
    assert CellGroupStart(Encode(c), Pos(c, start), climit, m) == CellGroupStart(Encode(c), Pos(c, start) - 1, climit, m);
    CharsetHeader(c, start - 1, m);
    GroupAbove(Encode(c), Pos(c, start), climit, m, Pos(c, start - 1));
  }

  lemma CharsetHeader(c: Code, k: nat, m: Table)
    requires CodeFits(c) && IsTable(m) && k < |c| && HasCharset(c[k])
    ensures 0 <= Pos(c, k) < Pos(c, k + 1) <= |Encode(c)| && !MovableCell(Encode(c)[Pos(c, k)], m)
  {
    EncodeSays(c, k, m);
  }

  /** The scan over cells comes by the start of the group of instructions. */
  lemma {:induction false} ScanToStart(c: Code, i: nat, limit: int, climit: int, m: Table)
    requires CodeFits(c) && IsTable(m) && i < |c| && SameLimit(c, limit, climit)
    ensures 0 <= Pos(c, i) <= |Encode(c)| && 0 <= Pos(c, GroupStart(c, i, limit)) <= |Encode(c)|
    ensures CellGroupStart(Encode(c), Pos(c, i), climit, m) == CellGroupStart(Encode(c), Pos(c, GroupStart(c, i, limit)), climit, m)
    decreases i
  {
    hide Pos, Encode, CellGroupStart, SameLimit, RawCell, CodeFits, IsTable, IsMovableCap, Misread;
    PosInside(c, i);
    if limit < i && i > 0 && IsMovableCap(c[i - 1]) {
      GroupGoesOn(c, i, limit, climit, m);
      ScanToStart(c, i - 1, limit, climit, m);
    }
  }

  lemma {:induction false} GroupCells(p: Cells, i: nat, limit: int, m: Table, s: nat)
    requires s < i <= |p| && CellGroupStart(p, i, limit, m) <= s
    ensures MovableCell(p[s], m)
    decreases i
  {
    if s < i - 1 { GroupCells(p, i - 1, limit, m, s); }
  }

  /** The code after a move starts as before, up to the first check, which is where the group was. */
  lemma MovedStart(c: Code, i: nat, limit: nat)
    requires AtBorder(c, i, limit) && FindSlice(c, i, limit).bytes > 0
    ensures var f, e := FindSlice(c, i, limit), OptimizeCapturesFrom(c, i, limit);
      IsJmp(c[i]) || (e[..f.start] == c[..f.start] && e[f.start] == c[i + 1])
  {
    hide SkipChecks, MaxOff, AtBorder, FindSlice, MoveSlice;
    if !IsJmp(c[i]) {
      var f := FindSlice(c, i, limit);
      var d := MoveSlice(c, f.start, i, i + f.checks, f.bytes);
      BorderFacts(c, i, limit);
      MoveSliceIndex(c, f.start, i, i + f.checks, f.bytes, f.start);
      forall y | 0 <= y <= f.start ensures OptimizeCapturesFrom(c, i, limit)[y] == d[y] && (y < f.start ==> d[y] == c[y]) {
        OptimizeKeeps(d, i + f.checks + 1, limit, f.start, y);
        MoveSliceIndex(c, f.start, i, i + f.checks, f.bytes, y);
      }
    }
  }

  lemma BorderFacts(c: Code, i: nat, limit: nat)
    requires AtBorder(c, i, limit) && FindSlice(c, i, limit).bytes > 0
    ensures var f := FindSlice(c, i, limit);
      && limit <= i && i + 1 < |c| && IsMovableCap(c[i]) && IsCheck(c[i + 1]) && f.start == GroupStart(c, i, limit) && f.checks > 0 && !IsJmp(c[i])
      && f.start <= i && i + f.checks < |c| && (forall j :: f.start <= j <= i ==> IsMovable(c[j]))
  {
    hide GroupStart, MaxOff, SkipChecks;
    GroupIsMovable(c, i, limit);
    NothingSkipped(c, i + 1, MaxOff(c, GroupStart(c, i, limit), i));
  }

  lemma CheckHeader(c: Code, k: nat)
    requires k < |c| && IsCheck(c[k])
    ensures 0 <= Pos(c, k) < |Encode(c)| && Encode(c)[Pos(c, k)].code <= ISET
  {
    CellsAt(Relocate(c), k);
    RelocatePos(c, k);
    RelocatePos(c, k + 1);
    RelocateAt(c, k);
  }

  /** Somewhere the two hold different opcodes. */
  ghost predicate CodesDiffer(p: Cells, q: Cells) { exists k :: 0 <= k < |p| && k < |q| && p[k].code != q[k].code }

  /** If a charset is misread the pass over cells does not give the cells of the code. */
  lemma MisreadDiffers(c: Code, i: nat, limit: nat, climit: int, m: Table)
    requires CodeFits(c) && IsTable(m) && AtBorder(c, i, limit) && SameLimit(c, limit, climit)
    requires FindSlice(c, i, limit).bytes > 0 && Misread(c, FindSlice(c, i, limit).start, m)
    ensures 0 <= Pos(c, i) && CodesDiffer(CellPass(Encode(c), Pos(c, i), climit, m), Encode(OptimizeCapturesFrom(c, i, limit)))
  {
    hide Pos, Encode, SameLimit, RawCell, CodeFits, AtBorder, FindSlice, CellGroupStart, CellSkip, CellMaxOff, CellBorder, IsJmpCell, IsMovableCap, IsCheck, GroupStart, OptimizeCapturesFrom, CellPass, CellMove, IsMovable;
    BorderFacts(c, i, limit);
    var p, q, e, start := Encode(c), Pos(c, i), OptimizeCapturesFrom(c, i, limit), FindSlice(c, i, limit).start;
    MovedStart(c, i, limit);
    MisreadGroup(c, i, limit, climit, m);
    BorderSays(c, i, limit, climit, m);
    NoJump(c, i, m);
    OneCell(c, i);
    CheckHeader(c, i + 1);
    PosInside(c, start);
    PosUp(c, start, i);
    var s := CellGroupStart(p, q, climit, m);
    SameRaw(c, e, start - 1, s);
    GroupCells(p, q, climit, m, s);
    if CellMoves(p, q, climit, m) {
      FirstMoved(p, q, climit, m);
    } else {
      StaysPut(p, q, climit, m);
      NotMoved(c, i, limit, climit, m);
    }
  }

  /** Is there something to move at a border? */
  predicate CellMoves(p: Cells, i: nat, limit: int, m: Table)
    requires i < |p|
  {
    var start := CellGroupStart(p, i, limit, m);
    var (k, n) := CellSkip(p, i + 1, CellMaxOff(p, start, i));
    n > 0 && i + k < |p|
  }

  lemma StaysPut(p: Cells, i: nat, limit: int, m: Table)
    requires i < |p| && CellBorder(p, i, limit, m) && !IsJmpCell(p[i]) && !CellMoves(p, i, limit, m)
    ensures CellPass(p, i, limit, m) == CellPass(p, i + 1, limit, m)
  {
  }

  /** Where the group was the first check is now. */
  lemma CellMoveFirst(p: Cells, start: nat, i: nat, end: nat, n: nat)
    requires start <= i < end < |p|
    ensures CellMove(p, start, i, end, n)[start] == p[i + 1]
  {
    hide CellDelay;
  }

  lemma FirstMoved(p: Cells, i: nat, limit: int, m: Table)
    requires i < |p| && CellBorder(p, i, limit, m) && !IsJmpCell(p[i]) && CellMoves(p, i, limit, m) && IsTable(m) && p[i + 1].code <= ISET
    ensures var s := CellGroupStart(p, i, limit, m); CellPass(p, i, limit, m)[s].code == p[i + 1].code && !m(p[i + 1].code)
  {
    hide CellSkip, CellMaxOff, CellGroupStart, IsJmpCell, CellMove;
    var s := CellGroupStart(p, i, limit, m);
    var (k, n) := CellSkip(p, i + 1, CellMaxOff(p, s, i));
    var d := CellMove(p, s, i, i + k, n);
    SkipSome(p, i + 1, CellMaxOff(p, s, i));
    CellMoveFirst(p, s, i, i + k, n);
    CellPassKeeps(d, i + k + 1, limit, m, s, s);
  }

  lemma SkipSome(p: Cells, i: nat, up: nat)
    ensures CellSkip(p, i, up).1 > 0 ==> CellSkip(p, i, up).0 > 0
  {
  }

  lemma CodeSays(c: Code, i: nat, m: Table)
    requires CodeFits(c) && IsTable(m) && i < |c|
    ensures 0 <= Pos(c, i) < |Encode(c)| && m(Encode(c)[Pos(c, i)].code) == IsMovable(c[i]) && IsJmpCell(Encode(c)[Pos(c, i)]) == IsJmp(c[i])
  {
    hide Encode, Pos, CodeFits, IsTable;
    EncodeSays(c, i, m);
  }

  /** Nothing is moved over cells, but something over instructions. */
  lemma PassGoesOn(p: Cells, i: nat, limit: int, m: Table)
    requires i < |p| && !IsJmpCell(p[i]) && !MovableCell(p[i], m)
    ensures CellPass(p, i, limit, m) == CellPass(p, i + CellWidthOf(p[i]), limit, m)
  {
  }

  lemma NotMoved(c: Code, i: nat, limit: nat, climit: int, m: Table)
    requires CodeFits(c) && IsTable(m) && AtBorder(c, i, limit) && SameLimit(c, limit, climit) && FindSlice(c, i, limit).bytes > 0
    requires 0 <= Pos(c, i) < |Encode(c)|
    requires CellPass(Encode(c), Pos(c, i), climit, m) == CellPass(Encode(c), Pos(c, i) + 1, climit, m)
    ensures CodesDiffer(CellPass(Encode(c), Pos(c, i), climit, m), Encode(OptimizeCapturesFrom(c, i, limit)))
  {
    hide Pos, Encode, SameLimit, RawCell, CodeFits, AtBorder, FindSlice, CellPass, CellGroupStart, CellSkip, CellMaxOff, OptimizeCapturesFrom, IsMovableCap, IsJmpCell;
    var p, q, e, start := Encode(c), Pos(c, i), OptimizeCapturesFrom(c, i, limit), FindSlice(c, i, limit).start;
    BorderFacts(c, i, limit);
    MovedStart(c, i, limit);
    OneCell(c, i);
    PosUp(c, start, i);
    PosInside(c, start);
    CodeSays(c, start, m);
    CodeSays(c, i + 1, m);
    CheckHeader(e, start);
    assert forall j :: 0 <= j < start ==> c[j] == c[..start][j] == e[..start][j] == e[j];
    PosUntil(c, e, start);
    CheckHeader(c, i + 1);
    PassGoesOn(p, q + 1, climit, m);
    CellPassKeeps(p, q + 1 + CellWidthOf(p[q + 1]), climit, m, q + 1, Pos(c, start));
  }

  lemma PassEnds(c: Code, climit: int, m: Table)
    ensures 0 <= Pos(c, |c|) && CellPass(Encode(c), Pos(c, |c|), climit, m) == Encode(c)
  {
    hide Encode, Pos;
    PosInside(c, |c|);
    EncodeLength(c);
  }

  /** What is left of the pass agrees exactly if no charset is misread in it. */
  lemma {:induction false} PassExact(c: Code, i: nat, limit: nat, climit: int, m: Table)
    requires WF(c) && CodeFits(c) && IsTable(m) && i <= |c| && JumpsBelow(c, i, limit) && TestsClearFrom(c, i, limit) && SameLimit(c, limit, climit)
    ensures 0 <= Pos(c, i)
    ensures var p, q := CellPass(Encode(c), Pos(c, i), climit, m), Encode(OptimizeCapturesFrom(c, i, limit));
      if RawClearFrom(c, i, limit, m) then p == q else CodesDiffer(p, q)
    decreases |c| - i
  {
    hide WF, CodeFits, IsTable, SameLimit, Encode, Pos, AtBorder, FindSlice, MoveSlice, Misread, KeepsAll, CodesDiffer, CellPass, IsJmp;
    PosInside(c, i);
    if i == |c| {
      PassEnds(c, climit, m);
    } else if IsJmp(c[i]) && Dest(c, i) >= limit {
      JumpStep(c, i, limit, climit, m);
      PassExact(c, i + 1, Dest(c, i) + 1, Pos(c, Dest(c, i)) + 1, m);
    } else if !AtBorder(c, i, limit) {
      PlainStep(c, i, limit, climit, m);
      PassExact(c, i + 1, limit, climit, m);
    } else if FindSlice(c, i, limit).bytes == 0 {
      ZeroStep(c, i, limit, climit, m);
      PassExact(c, i + 1, limit, climit, m);
    } else if Misread(c, FindSlice(c, i, limit).start, m) {
      MisreadDiffers(c, i, limit, climit, m);
    } else {
      MoveStep(c, i, limit, climit, m);
      MoveFoundKeeps(c, i, limit);
      MovedFits(c, i, limit);
      PassExact(MoveFound(c, i, limit), i + FindSlice(c, i, limit).checks + 1, limit, climit, m);
    }
  }

  /** The pass over cells gives the cells of the code with its captures moved exactly if no charset
      that looks like a capture at its end stands right before a group that is moved. */
  lemma CellCapturesExact(c: Code, m: Table)
    requires WF(c) && CodeFits(c) && IsTable(m) && TestsClear(c)
    ensures CellOptimizeCaptures(Encode(c), m) == Encode(OptimizeCaptures(c)) <==> RawClear(c, m)
    ensures !RawClear(c, m) ==> CodesDiffer(CellOptimizeCaptures(Encode(c), m), Encode(OptimizeCaptures(c)))
  {
    PassExact(c, 0, 0, 0, m);
  }
}
