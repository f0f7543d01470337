/** The code that each LPeg combinator emits, with its peephole rewrites. */
module LpegCombinators {
  import opened LpegMachine

  const AllBytes: set<Byte> := set b: Byte | 0 <= b < 256

  predicate HasTarget(i: Inst) { IsJmp(i) || IsTest(i) }

  function Dest(c: Code, i: nat): int
    requires i < |c| && (IsJmp(c[i]) || IsCheckOp(c[i]))
  {
    i + c[i].offset
  }

  // ---------- recognizing codes ----------

  predicate IsFail(c: Code) { c != [] && c[0].Fail? }

  predicate IsSucc(c: Code) { c == [] }

  /** As in the source, the offset of the instruction is not looked at. */
  predicate IsAnyCode(c: Code) { |c| == 1 && c[0].Any? }

  predicate StartsWithCheck(c: Code) { c != [] && IsCheck(c[0]) }

  predicate AllNoFail(c: Code) { forall i :: 0 <= i < |c| ==> IsNoFail(c[i]) }

  /** A pattern that can only fail in its first instruction, a check. */
  predicate IsHeadFail(c: Code) { StartsWithCheck(c) && AllNoFail(c[1..]) }

  datatype CharsetTag = NoInfo | IsCharset(cs: set<Byte>) | ValidStarts(cs: set<Byte>)

  function FillCharset(i: Inst): set<Byte> {
    match i
    case Set(cs, _) => cs
    case Char(c, _) => {c}
    case _ => AllBytes
  }

  function ToCharset(c: Code): CharsetTag {
    if StartsWithCheck(c) then
      if |c| == 1 && OpStep(c[0]) == 1 then IsCharset(FillCharset(c[0])) else ValidStarts(FillCharset(c[0]))
    else NoInfo
  }

  predicate Exclusive(t1: CharsetTag, t2: CharsetTag) { !t1.NoInfo? && !t2.NoInfo? && t1.cs !! t2.cs }

  // ---------- moving captures over checks ----------

  function CaptureOffset(i: Inst): nat {
    if i.FullCapture? || IsMovable(i) then i.off else 0
  }

  predicate IsMovableCap(i: Inst) { IsMovable(i) && i.off < MAXOFF }

  /** Number of checks from index i on that fit in MAXOFF - up bytes, and how many bytes they take. */
  function SkipChecks(c: Code, i: nat, up: nat): (r: (nat, nat))
    requires up <= MAXOFF
    decreases |c| - i
  {
    if i < |c| && IsCheck(c[i]) && OpStep(c[i]) <= MAXOFF - up then
      var (m, n) := SkipChecks(c, i + 1, up + OpStep(c[i]));
      (m + 1, n + OpStep(c[i]))
    else (0, 0)
  }

  /** First capture of the movable group that ends at index i, not below limit. */
  function GroupStart(c: Code, i: nat, limit: int): (start: nat)
    requires i < |c|
    ensures start <= i && (limit <= i ==> limit <= start)
    decreases i
  {
    if limit < i && i > 0 && IsMovableCap(c[i - 1]) then GroupStart(c, i - 1, limit) else i
  }

  function MaxOff(c: Code, start: nat, i: nat): nat
    requires start <= i < |c|
    requires forall j :: start <= j <= i ==> IsMovableCap(c[j])
    ensures forall j :: start <= j <= i ==> CaptureOffset(c[j]) <= MaxOff(c, start, i)
    ensures MaxOff(c, start, i) < MAXOFF
    decreases i - start
  {
    assert IsMovableCap(c[start]);
    if start == i then CaptureOffset(c[i])
    else
      var m := MaxOff(c, start + 1, i);
      if CaptureOffset(c[start]) > m then CaptureOffset(c[start]) else m
  }

  function Delayed(i: Inst, n: nat): Inst
    requires IsMovable(i)
  {
    i.(off := i.off + n)
  }

  function DelayAll(caps: Code, n: nat): (r: Code)
    requires forall j :: 0 <= j < |caps| ==> IsMovable(caps[j])
    ensures |r| == |caps|
    ensures forall j :: 0 <= j < |caps| ==> r[j] == Delayed(caps[j], n)
  {
    if caps == [] then [] else [Delayed(caps[0], n)] + DelayAll(caps[1..], n)
  }

  lemma {:induction false} GroupIsMovable(c: Code, i: nat, limit: int)
    requires i < |c| && IsMovableCap(c[i])
    ensures forall j :: GroupStart(c, i, limit) <= j <= i ==> IsMovableCap(c[j])
    decreases i
  {
    if limit < i && i > 0 && IsMovableCap(c[i - 1]) {
      GroupIsMovable(c, i - 1, limit);
    }
  }

  /** The captures at start..i change places with the checks at i+1..end, which consume n bytes. */
  function MoveSlice(c: Code, start: nat, i: nat, end: nat, n: nat): (r: Code)
    requires start <= i <= end < |c|
    requires forall j :: start <= j <= i ==> IsMovable(c[j])
    ensures |r| == |c|
  {
    c[..start] + c[i + 1..end + 1] + DelayAll(c[start..i + 1], n) + c[end + 1..]
  }

  lemma {:induction false} SkipChecksBounds(c: Code, i: nat, up: nat)
    requires up <= MAXOFF
    ensures i + SkipChecks(c, i, up).0 <= |c| || SkipChecks(c, i, up).0 == 0
    ensures SkipChecks(c, i, up).1 <= MAXOFF - up
    ensures forall j :: i <= j < i + SkipChecks(c, i, up).0 && j < |c| ==> IsCheck(c[j])
    decreases |c| - i
  {
    if i < |c| && IsCheck(c[i]) && OpStep(c[i]) <= MAXOFF - up {
      SkipChecksBounds(c, i + 1, up + OpStep(c[i]));
    }
  }

  /** Does the pass have a capture to move at index i? */
  predicate AtBorder(c: Code, i: nat, limit: int) {
    i >= limit && i + 1 < |c| && IsMovableCap(c[i]) && IsCheck(c[i + 1])
  }

  /** The group of captures that ends at i starts at `start`; `checks` checks can follow them
      to the left, and they consume `bytes` bytes. */
  datatype Slice = Slice(start: nat, checks: nat, bytes: nat)

  function FindSlice(c: Code, i: nat, limit: int): (r: Slice)
    requires AtBorder(c, i, limit)
    ensures r.start <= i && i + r.checks < |c| && (limit <= i ==> limit <= r.start)
    ensures forall j :: r.start <= j <= i ==> IsMovable(c[j])
  {
    GroupIsMovable(c, i, limit);
    var start := GroupStart(c, i, limit);
    assert forall j :: start <= j <= i ==> IsMovableCap(c[j]) && IsMovable(c[j]);
    var (m, n) := SkipChecks(c, i + 1, MaxOff(c, start, i));
    SkipChecksBounds(c, i + 1, MaxOff(c, start, i));
    Slice(start, m, n)
  }

  /** The pass of optimizecaptures from index i on; captures at or below a jump target (below
      limit) stay where they are. */
  function OptimizeCapturesFrom(c: Code, i: nat, limit: int): (r: Code)
    ensures |r| == |c|
    decreases |c| - i
  {
    if i >= |c| then c
    else if IsJmp(c[i]) && Dest(c, i) >= limit then OptimizeCapturesFrom(c, i + 1, Dest(c, i) + 1)
    else if AtBorder(c, i, limit) then
      var f := FindSlice(c, i, limit);
      if f.bytes == 0 then OptimizeCapturesFrom(c, i + 1, limit)
      else OptimizeCapturesFrom(MoveSlice(c, f.start, i, i + f.checks, f.bytes), i + f.checks + 1, limit)
    else OptimizeCapturesFrom(c, i + 1, limit)
  }

  function OptimizeCaptures(c: Code): (r: Code)
    ensures |r| == |c|
  {
    OptimizeCapturesFrom(c, 0, 0)
  }

  // ---------- jumps to jumps ----------

  /** Where a jump to index i ends up; a jump that goes back is taken to lead to no other jump. */
  function Target(c: Code, i: int): int
    decreases |c| - i
  {
    if 0 <= i < |c| && c[i].Jmp? then
      if c[i].offset > 0 then Target(c, i + c[i].offset) else i + c[i].offset
    else i
  }

  function SetOffset(i: Inst, o: int): (r: Inst)
    requires IsJmp(i) || IsCheckOp(i)
    ensures (IsJmp(r) || IsCheckOp(r)) && r.offset == o
    ensures IsJmp(r) == IsJmp(i) && IsCheckOp(r) == IsCheckOp(i)
  {
    match i
    case Any(n, _) => Any(n, o)
    case Char(c, _) => Char(c, o)
    case Set(cs, _) => Set(cs, o)
    case Choice(_, aux) => Choice(o, aux)
    case Jmp(_) => Jmp(o)
    case Commit(_) => Commit(o)
    case PartialCommit(_) => PartialCommit(o)
    case BackCommit(_) => BackCommit(o)
  }

  /** Send the jump at i straight to the end of its chain of jumps. */
  function Retarget(c: Code, i: nat): (r: Code)
    requires i < |c| && IsJmp(c[i])
    ensures |r| == |c|
  {
    c[i := SetOffset(c[i], Target(c, Dest(c, i)) - i)]
  }

  function OptimizeJumpsFrom(c: Code, i: nat): (r: Code)
    ensures |r| == |c|
    decreases |c| - i
  {
    if i >= |c| then c
    else if IsJmp(c[i]) then OptimizeJumpsFrom(Retarget(c, i), i + 1)
    else OptimizeJumpsFrom(c, i + 1)
  }

  function OptimizeJumps(c: Code): (r: Code)
    ensures |r| == |c|
  {
    OptimizeJumpsFrom(c, 0)
  }

  // ---------- a choice before a check ----------

  /** A choice whose first alternative starts with a check becomes a test and then the choice. */
  function OptimizeChoice(c: Code): (r: Code)
    requires c != [] && c[0].Choice?
    ensures |r| == |c|
  {
    if |c| > 1 && IsCheck(c[1]) then
      [SetOffset(c[1], c[0].offset), Choice(c[0].offset - 1, OpStep(c[1]))] + c[2..]
    else c
  }

  function CheckToTest(c: Code, n: int): (r: Code)
    requires StartsWithCheck(c)
    ensures |r| == |c|
  {
    [SetOffset(c[0], n)] + c[1..]
  }

  // ---------- the combinators ----------

  function LiteralCode(text: seq<Byte>): (r: Code)
    ensures |r| == |text|
  {
    if text == [] then [] else [Char(text[0], 0)] + LiteralCode(text[1..])
  }

  function AnyCode(n: nat): Code {
    if n > UCHAR_MAX then [Any(UCHAR_MAX, 0)] + AnyCode(n - UCHAR_MAX) else [Any(n, 0)]
  }

  function NotAnyCode(n: nat): Code
    requires n > 0
  {
    if n <= UCHAR_MAX then [Any(n, 2), Fail]
    else
      var k := AnyCode(n - UCHAR_MAX);
      [Any(UCHAR_MAX, |k| + 3), Choice(|k| + 2, UCHAR_MAX)] + k + [FailTwice]
  }

  function ConcatCode(c1: Code, c2: Code): Code {
    if IsFail(c1) || IsSucc(c2) then c1
    else if IsFail(c2) || IsSucc(c1) then c2
    else if IsAnyCode(c1) && IsAnyCode(c2) then AnyCode(c1[0].n + c2[0].n)
    else OptimizeCaptures(c1 + c2)
  }

  function DiffCode(c1: Code, c2: Code): Code {
    var t1, t2 := ToCharset(c1), ToCharset(c2);
    if t1.IsCharset? && t2.IsCharset? then [Set(t1.cs - t2.cs, 0)]
    else if IsHeadFail(c2) then CheckToTest(c2, |c2| + 1) + [Fail] + c1
    else OptimizeChoice([Choice(|c2| + 2, 0)] + c2 + [FailTwice] + c1)
  }

  function NotCode(c: Code): Code {
    if IsFail(c) then [] else if IsSucc(c) then [Fail] else DiffCode([], c)
  }

  function AndCode(c: Code): Code {
    if IsFail(c) || IsSucc(c) then c
    else if ToCharset(c).IsCharset? then [Set(AllBytes - ToCharset(c).cs, 2), Fail]
    else [Choice(|c| + 2, 0)] + c + [BackCommit(2), Fail]
  }

  /** Length of the first alternative of an ordered choice already compiled, 0 when the code
      does not start with one. */
  function FirstPart(c: Code): (sp: nat)
    ensures sp <= |c|
    ensures sp > 0 ==> (IsTest(c[0]) || c[0].Choice?) && (c[sp - 1].Jmp? || c[sp - 1].Commit?)
                       && sp == c[0].offset && Dest(c, sp - 1) == |c|
    ensures sp > 0 && c[0].Choice? ==> c[sp - 1].Commit?
  {
    if c == [] then 0
    else if IsTest(c[0]) then
      var e := c[0].offset - 1;
      if 0 <= e < |c| && (c[e].Jmp? || c[e].Commit?) && Dest(c, e) == |c| then e + 1 else 0
    else if c[0].Choice? then
      var e := c[0].offset - 1;
      if 0 <= e < |c| && c[e].Commit? && Dest(c, e) == |c| then e + 1 else 0
    else 0
  }

  /** Might an alternative that starts as described by t2 match where this part, having passed
      its test, fails? */
  predicate Interfere(part: Code, t2: CharsetTag)
    requires part != []
  {
    !AllNoFail(part) &&
    (t2.NoInfo? ||
     match part[0]
     case Char(c, _) => c in t2.cs
     case Set(cs, _) => !(cs !! t2.cs)
     case _ => true)
  }

  function BasicUnion(c1: Code, c2: Code, t2: CharsetTag): (r: Code) {
    var t1 := ToCharset(c1);
    if t1.IsCharset? && t2.IsCharset? then [Set(t1.cs + t2.cs, 0)]
    else if (Exclusive(t1, t2) || IsHeadFail(c1)) then
      CheckToTest(c1, |c1| + 1) + [Jmp(|c2| + 1)] + c2
    else OptimizeChoice([Choice(|c1| + 2, 0)] + c1 + [Commit(|c2| + 1)] + c2)
  }

  /** Is this the code of an alternative, up to and including the jump over the others? */
  predicate IsPart(part: Code) {
    |part| > 1 && (IsTest(part[0]) || part[0].Choice?) && (part[|part| - 1].Jmp? || part[|part| - 1].Commit?)
    && (part[0].Choice? ==> part[|part| - 1].Commit?)
  }

  /** Put an alternative before the rest of the choice: as it is, with its jump corrected, or, when
      what is new in the rest may match where it fails past its test, with a choice again. */
  function PlacePart(part: Code, rest: Code, t2: CharsetTag): Code
    requires IsPart(part)
  {
    if part[|part| - 1].Commit? || !Interfere(part, t2) then
      part[..|part| - 1] + [SetOffset(part[|part| - 1], |rest| + 1)] + rest
    else
      [SetOffset(part[0], |part| + 1), Choice(|part|, 1)] + part[1..|part| - 1] + [Commit(|rest| + 1)] + rest
  }

  /** (a / b) / c is rebuilt as a / (b / c), alternative by alternative. */
  function SeparateParts(c1: Code, c2: Code, t2: CharsetTag): Code
    decreases |c1|
  {
    var sp := FirstPart(c1);
    if sp == 0 then BasicUnion(c1, c2, t2)
    else PlacePart(c1[..sp], SeparateParts(c1[sp..], c2, t2), t2)
  }

  function UnionCode(c1: Code, c2: Code): Code {
    if IsFail(c1) then c2
    else if IsFail(c2) || IsSucc(c1) then c1
    else SeparateParts(c1, c2, ToCharset(c2))
  }

  function Times(c: Code, n: nat): Code {
    if n == 0 then [] else c + Times(c, n - 1)
  }

  function RepeatCharset(c: Code, cs: set<Byte>, n: nat): Code { Times(c, n) + [Span(cs)] }

  function RepeatHeadFail(c: Code, n: nat): Code
    requires IsHeadFail(c)
  {
    Times(c, n) + CheckToTest(c, |c| + 1) + [Jmp(-|c|)]
  }

  function Repeats(c: Code, n: nat): Code {
    Times(c, n) + [Choice(|c| + 2, 0)] + c + [PartialCommit(-|c|)]
  }

  function OptionalHeadFail(c: Code, n: nat): Code
    requires IsHeadFail(c)
  {
    if n == 0 then [] else CheckToTest(c, n * |c|) + OptionalHeadFail(c, n - 1)
  }

  function OptionalBody(c: Code, n: nat): Code
    requires n > 0
  {
    if n == 1 then c + [Commit(1)] else c + [PartialCommit(1)] + OptionalBody(c, n - 1)
  }

  function Optionals(c: Code, n: nat): Code
    requires n > 0
  {
    OptimizeChoice([Choice(1 + n * (|c| + 1), 0)] + OptionalBody(c, n))
  }

  function AtLeastCode(c: Code, n: nat): Code {
    if ToCharset(c).IsCharset? then RepeatCharset(c, ToCharset(c).cs, n)
    else if IsHeadFail(c) then OptimizeJumps(OptimizeCaptures(RepeatHeadFail(c, n)))
    else OptimizeJumps(OptimizeCaptures(Repeats(c, n)))
  }

  function AtMostCode(c: Code, n: nat): Code
    requires n > 0
  {
    if IsHeadFail(c) then OptionalHeadFail(c, n) else Optionals(c, n)
  }

  function CaptureCode(c: Code, kind: CapKind, idx: int): Code {
    var (m, n) := SkipChecks(c, 0, 0);
    if m == |c| then c + [FullCapture(idx, kind, n)]
    else OptimizeCaptures([OpenCapture(idx, kind, 0)] + c + [CloseCapture(0, Cclose, 0)])
  }
}
