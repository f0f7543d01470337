/** String patterns: their items, and all the ways in which they match, in the order of preference. */
module PatternItems {
  const ESC: char := '%'
  const MAXCAPTURES: nat := 32
  const CAP_UNFINISHED: int := -1
  const CAP_POSITION: int := -2

  datatype Option<T> = None | Some(value: T)

  // ---------- characters, in the C locale ----------

  predicate IsLower(c: char) { 'a' <= c <= 'z' }
  predicate IsUpper(c: char) { 'A' <= c <= 'Z' }
  predicate IsAlpha(c: char) { IsLower(c) || IsUpper(c) }
  predicate IsDigit(c: char) { '0' <= c <= '9' }
  predicate IsAlnum(c: char) { IsAlpha(c) || IsDigit(c) }
  predicate IsSpace(c: char) { c == ' ' || 9 <= c as int <= 13 }
  predicate IsControl(c: char) { c < ' ' || c as int == 127 }
  predicate IsPunct(c: char) { ' ' < c < 127 as char && !IsAlnum(c) }
  predicate IsHex(c: char) { IsDigit(c) || 'a' <= c <= 'f' || 'A' <= c <= 'F' }

  function ToLower(c: char): char { if IsUpper(c) then (c as int + 32) as char else c }

  /** match_class. */
  predicate InClass(c: char, cl: char) {
    var l := ToLower(cl);
    if l in "acdlpsuwxz" then
      var res :=
        if l == 'a' then IsAlpha(c) else if l == 'c' then IsControl(c) else if l == 'd' then IsDigit(c) else if l == 'l' then IsLower(c)
        else if l == 'p' then IsPunct(c) else if l == 's' then IsSpace(c) else if l == 'u' then IsUpper(c) else if l == 'w' then IsAlnum(c)
        else if l == 'x' then IsHex(c) else c == '\0';
      res == IsLower(cl)
    else cl == c
  }

  /** An element of a set in brackets. */
  datatype Elem = Escaped(cl: char) | Range(lo: char, hi: char) | One(c: char)

  predicate Has(e: Elem, c: char) {
    match e case Escaped(cl) => InClass(c, cl) case Range(lo, hi) => lo <= c <= hi case One(x) => x == c
  }

  predicate SomeHas(elems: seq<Elem>, c: char) { exists i :: 0 <= i < |elems| && Has(elems[i], c) }

  datatype CharSet = Any | Class(cl: char) | Bracket(negated: bool, elems: seq<Elem>) | Exactly(c: char)

  predicate Member(cs: CharSet, c: char) {
    match cs
    case Any => true
    case Class(cl) => InClass(c, cl)
    case Bracket(negated, elems) => negated != SomeHas(elems, c)
    case Exactly(x) => x == c
  }

  // ---------- items ----------

  datatype Rep = Once | Optional | Star | Plus | Lazy

  datatype Item =
    | Chars(cs: CharSet, rep: Rep)
    | OpenCap | PositionCap | CloseCap
    | Balance(b: char, e: char)
    | Frontier(cs: CharSet)
    | BackRef(c: char)
    | AtEnd
    | Malformed

  /** The pattern ends in a zero. */
  function At(pat: string, p: nat): char { if p < |pat| then pat[p] else '\0' }

  /** classend, from inside a bracket on. */
  function BracketEnd(pat: string, p: nat): (r: Option<nat>)
    requires p <= |pat|
    ensures r.Some? ==> p + 1 < r.value <= |pat| && pat[r.value - 1] == ']'
    decreases |pat| - p
  {
    if At(pat, p) == '\0' then None
    else
      var q := if At(pat, p) == ESC && At(pat, p + 1) != '\0' then p + 2 else p + 1;
      if At(pat, q) == ']' then Some(q + 1) else BracketEnd(pat, q)
  }

  /** Where a single-character item ends, if it is well formed. */
  function ItemEnd(pat: string, p: nat): (r: Option<nat>)
    requires p < |pat|
    ensures r.Some? ==> p < r.value <= |pat|
    ensures r.Some? && pat[p] == '[' ==> p + 1 < r.value
    ensures r.Some? && pat[p] == ESC ==> p + 2 == r.value
  {
    if pat[p] == ESC then (if At(pat, p + 1) == '\0' then None else Some(p + 2))
    else if pat[p] == '[' then BracketEnd(pat, if At(pat, p + 1) == '^' then p + 2 else p + 1)
    else Some(p + 1)
  }

  function Elements(pat: string, p: nat, ec: nat): seq<Elem>
    decreases ec - p
  {
    if p >= ec then []
    else if At(pat, p) == ESC then [Escaped(At(pat, p + 1))] + Elements(pat, p + 2, ec)
    else if At(pat, p + 1) == '-' && p + 2 < ec then [Range(At(pat, p), At(pat, p + 2))] + Elements(pat, p + 3, ec)
    else [One(At(pat, p))] + Elements(pat, p + 1, ec)
  }

  function SetAt(pat: string, p: nat, ep: nat): CharSet
    requires p < |pat| && ep >= 1
  {
    if pat[p] == '.' then Any
    else if pat[p] == ESC then Class(At(pat, p + 1))
    else if pat[p] == '[' then
      var negated := At(pat, p + 1) == '^';
      Bracket(negated, Elements(pat, if negated then p + 2 else p + 1, ep - 1))
    else Exactly(pat[p])
  }

  function RepAt(pat: string, ep: nat): Rep {
    match At(pat, ep) case '?' => Optional case '*' => Star case '+' => Plus case '-' => Lazy case _ => Once
  }

  /** The items of the pattern from p on. */
  function Parse(pat: string, p: nat): seq<Item>
    requires p <= |pat|
    decreases |pat| - p
  {
    var c, d := At(pat, p), At(pat, p + 1);
    if c == '\0' then []
    else if c == '(' then (if d == ')' then [PositionCap] + Parse(pat, p + 2) else [OpenCap] + Parse(pat, p + 1))
    else if c == ')' then [CloseCap] + Parse(pat, p + 1)
    else if c == '$' && d == '\0' then [AtEnd]
    else if c == ESC && d == 'b' then
      if At(pat, p + 2) == '\0' || At(pat, p + 3) == '\0' then [Malformed]
      else [Balance(At(pat, p + 2), At(pat, p + 3))] + Parse(pat, p + 4)
    else if c == ESC && d == 'f' then
      if At(pat, p + 2) != '[' || ItemEnd(pat, p + 2).None? then [Malformed]
      else [Frontier(SetAt(pat, p + 2, ItemEnd(pat, p + 2).value))] + Parse(pat, ItemEnd(pat, p + 2).value)
    else if c == ESC && IsDigit(d) then [BackRef(d)] + Parse(pat, p + 2)
    else if ItemEnd(pat, p).None? then [Malformed]
    else
      var ep := ItemEnd(pat, p).value;
      var rep := RepAt(pat, ep);
      [Chars(SetAt(pat, p, ep), rep)] + Parse(pat, if rep == Once then ep else ep + 1)
  }

  // ---------- meaning ----------

  datatype Cap = Cap(init: nat, len: int)

  /** One way to match: the end and the captures.  Fault stands for an error. */
  datatype Way = Way(end: nat, caps: seq<Cap>) | Fault

  predicate OneMore(src: string, cs: CharSet, s: nat) { s < |src| && Member(cs, src[s]) }

  /** The longest run of members. */
  function RunLength(src: string, cs: CharSet, s: nat): (n: nat)
    requires s <= |src|
    ensures s + n <= |src|
    decreases |src| - s
  {
    if OneMore(src, cs, s) then 1 + RunLength(src, cs, s + 1) else 0
  }

  /** The end of a balanced string, depth openings being open before s. */
  function BalanceEnd(src: string, b: char, e: char, s: nat, depth: nat): (r: Option<nat>)
    requires s <= |src| && depth > 0
    ensures r.Some? ==> s < r.value <= |src|
    decreases |src| - s
  {
    if s == |src| then None
    else if src[s] == e then (if depth == 1 then Some(s + 1) else BalanceEnd(src, b, e, s + 1, depth - 1))
    else BalanceEnd(src, b, e, s + 1, if src[s] == b then depth + 1 else depth)
  }

  /** The last capture that is still open. */
  function OpenCapture(caps: seq<Cap>): (r: Option<nat>)
    ensures r.Some? ==> r.value < |caps| && caps[r.value].len == CAP_UNFINISHED && forall j :: r.value < j < |caps| ==> caps[j].len != CAP_UNFINISHED
    ensures r.None? ==> forall j :: 0 <= j < |caps| ==> caps[j].len != CAP_UNFINISHED
  {
    if caps == [] then None
    else if caps[|caps| - 1].len == CAP_UNFINISHED then Some(|caps| - 1)
    else OpenCapture(caps[..|caps| - 1])
  }

  function Closed(caps: seq<Cap>, l: nat, s: nat): seq<Cap>
    requires l < |caps|
  {
    caps[l := caps[l].(len := s - caps[l].init)]
  }

  /** The capture that a digit refers to. */
  function CaptureIndex(c: char): int { c as int - '1' as int }

  predicate Refers(c: char, caps: seq<Cap>) { 0 <= CaptureIndex(c) < |caps| && caps[CaptureIndex(c)].len != CAP_UNFINISHED }

  /** The text of a closed capture comes again at s. */
  predicate Repeats(src: string, cap: Cap, s: nat) {
    0 <= cap.len && s + cap.len <= |src| && cap.init + cap.len <= |src| && src[cap.init..cap.init + cap.len] == src[s..s + cap.len]
  }

  predicate IsFrontier(src: string, cs: CharSet, s: nat)
    requires s <= |src|
  {
    !Member(cs, if s == 0 then '\0' else src[s - 1]) && Member(cs, At(src, s))
  }

  /** All the ways to match, the preferred ones first. */
  function Ways(src: string, items: seq<Item>, s: nat, caps: seq<Cap>): seq<Way>
    requires s <= |src|
    decreases |items|, 0, 0
  {
    if items == [] then [Way(s, caps)] else ItemWays(src, items[0], items[1..], s, caps)
  }

  /** The ways to match an item and then the rest. */
  function ItemWays(src: string, item: Item, rest: seq<Item>, s: nat, caps: seq<Cap>): seq<Way>
    requires s <= |src|
    decreases |rest|, 2, 0
  {
    match item
    case Malformed => [Fault]
    case AtEnd => if s == |src| then Ways(src, rest, s, caps) else []
    case OpenCap => if |caps| >= MAXCAPTURES then [Fault] else Ways(src, rest, s, caps + [Cap(s, CAP_UNFINISHED)])
    case PositionCap => if |caps| >= MAXCAPTURES then [Fault] else Ways(src, rest, s, caps + [Cap(s, CAP_POSITION)])
    case CloseCap => if OpenCapture(caps).None? then [Fault] else Ways(src, rest, s, Closed(caps, OpenCapture(caps).value, s))
    case Balance(b, e) => if At(src, s) != b || BalanceEndAt(src, b, e, s).None? then [] else Ways(src, rest, BalanceEndAt(src, b, e, s).value, caps)
    case Frontier(cs) => if IsFrontier(src, cs, s) then Ways(src, rest, s, caps) else []
    case BackRef(c) =>
      if !Refers(c, caps) then [Fault]
      else if Repeats(src, caps[CaptureIndex(c)], s) then Ways(src, rest, s + caps[CaptureIndex(c)].len, caps)
      else []
    case Chars(cs, Once) => if OneMore(src, cs, s) then Ways(src, rest, s + 1, caps) else []
    case Chars(cs, Optional) => (if OneMore(src, cs, s) then Ways(src, rest, s + 1, caps) else []) + Ways(src, rest, s, caps)
    case Chars(cs, Star) => Longest(src, rest, s, RunLength(src, cs, s), caps)
    case Chars(cs, Plus) => if OneMore(src, cs, s) then Longest(src, rest, s + 1, RunLength(src, cs, s + 1), caps) else []
    case Chars(cs, Lazy) => Shortest(src, cs, rest, s, caps)
  }

  lemma WaysCons(src: string, item: Item, rest: seq<Item>, s: nat, caps: seq<Cap>)
    requires s <= |src|
    ensures Ways(src, [item] + rest, s, caps) == ItemWays(src, item, rest, s, caps)
  {
    assert ([item] + rest)[1..] == rest;
  }

  function BalanceEndAt(src: string, b: char, e: char, s: nat): (r: Option<nat>)
    requires s <= |src|
    ensures r.Some? ==> s < r.value <= |src|
  {
    if s < |src| then BalanceEnd(src, b, e, s + 1, 1) else None
  }

  /** First n more characters, then fewer. */
  function Longest(src: string, items: seq<Item>, s: nat, n: nat, caps: seq<Cap>): seq<Way>
    requires s + n <= |src|
    decreases |items|, 1, n
  {
    Ways(src, items, s + n, caps) + (if n == 0 then [] else Longest(src, items, s, n - 1, caps))
  }

  /** First no more characters, then more. */
  function Shortest(src: string, cs: CharSet, items: seq<Item>, s: nat, caps: seq<Cap>): seq<Way>
    requires s <= |src|
    decreases |items|, 1, |src| - s
  {
    Ways(src, items, s, caps) + (if OneMore(src, cs, s) then Shortest(src, cs, items, s + 1, caps) else [])
  }
}
