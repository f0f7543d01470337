/** How patterns are written: the text of each kind of item, and that what is written is what is read. */
module PatternSyntax {
  import opened PatternItems

  // ---------- sets ----------

  /** A character of a set that stands for itself; a bracket only at the start. */
  predicate IsPlain(c: char, first: bool) { c != '%' && c != '\0' && (c == ']' ==> first) }

  /** e is written from q to r, in a set that ends at ec. */
  predicate SpellsElem(pat: string, q: nat, r: nat, ec: nat, first: bool, e: Elem) {
    q < r <= ec < |pat| &&
    match e
    case Escaped(cl) => r == q + 2 && pat[q] == '%' && pat[q + 1] == cl && cl != '\0'
    case Range(lo, hi) => r == q + 3 && pat[q] == lo && pat[q + 1] == '-' && pat[q + 2] == hi && IsPlain(lo, first) && IsPlain(hi, false)
    case One(c) => r == q + 1 && pat[q] == c && IsPlain(c, first) && !(pat[q + 1] == '-' && q + 2 < ec)
  }

  /** The elements es are written from q on, one after the other, up to the closing bracket at ec. */
  ghost predicate SpellsElems(pat: string, q: nat, ec: nat, first: bool, es: seq<Elem>)
    decreases |es|
  {
    if es == [] then q == ec && ec < |pat| && pat[ec] == ']' && !first
    else exists r: nat :: SpellsElem(pat, q, r, ec, first, es[0]) && SpellsElems(pat, r, ec, false, es[1..])
  }

  /** The set cs is written from p to next. */
  ghost predicate SpellsSet(pat: string, p: nat, next: nat, cs: CharSet) {
    p < next <= |pat| &&
    match cs
    case Any => next == p + 1 && pat[p] == '.'
    case Class(cl) => next == p + 2 && pat[p] == '%' && pat[p + 1] == cl && cl != '\0'
    case Exactly(c) => next == p + 1 && pat[p] == c && c != '.' && c != '%' && c != '[' && c != '\0'
    case Bracket(negated, es) =>
      && pat[p] == '[' && (negated <==> At(pat, p + 1) == '^')
      && SpellsElems(pat, if negated then p + 2 else p + 1, next - 1, true, es)
  }

  lemma {:induction false} ElemsEnd(pat: string, q: nat, ec: nat, first: bool, es: seq<Elem>)
    requires SpellsElems(pat, q, ec, first, es)
    ensures q <= ec < |pat| && pat[ec] == ']' && (es == [] ==> q == ec) && (es != [] ==> q < ec)
    decreases |es|
  {
    if es != [] {
      var r: nat :| SpellsElem(pat, q, r, ec, first, es[0]) && SpellsElems(pat, r, ec, false, es[1..]);
      ElemsEnd(pat, r, ec, false, es[1..]);
    }
  }

  /** The elements are read, and the end of the set is found. */
  lemma {:induction false} ElemsRead(pat: string, q: nat, ec: nat, first: bool, es: seq<Elem>)
    requires SpellsElems(pat, q, ec, first, es)
    ensures q <= ec < |pat| && pat[ec] == ']' && Elements(pat, q, ec) == es
    ensures es != [] ==> BracketEnd(pat, q) == Some(ec + 1)
    ensures !first && es != [] ==> pat[q] != ']'
    decreases |es|
  {
    ElemsEnd(pat, q, ec, first, es);
    if es != [] {
      var r: nat :| SpellsElem(pat, q, r, ec, first, es[0]) && SpellsElems(pat, r, ec, false, es[1..]);
      ElemsRead(pat, r, ec, false, es[1..]);
      ElemsEnd(pat, r, ec, false, es[1..]);
      assert es == [es[0]] + es[1..];
      ElemRead(pat, q, r, ec, first, es[0]);
      OverElem(pat, q, r, ec, first, es[0]);
    }
  }

  lemma ElemRead(pat: string, q: nat, r: nat, ec: nat, first: bool, e: Elem)
    requires SpellsElem(pat, q, r, ec, first, e)
    ensures Elements(pat, q, ec) == [e] + Elements(pat, r, ec)
  {
  }

  /** The search for the end passes over an element. */
  lemma OverElem(pat: string, q: nat, r: nat, ec: nat, first: bool, e: Elem)
    requires SpellsElem(pat, q, r, ec, first, e)
    ensures BracketEnd(pat, q) == if pat[r] == ']' then Some(r + 1) else BracketEnd(pat, r)
    ensures !first ==> pat[q] != ']'
  {
    if e.Range? {
      assert BracketEnd(pat, q) == BracketEnd(pat, q + 1);
      assert BracketEnd(pat, q + 1) == BracketEnd(pat, q + 2);
    }
  }

  lemma SetRead(pat: string, p: nat, next: nat, cs: CharSet)
    requires SpellsSet(pat, p, next, cs)
    ensures p < |pat| && ItemEnd(pat, p) == Some(next) && SetAt(pat, p, next) == cs
  {
    hide Elements, BracketEnd;
    if cs.Bracket? {
      var q := if cs.negated then p + 2 else p + 1;
      NotEmpty(pat, q, next - 1, cs.elems);
      ElemsRead(pat, q, next - 1, true, cs.elems);
    }
  }

  lemma NotEmpty(pat: string, q: nat, ec: nat, es: seq<Elem>)
    requires SpellsElems(pat, q, ec, true, es)
    ensures es != []
  {
  }

  // ---------- items ----------

  /** A sign of repetition. */
  predicate IsSign(c: char) { c == '?' || c == '*' || c == '+' || c == '-' }

  function SignOf(rep: Rep): char { match rep case Optional => '?' case Star => '*' case Plus => '+' case Lazy => '-' case Once => '\0' }

  /** A set with its sign of repetition from p to next; it must not look like the start of another item. */
  ghost predicate SpellsChars(pat: string, p: nat, next: nat, cs: CharSet, rep: Rep) {
    && p < next <= |pat| && pat[p] != '(' && pat[p] != ')' && !(pat[p] == '$' && At(pat, p + 1) == '\0')
    && !(pat[p] == '%' && (At(pat, p + 1) == 'b' || At(pat, p + 1) == 'f' || '0' <= At(pat, p + 1) <= '9'))
    && if rep == Once then SpellsSet(pat, p, next, cs) && !IsSign(At(pat, next)) else SpellsSet(pat, p, next - 1, cs) && pat[next - 1] == SignOf(rep)
  }

  /** An item is written from p to next. */
  ghost predicate Spells(pat: string, p: nat, next: nat, item: Item) {
    p < next <= |pat| &&
    match item
    case OpenCap => next == p + 1 && pat[p] == '(' && At(pat, p + 1) != ')'
    case PositionCap => next == p + 2 && pat[p] == '(' && pat[p + 1] == ')'
    case CloseCap => next == p + 1 && pat[p] == ')'
    case AtEnd => next == p + 1 == |pat| && pat[p] == '$'
    case Balance(b, e) => next == p + 4 && pat[p] == '%' && pat[p + 1] == 'b' && pat[p + 2] == b && pat[p + 3] == e && b != '\0' && e != '\0'
    case Frontier(cs) => p + 2 < next && pat[p] == '%' && pat[p + 1] == 'f' && pat[p + 2] == '[' && SpellsSet(pat, p + 2, next, cs)
    case BackRef(d) => next == p + 2 && pat[p] == '%' && pat[p + 1] == d && '0' <= d <= '9'
    case Chars(cs, rep) => SpellsChars(pat, p, next, cs, rep)
    case Malformed => false
  }

  /** The items are written from p to the end of the pattern. */
  ghost predicate SpellsAll(pat: string, p: nat, items: seq<Item>)
    decreases |items|
  {
    if items == [] then p == |pat| else exists next: nat :: Spells(pat, p, next, items[0]) && SpellsAll(pat, next, items[1..])
  }

  lemma CharsRead(pat: string, p: nat, next: nat, cs: CharSet, rep: Rep)
    requires SpellsChars(pat, p, next, cs, rep)
    ensures Parse(pat, p) == [Chars(cs, rep)] + Parse(pat, next)
  {
    hide ItemEnd, SetAt, SpellsSet;
    SetRead(pat, p, if rep == Once then next else next - 1, cs);
    SetStarts(pat, p, if rep == Once then next else next - 1, cs);
  }

  lemma SetStarts(pat: string, p: nat, next: nat, cs: CharSet)
    requires SpellsSet(pat, p, next, cs)
    ensures p < next && pat[p] != '\0' && (pat[p] == '%' ==> At(pat, p + 1) != '\0')
  {
  }

  lemma ItemRead(pat: string, p: nat, next: nat, item: Item)
    requires Spells(pat, p, next, item)
    ensures Parse(pat, p) == [item] + Parse(pat, next)
  {
    hide ItemEnd, SetAt, SpellsSet;
    match item
    case Chars(cs, rep) => CharsRead(pat, p, next, cs, rep);
    case Frontier(cs) => SetRead(pat, p + 2, next, cs);
    case _ =>
  }

  /** A pattern is read as the items that it is written from. */
  lemma {:induction false} SpelledIsRead(pat: string, p: nat, items: seq<Item>)
    requires SpellsAll(pat, p, items)
    ensures p <= |pat| && Parse(pat, p) == items
    decreases |items|
  {
    hide Parse, Spells;
    if items != [] {
      var next: nat :| Spells(pat, p, next, items[0]) && SpellsAll(pat, next, items[1..]);
      SpelledIsRead(pat, next, items[1..]);
      SpelledInside(pat, p, next, items[0]);
      ItemRead(pat, p, next, items[0]);
    } else {
      NothingRead(pat);
    }
  }

  lemma SpelledInside(pat: string, p: nat, next: nat, item: Item)
    requires Spells(pat, p, next, item)
    ensures p < next <= |pat|
  {
  }

  lemma NothingRead(pat: string)
    ensures Parse(pat, |pat|) == []
  {
  }
}
