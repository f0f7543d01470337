/** The meaning of patterns: a recursive evaluator for parsing expressions with captures.
    It knows nothing of instructions, pending choices or optimizations. */
module LpegReference {
  import opened LpegMachine

  datatype Pattern =
    | Literal(text: seq<Byte>)
    | AnyN(n: nat)
    | NotAny(n: nat)                                // the number -n: fewer than n bytes are left
    | True
    | False
    | Charset(cs: set<Byte>)
    | Seq(first: Pattern, second: Pattern)
    | Or(left: Pattern, right: Pattern)
    | Diff(body: Pattern, except: Pattern)          // body - except
    | Not(body: Pattern)
    | And(body: Pattern)
    | AtLeast(body: Pattern, n: nat)                // body^n
    | AtMost(body: Pattern, n: nat)                 // body^-n
    | Capturing(body: Pattern, kind: CapKind, idx: int)
    | EmptyCap(kind: CapKind, idx: int)

  /** The numbers in a pattern are in the ranges that the library's entry points produce. */
  predicate Legal(p: Pattern) {
    match p
    case NotAny(n) => n > 0
    case Seq(a, b) => Legal(a) && Legal(b)
    case Or(a, b) => Legal(a) && Legal(b)
    case Diff(a, b) => Legal(a) && Legal(b)
    case Not(a) => Legal(a)
    case And(a) => Legal(a)
    case AtLeast(a, _) => Legal(a)
    case AtMost(a, n) => Legal(a) && n > 0
    case Capturing(a, kind, _) => Legal(a) && kind != Cclose
    case EmptyCap(kind, _) => kind != Cclose
    case _ => true
  }

  function Literally(text: seq<Byte>, subj: Subject, s: int): Outcome {
    if text == [] then Match(s, [])
    else if 0 <= s < |subj| && subj[s] == text[0] then Literally(text[1..], subj, s + 1)
    else NoMatch
  }

  /** Captures of an earlier match go before those of a later one. */
  function Prepend(k: seq<Capture>, r: Outcome): Outcome {
    match r
    case NoMatch => NoMatch
    case Match(e, k1) => Match(e, k + k1)
  }

  /** The entries for a capture from s to e around the captures k: a single entry with its
      size when nothing is nested in it and the size fits, else an open and a close entry. */
  function Wrap(kind: CapKind, idx: int, s: int, e: int, k: seq<Capture>): seq<Capture>
    requires s <= e
  {
    if k == [] && e - s < UCHAR_MAX then [Capture(s, idx, kind, e - s + 1)]
    else [Capture(s, idx, kind, 0)] + k + [Capture(e, 0, Cclose, 1)]
  }

  function Eval(p: Pattern, subj: Subject, s: int): Outcome
    decreases p, |subj| - s, 0
  {
    match p
    case Literal(text) => Literally(text, subj, s)
    case AnyN(n) => if n <= |subj| - s then Match(s + n, []) else NoMatch
    case NotAny(n) => if n <= |subj| - s then NoMatch else Match(s, [])
    case True => Match(s, [])
    case False => NoMatch
    case Charset(cs) => if 0 <= s < |subj| && subj[s] in cs then Match(s + 1, []) else NoMatch
    case Seq(a, b) =>
      (match Eval(a, subj, s)
       case NoMatch => NoMatch
       case Match(e, k) => Prepend(k, Eval(b, subj, e)))
    case Or(a, b) => (match Eval(a, subj, s) case NoMatch => Eval(b, subj, s) case r => r)
    case Diff(a, b) => (match Eval(b, subj, s) case NoMatch => Eval(a, subj, s) case _ => NoMatch)
    case Not(a) => (match Eval(a, subj, s) case NoMatch => Match(s, []) case _ => NoMatch)
    case And(a) => (match Eval(a, subj, s) case NoMatch => NoMatch case Match(_, k) => Match(s, k))
    case AtLeast(a, n) => EvalTimes(a, n, subj, s)
    case AtMost(a, n) => EvalUpTo(a, n, subj, s)
    case Capturing(a, kind, idx) =>
      (match Eval(a, subj, s)
       case NoMatch => NoMatch
       case Match(e, k) => if s <= e then Match(e, Wrap(kind, idx, s, e, k)) else NoMatch)
    case EmptyCap(kind, idx) => Match(s, [Capture(s, idx, kind, 1)])
  }

  /** n matches of a, then as many more as there are. */
  function EvalTimes(a: Pattern, n: nat, subj: Subject, s: int): Outcome
    decreases a, |subj| - s, 2, n
  {
    if n == 0 then EvalStar(a, subj, s)
    else
      match Eval(a, subj, s)
      case NoMatch => NoMatch
      case Match(e, k) => if s <= e <= |subj| then Prepend(k, EvalTimes(a, n - 1, subj, e)) else NoMatch
  }

  /** The loop.  A body that matches without advancing would repeat for ever; the loop test of
      the compiler excludes it, so the value given here for it is never used. */
  function EvalStar(a: Pattern, subj: Subject, s: int): Outcome
    decreases a, |subj| - s, 1
  {
    match Eval(a, subj, s)
    case NoMatch => Match(s, [])
    case Match(e, k) => if s < e <= |subj| then Prepend(k, EvalStar(a, subj, e)) else NoMatch
  }

  function EvalUpTo(a: Pattern, n: nat, subj: Subject, s: int): Outcome
    decreases a, |subj| - s, 2, n
  {
    if n == 0 then Match(s, [])
    else
      match Eval(a, subj, s)
      case NoMatch => Match(s, [])
      case Match(e, k) => if s <= e <= |subj| then Prepend(k, EvalUpTo(a, n - 1, subj, e)) else NoMatch
  }

  /** The end of a match lies between the start and the end of the subject, and its last capture is closed. */
  predicate InBounds(subj: Subject, s: int, r: Outcome) {
    r.Match? ==> s <= r.end <= |subj|
  }

  predicate Closed(r: Outcome) {
    r.Match? && r.caps != [] ==> r.caps[|r.caps| - 1].siz != 0
  }

  lemma {:induction false} LiterallyBounds(text: seq<Byte>, subj: Subject, s: int)
    requires 0 <= s <= |subj|
    ensures InBounds(subj, s, Literally(text, subj, s)) && Closed(Literally(text, subj, s))
    decreases |text|
  {
    if text != [] && s < |subj| && subj[s] == text[0] {
      LiterallyBounds(text[1..], subj, s + 1);
    }
  }

  /** No pattern moves backward or past the end of the subject. */
  lemma {:induction false} EvalBounds(p: Pattern, subj: Subject, s: int)
    requires 0 <= s <= |subj|
    ensures InBounds(subj, s, Eval(p, subj, s)) && Closed(Eval(p, subj, s))
    decreases p, |subj| - s, 0
  {
    match p
    case Literal(text) => LiterallyBounds(text, subj, s);
    case Seq(a, b) =>
      EvalBounds(a, subj, s);
      if Eval(a, subj, s).Match? { EvalBounds(b, subj, Eval(a, subj, s).end); }
    case Or(a, b) => EvalBounds(a, subj, s); EvalBounds(b, subj, s);
    case Diff(a, b) => EvalBounds(a, subj, s);
    case Not(a) =>
    case And(a) => EvalBounds(a, subj, s);
    case AtLeast(a, n) => EvalTimesBounds(a, n, subj, s);
    case AtMost(a, n) => EvalUpToBounds(a, n, subj, s);
    case Capturing(a, kind, idx) => EvalBounds(a, subj, s);
    case _ =>
  }

  lemma {:induction false} EvalTimesBounds(a: Pattern, n: nat, subj: Subject, s: int)
    requires 0 <= s <= |subj|
    ensures InBounds(subj, s, EvalTimes(a, n, subj, s)) && Closed(EvalTimes(a, n, subj, s))
    decreases a, |subj| - s, 2, n
  {
    EvalBounds(a, subj, s);
    if n == 0 {
      EvalStarBounds(a, subj, s);
    } else if Eval(a, subj, s).Match? {
      EvalTimesBounds(a, n - 1, subj, Eval(a, subj, s).end);
    }
  }

  lemma {:induction false} EvalStarBounds(a: Pattern, subj: Subject, s: int)
    requires 0 <= s <= |subj|
    ensures InBounds(subj, s, EvalStar(a, subj, s)) && Closed(EvalStar(a, subj, s))
    decreases a, |subj| - s, 1
  {
    EvalBounds(a, subj, s);
    var r := Eval(a, subj, s);
    if r.Match? && s < r.end {
      EvalStarBounds(a, subj, r.end);
    }
  }

  lemma {:induction false} EvalUpToBounds(a: Pattern, n: nat, subj: Subject, s: int)
    requires 0 <= s <= |subj|
    ensures InBounds(subj, s, EvalUpTo(a, n, subj, s)) && Closed(EvalUpTo(a, n, subj, s))
    decreases a, |subj| - s, 2, n
  {
    EvalBounds(a, subj, s);
    if n > 0 && Eval(a, subj, s).Match? {
      EvalUpToBounds(a, n - 1, subj, Eval(a, subj, s).end);
    }
  }

  /** What the library can see at once about a pattern: it is the empty pattern, it is the
      failing one, or neither.  (Two shortcuts of its combinators depend on it.) */
  datatype Shape = IsEmpty | IsFailure | Other

  function ShapeOf(p: Pattern): Shape {
    match p
    case Literal(text) => if text == [] then IsEmpty else Other
    case AnyN(n) => if n == 0 then IsEmpty else Other
    case True => IsEmpty
    case False => IsFailure
    case Seq(a, b) =>
      if ShapeOf(a).IsFailure? || ShapeOf(b).IsEmpty? then ShapeOf(a)
      else if ShapeOf(b).IsFailure? || ShapeOf(a).IsEmpty? then ShapeOf(b) else Other
    case Or(a, b) =>
      if ShapeOf(a).IsFailure? then ShapeOf(b)
      else if ShapeOf(b).IsFailure? || ShapeOf(a).IsEmpty? then ShapeOf(a) else Other
    case Not(a) => if ShapeOf(a).IsFailure? then IsEmpty else if ShapeOf(a).IsEmpty? then IsFailure else Other
    case And(a) => ShapeOf(a)
    case AtLeast(a, n) => if n > 0 && ShapeOf(a).IsFailure? then IsFailure else Other
    case _ => Other
  }

  /** May the pattern match without consuming anything?  Predicates and options are taken to
      match the empty string, whatever their bodies do. */
  predicate Nullable(p: Pattern) {
    match p
    case Literal(text) => text == []
    case AnyN(n) => n == 0
    case NotAny(_) => true
    case True => true
    case False => false
    case Charset(_) => false
    case Seq(a, b) => Nullable(a) && Nullable(b)
    case Or(a, b) => Nullable(a) || Nullable(b)
    case Diff(a, _) => Nullable(a)
    case Not(a) => !ShapeOf(a).IsEmpty?
    case And(a) => !ShapeOf(a).IsFailure?
    case AtLeast(a, n) => n == 0 || Nullable(a)
    case AtMost(_, _) => true
    case Capturing(a, _, _) => Nullable(a)
    case EmptyCap(_, _) => true
  }

  lemma {:induction false} ShapeMeaning(p: Pattern, subj: Subject, s: int)
    requires 0 <= s <= |subj|
    ensures ShapeOf(p).IsEmpty? ==> Eval(p, subj, s) == Match(s, []) && Nullable(p)
    ensures ShapeOf(p).IsFailure? ==> Eval(p, subj, s) == NoMatch && !Nullable(p)
    decreases p
  {
    match p
    case Seq(a, b) =>
      ShapeMeaning(a, subj, s);
      EvalBounds(a, subj, s);
      if Eval(a, subj, s).Match? { ShapeMeaning(b, subj, Eval(a, subj, s).end); }
      else { ShapeMeaning(b, subj, s); }
    case Or(a, b) => ShapeMeaning(a, subj, s); ShapeMeaning(b, subj, s);
    case Not(a) => ShapeMeaning(a, subj, s);
    case And(a) => ShapeMeaning(a, subj, s);
    case AtLeast(a, n) => ShapeMeaning(a, subj, s);
    case _ =>
  }

  lemma {:induction false} LiterallyConsumes(text: seq<Byte>, subj: Subject, s: int)
    requires 0 <= s <= |subj|
    ensures Literally(text, subj, s).Match? ==> Literally(text, subj, s).end == s + |text|
    decreases |text|
  {
    if text != [] && s < |subj| && subj[s] == text[0] {
      LiterallyConsumes(text[1..], subj, s + 1);
    }
  }

  /** A pattern that is not nullable never succeeds without advancing. */
  lemma {:induction false} NotNullableAdvances(p: Pattern, subj: Subject, s: int)
    requires 0 <= s <= |subj| && !Nullable(p)
    ensures Eval(p, subj, s).Match? ==> s < Eval(p, subj, s).end
    decreases p
  {
    EvalBounds(p, subj, s);
    match p
    case Literal(text) => LiterallyConsumes(text, subj, s);
    case Seq(a, b) =>
      EvalBounds(a, subj, s);
      if Eval(a, subj, s).Match? {
        EvalBounds(b, subj, Eval(a, subj, s).end);
        if !Nullable(a) { NotNullableAdvances(a, subj, s); }
        else { NotNullableAdvances(b, subj, Eval(a, subj, s).end); }
      }
    case Or(a, b) => NotNullableAdvances(a, subj, s); NotNullableAdvances(b, subj, s);
    case Diff(a, _) => NotNullableAdvances(a, subj, s);
    case AtLeast(a, n) =>
      NotNullableAdvances(a, subj, s);
      if Eval(a, subj, s).Match? && Eval(a, subj, s).end <= |subj| {
        EvalTimesBounds(a, n - 1, subj, Eval(a, subj, s).end);
      }
    case Capturing(a, _, _) => NotNullableAdvances(a, subj, s);
    case Not(a) => ShapeMeaning(a, subj, s);
    case And(a) => ShapeMeaning(a, subj, s);
    case _ =>
  }

  /** Every loop body inside p advances, which is what the compiler checks. */
  predicate LoopsAdvance(p: Pattern) {
    match p
    case Seq(a, b) => LoopsAdvance(a) && LoopsAdvance(b)
    case Or(a, b) => LoopsAdvance(a) && LoopsAdvance(b)
    case Diff(a, b) => LoopsAdvance(a) && LoopsAdvance(b)
    case Not(a) => LoopsAdvance(a)
    case And(a) => LoopsAdvance(a)
    case AtLeast(a, _) => LoopsAdvance(a) && !Nullable(a)
    case AtMost(a, _) => LoopsAdvance(a)
    case Capturing(a, _, _) => LoopsAdvance(a)
    case _ => true
  }
}
