/** What the ways to match are: exactly the ways that the items allow, free of errors for patterns that
    are well formed, with captures inside the subject, the longest or the shortest repetition first. */
module PatternTheory {
  import opened PatternItems
  import opened PatternMatch

  // ---------- the ways are those that the items allow ----------

  predicate AllMembers(src: string, cs: CharSet, s: nat, t: nat) {
    s <= t <= |src| && forall i :: s <= i < t ==> Member(cs, src[i])
  }

  predicate Count(rep: Rep, n: nat) {
    match rep case Once => n == 1 case Optional => n <= 1 case Star => true case Plus => n >= 1 case Lazy => true
  }

  /** The items can match from s to e, with captures caps before and caps2 after, in some way. */
  ghost predicate Fits(src: string, items: seq<Item>, s: nat, caps: seq<Cap>, e: nat, caps2: seq<Cap>)
    requires s <= |src|
    decreases |items|
  {
    if items == [] then e == s && caps2 == caps
    else
      var rest := items[1..];
      match items[0]
      case Malformed => false
      case AtEnd => s == |src| && Fits(src, rest, s, caps, e, caps2)
      case OpenCap => |caps| < MAXCAPTURES && Fits(src, rest, s, caps + [Cap(s, CAP_UNFINISHED)], e, caps2)
      case PositionCap => |caps| < MAXCAPTURES && Fits(src, rest, s, caps + [Cap(s, CAP_POSITION)], e, caps2)
      case CloseCap => exists l: nat :: LastOpen(caps, l) && Fits(src, rest, s, caps[l := Cap(caps[l].init, s - caps[l].init)], e, caps2)
      case Balance(b, c) => exists j: nat :: Balanced(src, b, c, s, j) && Fits(src, rest, j, caps, e, caps2)
      case Frontier(cs) =>
        && !Member(cs, if s > 0 then src[s - 1] else '\0') && Member(cs, if s < |src| then src[s] else '\0') && Fits(src, rest, s, caps, e, caps2)
      case BackRef(c) =>
        exists k: nat :: c as int == '1' as int + k && ComesAgain(src, caps, k, s) && Fits(src, rest, s + caps[k].len, caps, e, caps2)
      case Chars(cs, rep) => exists t: nat :: AllMembers(src, cs, s, t) && Count(rep, t - s) && Fits(src, rest, t, caps, e, caps2)
  }

  /** Capture k is closed, and its text comes again at s. */
  predicate ComesAgain(src: string, caps: seq<Cap>, k: nat, s: nat) {
    k < |caps| && 0 <= caps[k].len && s + caps[k].len <= |src| && caps[k].init + caps[k].len <= |src|
    && src[s..s + caps[k].len] == src[caps[k].init..caps[k].init + caps[k].len]
  }

  predicate LastOpen(caps: seq<Cap>, l: nat) {
    l < |caps| && caps[l].len == CAP_UNFINISHED && forall j :: l < j < |caps| ==> caps[j].len != CAP_UNFINISHED
  }

  /** Openings minus closings; a character that is both closes. */
  function Depth(src: string, b: char, e: char, i: nat, j: nat): int
    requires i <= j <= |src|
    decreases j - i
  {
    if i == j then 0 else (if src[i] == e then -1 else if src[i] == b then 1 else 0) + Depth(src, b, e, i + 1, j)
  }

  /** The string from s to j starts with an opening and is balanced, and no shorter one is. */
  ghost predicate Balanced(src: string, b: char, e: char, s: nat, j: nat) {
    At(src, s) == b && s < j <= |src| && FirstClose(src, b, e, s + 1, 1, j)
  }

  /** The depth is 0 at j for the first time. */
  ghost predicate FirstClose(src: string, b: char, e: char, s: nat, depth: nat, j: nat) {
    s < j <= |src| && depth + Depth(src, b, e, s, j) == 0 && forall i :: s <= i < j ==> Above(src, b, e, s, depth, i)
  }

  predicate Above(src: string, b: char, e: char, s: nat, depth: nat, i: nat) { s <= i <= |src| && depth + Depth(src, b, e, s, i) > 0 }

  lemma {:induction false} BalanceExact(src: string, b: char, e: char, s: nat, depth: nat, j: nat)
    requires s <= |src| && depth > 0
    ensures BalanceEnd(src, b, e, s, depth) == Some(j) <==> FirstClose(src, b, e, s, depth, j)
    decreases |src| - s
  {
    if s < |src| {
      var d: nat := if src[s] == e then depth - 1 else if src[s] == b then depth + 1 else depth;
      if d == 0 {
        assert Depth(src, b, e, s, s + 1) == -1 + Depth(src, b, e, s + 1, s + 1);
        assert FirstClose(src, b, e, s, depth, j) && j > s + 1 ==> Above(src, b, e, s, depth, s + 1);
        if j == s + 1 { assert Above(src, b, e, s, depth, s); }
      } else {
        BalanceExact(src, b, e, s + 1, d, j);
        if FirstClose(src, b, e, s + 1, d, j) {
          forall i | s <= i < j ensures Above(src, b, e, s, depth, i) {
            if i > s { assert Above(src, b, e, s + 1, d, i); }
          }
        }
        if FirstClose(src, b, e, s, depth, j) {
          assert Depth(src, b, e, s, s + 1) == d - depth + Depth(src, b, e, s + 1, s + 1);
          var s1 := s + 1;
          forall i | s1 <= i < j ensures Above(src, b, e, s1, d, i) { AboveLater(src, b, e, s, depth, d, i); }
        }
      }
    }
  }

  lemma AboveLater(src: string, b: char, e: char, s: nat, depth: nat, d: nat, i: nat)
    requires Above(src, b, e, s, depth, i) && s < i && d - depth == (if src[s] == e then -1 else if src[s] == b then 1 else 0)
    ensures Above(src, b, e, s + 1, d, i)
  {
  }

  lemma {:induction false} RunExact(src: string, cs: CharSet, s: nat, t: nat)
    requires s <= t && s <= |src|
    ensures AllMembers(src, cs, s, t) <==> t <= s + RunLength(src, cs, s)
    decreases t - s
  {
    if s < t {
      AllMembersMore(src, cs, s, t);
      if OneMore(src, cs, s) { RunExact(src, cs, s + 1, t); }
    }
  }

  lemma AllMembersMore(src: string, cs: CharSet, s: nat, t: nat)
    requires s < t
    ensures AllMembers(src, cs, s, t) <==> OneMore(src, cs, s) && AllMembers(src, cs, s + 1, t)
  {
    if AllMembers(src, cs, s, t) { assert Member(cs, src[s]); }
  }

  predicate WayAt(src: string, items: seq<Item>, t: nat, caps: seq<Cap>, w: Way) { t <= |src| && w in Ways(src, items, t, caps) }

  lemma {:induction false} InLongest(src: string, items: seq<Item>, s: nat, n: nat, caps: seq<Cap>, w: Way)
    requires s + n <= |src|
    ensures w in Longest(src, items, s, n, caps) <==> exists t: nat :: s <= t <= s + n && WayAt(src, items, t, caps, w)
    decreases n
  {
    hide Ways;
    assert w in Ways(src, items, s + n, caps) <==> WayAt(src, items, s + n, caps, w);
    if n > 0 { InLongest(src, items, s, n - 1, caps, w); }
  }

  lemma {:induction false} InShortest(src: string, cs: CharSet, items: seq<Item>, s: nat, caps: seq<Cap>, w: Way)
    requires s <= |src|
    ensures w in Shortest(src, cs, items, s, caps) <==> exists t: nat :: AllMembers(src, cs, s, t) && WayAt(src, items, t, caps, w)
    decreases |src| - s
  {
    hide Ways;
    assert w in Ways(src, items, s, caps) <==> WayAt(src, items, s, caps, w);
    assert AllMembers(src, cs, s, s);
    forall t: nat | s < t ensures AllMembers(src, cs, s, t) <==> OneMore(src, cs, s) && AllMembers(src, cs, s + 1, t) { AllMembersMore(src, cs, s, t); }
    if OneMore(src, cs, s) { InShortest(src, cs, items, s + 1, caps, w); }
  }

  /** Every way to match that the items allow is found, and nothing else is. */
  lemma {:induction false} WaysExact(src: string, items: seq<Item>, s: nat, caps: seq<Cap>, e: nat, caps2: seq<Cap>)
    requires s <= |src|
    ensures Way(e, caps2) in Ways(src, items, s, caps) <==> Fits(src, items, s, caps, e, caps2)
    decreases |items|, 0
  {
    if items != [] {
      var rest := items[1..];
      match items[0]
      case Malformed =>
      case AtEnd => WaysExact(src, rest, s, caps, e, caps2);
      case OpenCap => WaysExact(src, rest, s, caps + [Cap(s, CAP_UNFINISHED)], e, caps2);
      case PositionCap => WaysExact(src, rest, s, caps + [Cap(s, CAP_POSITION)], e, caps2);
      case CloseCap => CloseExact(src, rest, s, caps, e, caps2);
      case Balance(b, c) => BalancedItemExact(src, b, c, rest, s, caps, e, caps2);
      case Frontier(_) => WaysExact(src, rest, s, caps, e, caps2);
      case BackRef(c) => if Refers(c, caps) && Repeats(src, caps[CaptureIndex(c)], s) { WaysExact(src, rest, s + caps[CaptureIndex(c)].len, caps, e, caps2); }
      case Chars(cs, rep) => CharsExact(src, cs, rep, rest, s, caps, e, caps2);
    }
  }

  lemma {:induction false} CloseExact(src: string, rest: seq<Item>, s: nat, caps: seq<Cap>, e: nat, caps2: seq<Cap>)
    requires s <= |src|
    ensures Way(e, caps2) in ItemWays(src, CloseCap, rest, s, caps) <==> exists l: nat :: LastOpen(caps, l) && Fits(src, rest, s, caps[l := Cap(caps[l].init, s - caps[l].init)], e, caps2)
    decreases |rest|, 1
  {
    var o := OpenCapture(caps);
    if o.Some? {
      assert LastOpen(caps, o.value) && forall l: nat :: LastOpen(caps, l) ==> l == o.value;
      WaysExact(src, rest, s, Closed(caps, o.value, s), e, caps2);
    } else {
      assert forall l: nat :: !LastOpen(caps, l);
    }
  }

  lemma {:induction false} BalancedItemExact(src: string, b: char, c: char, rest: seq<Item>, s: nat, caps: seq<Cap>, e: nat, caps2: seq<Cap>)
    requires s <= |src|
    ensures Way(e, caps2) in ItemWays(src, Balance(b, c), rest, s, caps) <==> exists j: nat :: Balanced(src, b, c, s, j) && Fits(src, rest, j, caps, e, caps2)
    decreases |rest|, 1
  {
    hide Ways, Fits, FirstClose;
    if s < |src| {
      forall j: nat ensures Balanced(src, b, c, s, j) <==> At(src, s) == b && BalanceEndAt(src, b, c, s) == Some(j) { BalanceExact(src, b, c, s + 1, 1, j); }
      if BalanceEndAt(src, b, c, s).Some? { WaysExact(src, rest, BalanceEndAt(src, b, c, s).value, caps, e, caps2); }
    }
  }

  lemma {:induction false} CharsExact(src: string, cs: CharSet, rep: Rep, rest: seq<Item>, s: nat, caps: seq<Cap>, e: nat, caps2: seq<Cap>)
    requires s <= |src|
    ensures Way(e, caps2) in ItemWays(src, Chars(cs, rep), rest, s, caps) <==> exists t: nat :: AllMembers(src, cs, s, t) && Count(rep, t - s) && Fits(src, rest, t, caps, e, caps2)
    decreases |rest|, 1
  {
    hide Ways, Fits, Longest, Shortest, AllMembers;
    var w := Way(e, caps2);
    forall t: nat | t <= |src| ensures WayAt(src, rest, t, caps, w) <==> Fits(src, rest, t, caps, e, caps2) { WaysExact(src, rest, t, caps, e, caps2); }
    MembersAfter(src, cs, s);
    forall t: nat | s <= t ensures AllMembers(src, cs, s, t) <==> t <= s + RunLength(src, cs, s) { RunExact(src, cs, s, t); }
    CharsWays(src, cs, rep, rest, s, caps, w);
    if t: nat :| AllMembers(src, cs, s, t) && Count(rep, t - s) && WayAt(src, rest, t, caps, w) { assert Fits(src, rest, t, caps, e, caps2); }
    if t: nat :| AllMembers(src, cs, s, t) && Count(rep, t - s) && Fits(src, rest, t, caps, e, caps2) { assert WayAt(src, rest, t, caps, w); }
  }

  /** The ways of a repetition are the ways to go on after an allowed number of characters. */
  lemma CharsWays(src: string, cs: CharSet, rep: Rep, rest: seq<Item>, s: nat, caps: seq<Cap>, w: Way)
    requires s <= |src|
    ensures w in ItemWays(src, Chars(cs, rep), rest, s, caps) <==> exists t: nat :: AllMembers(src, cs, s, t) && Count(rep, t - s) && WayAt(src, rest, t, caps, w)
  {
    hide Ways, Longest, Shortest, AllMembers;
    MembersAfter(src, cs, s);
    forall t: nat | s <= t ensures AllMembers(src, cs, s, t) <==> t <= s + RunLength(src, cs, s) { RunExact(src, cs, s, t); }
    assert WayAt(src, rest, s, caps, w) <==> w in Ways(src, rest, s, caps);
    match rep
    case Once => OneExact(src, cs, s);
    case Optional => OneExact(src, cs, s);
    case Star => InLongest(src, rest, s, RunLength(src, cs, s), caps, w);
    case Plus =>
      if OneMore(src, cs, s) { InLongest(src, rest, s + 1, RunLength(src, cs, s + 1), caps, w); }
    case Lazy => InShortest(src, cs, rest, s, caps, w);
  }

  lemma MembersAfter(src: string, cs: CharSet, s: nat)
    ensures forall t: nat :: AllMembers(src, cs, s, t) ==> s <= t <= |src|
  {
  }

  lemma OneExact(src: string, cs: CharSet, s: nat)
    ensures AllMembers(src, cs, s, s + 1) <==> OneMore(src, cs, s)
    ensures s <= |src| ==> AllMembers(src, cs, s, s)
  {
  }

  // ---------- errors and captures ----------

  /** Which captures are open. */
  function Shape(caps: seq<Cap>): (r: seq<bool>)
    ensures |r| == |caps|
  {
    seq(|caps|, i requires 0 <= i < |caps| => caps[i].len == CAP_UNFINISHED)
  }

  function LastTrue(shape: seq<bool>): (r: Option<nat>)
    ensures r.Some? ==> r.value < |shape|
  {
    if shape == [] then None else if shape[|shape| - 1] then Some(|shape| - 1) else LastTrue(shape[..|shape| - 1])
  }

  /** The captures that are open after an item, which the text of the pattern determines; None if the
      item is an error. */
  function ShapeAfter(item: Item, shape: seq<bool>): Option<seq<bool>> {
    match item
    case Malformed => None
    case OpenCap => if |shape| < MAXCAPTURES then Some(shape + [true]) else None
    case PositionCap => if |shape| < MAXCAPTURES then Some(shape + [false]) else None
    case CloseCap => if LastTrue(shape).Some? then Some(shape[LastTrue(shape).value := false]) else None
    case BackRef(c) => if 0 <= CaptureIndex(c) < |shape| && !shape[CaptureIndex(c)] then Some(shape) else None
    case _ => Some(shape)
  }

  function FinalShape(items: seq<Item>, shape: seq<bool>): Option<seq<bool>> {
    if items == [] then Some(shape)
    else match ShapeAfter(items[0], shape) case None => None case Some(next) => FinalShape(items[1..], next)
  }

  /** A pattern is well formed if every item is, counting captures, and no capture stays open. */
  predicate WellFormed(items: seq<Item>) {
    var shape := FinalShape(items, []);
    shape.Some? && forall j :: 0 <= j < |shape.value| ==> !shape.value[j]
  }

  lemma {:induction false} LastTrueExact(caps: seq<Cap>)
    ensures LastTrue(Shape(caps)) == OpenCapture(caps)
    decreases |caps|
  {
    if caps != [] {
      var short := caps[..|caps| - 1];
      assert Shape(caps)[..|caps| - 1] == Shape(short);
      LastTrueExact(short);
    }
  }

  /** One item: what it does to the captures, and to the place. */
  ghost predicate Goes(src: string, item: Item, s: nat, caps: seq<Cap>, t: nat, caps2: seq<Cap>) {
    && s <= t <= |src|
    && ShapeAfter(item, Shape(caps)) == Some(Shape(caps2))
    && CapsOk(caps2, t)
  }

  /** Every way comes from one step of the first item, and a fault only from an item that is an error. */
  lemma FirstStep(src: string, item: Item, rest: seq<Item>, s: nat, caps: seq<Cap>, w: Way) returns (t: nat, caps2: seq<Cap>)
    requires s <= |src| && w in ItemWays(src, item, rest, s, caps) && CapsOk(caps, s)
    ensures ShapeAfter(item, Shape(caps)).None? ==> w == Fault
    ensures ShapeAfter(item, Shape(caps)).Some? ==> Goes(src, item, s, caps, t, caps2) && w in Ways(src, rest, t, caps2)
  {
    hide Ways;
    t, caps2 := s, caps;
    match item
    case Malformed =>
    case OpenCap =>
      caps2 := caps + [Cap(s, CAP_UNFINISHED)];
      if |caps| < MAXCAPTURES { assert Shape(caps2) == Shape(caps) + [true]; }
    case PositionCap =>
      caps2 := caps + [Cap(s, CAP_POSITION)];
      if |caps| < MAXCAPTURES { assert Shape(caps2) == Shape(caps) + [false]; }
    case CloseCap =>
      LastTrueExact(caps);
      if OpenCapture(caps).Some? { caps2 := ClosedShape(caps, OpenCapture(caps).value, s); }
    case Balance(b, e) =>
      t := BalanceEndAt(src, b, e, s).value;
      MoveOn(caps, s, t);
    case BackRef(c) =>
      if Refers(c, caps) { t := s + caps[CaptureIndex(c)].len; MoveOn(caps, s, t); }
    case Chars(cs, rep) =>
      CharsWays(src, cs, rep, rest, s, caps, w);
      t :| AllMembers(src, cs, s, t) && Count(rep, t - s) && WayAt(src, rest, t, caps, w);
      MoveOn(caps, s, t);
    case _ =>
  }

  lemma MoveOn(caps: seq<Cap>, s: nat, t: nat)
    requires s <= t
    ensures CapsOk(caps, s) ==> CapsOk(caps, t)
  {
  }

  lemma ClosedShape(caps: seq<Cap>, l: nat, s: nat) returns (caps2: seq<Cap>)
    requires l < |caps| && caps[l].len == CAP_UNFINISHED && CapsOk(caps, s)
    ensures caps2 == Closed(caps, l, s) && Shape(caps2) == Shape(caps)[l := false] && CapsOk(caps2, s)
  {
    caps2 := Closed(caps, l, s);
    assert CapOk(caps[l], s);
    assert forall j :: 0 <= j < |caps| ==> Shape(caps2)[j] == Shape(caps)[l := false][j];
    forall j | 0 <= j < |caps2| ensures CapOk(caps2[j], s) { assert CapOk(caps[j], s); }
  }

  /** A way of a pattern whose captures are in order ends inside the subject, with its captures inside
      what is matched, and with the captures open that the text of the pattern says. */
  lemma {:induction false} WaysInOrder(src: string, items: seq<Item>, s: nat, caps: seq<Cap>, w: Way)
    requires s <= |src| && CapsOk(caps, s) && w in Ways(src, items, s, caps)
    ensures FinalShape(items, Shape(caps)).Some? ==> w.Way? && Shape(w.caps) == FinalShape(items, Shape(caps)).value
    ensures w.Way? ==> s <= w.end <= |src| && CapsOk(w.caps, w.end)
    decreases |items|
  {
    if items != [] {
      var t, caps2 := FirstStep(src, items[0], items[1..], s, caps, w);
      if ShapeAfter(items[0], Shape(caps)).Some? { WaysInOrder(src, items[1..], t, caps2, w); }
    }
  }

  /** A well-formed pattern never raises an error, and every match has all captures closed and inside
      the part of the subject that is before its end. */
  lemma WellFormedIsSafe(src: string, items: seq<Item>, s: nat, w: Way)
    requires s <= |src| && WellFormed(items) && w in Ways(src, items, s, [])
    ensures w.Way? && s <= w.end <= |src|
    ensures forall j :: 0 <= j < |w.caps| ==> w.caps[j].len != CAP_UNFINISHED && CapOk(w.caps[j], w.end)
  {
    WaysInOrder(src, items, s, [], w);
    assert Shape([]) == [];
    forall j | 0 <= j < |w.caps| ensures w.caps[j].len != CAP_UNFINISHED { assert !Shape(w.caps)[j]; }
  }

  // ---------- the longest and the shortest repetition ----------

  /** Nothing can follow the repetition if it ends in any of the places. */
  ghost predicate DeadEnds(src: string, items: seq<Item>, caps: seq<Cap>, from: nat, to: int) {
    forall t: nat :: from <= t <= to ==> DeadEnd(src, items, caps, t)
  }

  ghost predicate DeadEnd(src: string, items: seq<Item>, caps: seq<Cap>, t: nat) { t <= |src| && Ways(src, items, t, caps) == [] }

  /** w is the first way to go on from t. */
  ghost predicate GoesOn(src: string, items: seq<Item>, caps: seq<Cap>, t: nat, w: Way) {
    t <= |src| && Ways(src, items, t, caps) != [] && Ways(src, items, t, caps)[0] == w
  }

  /** max_expand: the first way is one that goes on after the largest number of repetitions that works. */
  lemma {:induction false} LongestFirst(src: string, items: seq<Item>, s: nat, n: nat, caps: seq<Cap>)
    requires s + n <= |src|
    ensures Longest(src, items, s, n, caps) == [] <==> DeadEnds(src, items, caps, s, s + n)
    ensures Longest(src, items, s, n, caps) != [] ==>
              exists t: nat :: GoesOn(src, items, caps, t, Longest(src, items, s, n, caps)[0]) && s <= t <= s + n && DeadEnds(src, items, caps, t + 1, s + n)
    decreases n
  {
    var all, last := Longest(src, items, s, n, caps), s + n;
    hide Ways, DeadEnds;
    DeadEndsTo(src, items, caps, s, last);
    NoDeadEnds(src, items, caps, last + 1, last);
    if DeadEnd(src, items, caps, last) {
      if n > 0 {
        LongestFirst(src, items, s, n - 1, caps);
        assert all == Longest(src, items, s, n - 1, caps);
        if all != [] {
          var t: nat :| GoesOn(src, items, caps, t, all[0]) && s <= t <= last - 1 && DeadEnds(src, items, caps, t + 1, last - 1);
          DeadEndsTo(src, items, caps, t + 1, last);
        }
      } else {
        NoDeadEnds(src, items, caps, s, last - 1);
      }
    } else {
      assert GoesOn(src, items, caps, last, all[0]);
    }
  }

  lemma DeadEndsTo(src: string, items: seq<Item>, caps: seq<Cap>, from: nat, to: nat)
    requires from <= to
    ensures DeadEnds(src, items, caps, from, to) <==> DeadEnds(src, items, caps, from, to - 1) && DeadEnd(src, items, caps, to)
  {
    hide DeadEnd;
  }

  lemma NoDeadEnds(src: string, items: seq<Item>, caps: seq<Cap>, from: nat, to: int)
    requires to < from
    ensures DeadEnds(src, items, caps, from, to)
  {
  }

  /** min_expand: the first way is one that goes on after the smallest number that works. */
  lemma {:induction false} ShortestFirst(src: string, cs: CharSet, items: seq<Item>, s: nat, caps: seq<Cap>)
    requires s <= |src|
    ensures Shortest(src, cs, items, s, caps) == [] <==> DeadEnds(src, items, caps, s, s + RunLength(src, cs, s))
    ensures Shortest(src, cs, items, s, caps) != [] ==>
              exists t: nat :: GoesOn(src, items, caps, t, Shortest(src, cs, items, s, caps)[0]) && s <= t <= s + RunLength(src, cs, s) && DeadEnds(src, items, caps, s, t - 1)
    decreases |src| - s
  {
    hide Ways, DeadEnds, DeadEnd, GoesOn, Shortest, RunLength, OneMore;
    var all, last := Shortest(src, cs, items, s, caps), s + RunLength(src, cs, s);
    ShortestStep(src, cs, items, s, caps);
    DeadEndsFrom(src, items, caps, s, last);
    NoDeadEnds(src, items, caps, s, s - 1);
    if DeadEnd(src, items, caps, s) {
      DeadEndsFrom(src, items, caps, s, s);
      NoDeadEnds(src, items, caps, s + 1, s);
      if OneMore(src, cs, s) {
        ShortestFirst(src, cs, items, s + 1, caps);
        if all != [] {
          var t: nat :| GoesOn(src, items, caps, t, all[0]) && s + 1 <= t <= last && DeadEnds(src, items, caps, s + 1, t - 1);
          DeadEndsFrom(src, items, caps, s, t - 1);
        }
      }
    }
  }

  /** What min_expand tries first: to go on from here, then one more. */
  lemma ShortestStep(src: string, cs: CharSet, items: seq<Item>, s: nat, caps: seq<Cap>)
    requires s <= |src|
    ensures var all := Shortest(src, cs, items, s, caps);
      if !DeadEnd(src, items, caps, s) then all != [] && GoesOn(src, items, caps, s, all[0])
      else if OneMore(src, cs, s) then s < |src| && all == Shortest(src, cs, items, s + 1, caps) && RunLength(src, cs, s) == 1 + RunLength(src, cs, s + 1)
      else all == [] && RunLength(src, cs, s) == 0
  {
    hide Ways;
  }

  lemma DeadEndsFrom(src: string, items: seq<Item>, caps: seq<Cap>, from: nat, to: int)
    requires from <= to
    ensures DeadEnds(src, items, caps, from, to) <==> DeadEnd(src, items, caps, from) && DeadEnds(src, items, caps, from + 1, to)
  {
    hide DeadEnd;
  }
}
