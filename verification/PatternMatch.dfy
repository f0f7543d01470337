/** The pattern matcher in its own form: recursion over the pattern text, with captures that are set
    and undone in place.  It returns the first of all the ways to match. */
module PatternMatch {
  import opened PatternItems

  datatype Result = Error | NoMatch | End(e: nat)

  /** Captures lie before s, and inside the subject. */
  predicate CapsOk(caps: seq<Cap>, s: nat) {
    forall j :: 0 <= j < |caps| ==> CapOk(caps[j], s)
  }

  predicate CapOk(c: Cap, s: nat) { c.init <= s && CAP_POSITION <= c.len && (c.len >= 0 ==> c.init + c.len <= s) }

  /** r and the captures after the call are the first way; without one the captures are unchanged. */
  predicate IsFirst(r: Result, caps: seq<Cap>, ways: seq<Way>, before: seq<Cap>) {
    if ways == [] then r == NoMatch && caps == before
    else match ways[0]
         case Fault => r == Error
         case Way(e, c) => r == End(e) && caps == c
  }

  class MatchState {
    const src: string
    const pat: string
    const capture: array<Cap>
    var level: nat

    ghost predicate Valid()
      reads this
    {
      capture.Length == MAXCAPTURES && level <= MAXCAPTURES
    }

    ghost function Caps(): seq<Cap>
      reads this, capture
      requires Valid()
    {
      capture[..level]
    }

    // ---------- single characters ----------

    /** classend. */
    method ClassEnd(p0: nat) returns (r: Option<nat>)
      requires p0 < |pat|
      ensures r == ItemEnd(pat, p0)
    {
      var p := p0 + 1;
      if pat[p0] == ESC {
        return if At(pat, p) == '\0' then None else Some(p + 1);
      } else if pat[p0] == '[' {
        if At(pat, p) == '^' { p := p + 1; }
        ghost var start := p;
        while true
          invariant p <= |pat| && BracketEnd(pat, start) == BracketEnd(pat, p)
          decreases |pat| - p
        {
          if At(pat, p) == '\0' { return None; }
          p := p + 1;
          if pat[p - 1] == ESC && At(pat, p) != '\0' { p := p + 1; }
          if At(pat, p) == ']' { return Some(p + 1); }
        }
      } else {
        r := Some(p);
      }
    }

    /** matchbracketclass, on the set between the brackets at p0 and ec. */
    method MatchBracketClass(c: char, p0: nat, ec: nat) returns (r: bool)
      requires p0 < ec < |pat| && pat[p0] == '['
      ensures r == Member(SetAt(pat, p0, ec + 1), c)
    {
      SetHasElement(pat, p0, ec, c);
      var sig, p := true, p0;
      if At(pat, p + 1) == '^' { sig, p := false, p + 1; }
      p := p + 1;
      ghost var start := p;
      hide InClass, SetAt;
      while p < ec
        invariant p <= ec + 1 && HasElement(pat, p, ec, c) == HasElement(pat, start, ec, c)
        decreases ec - p
      {
        if pat[p] == ESC {
          p := p + 1;
          if InClass(c, At(pat, p)) { return sig; }
        } else if At(pat, p + 1) == '-' && p + 2 < ec {
          p := p + 2;
          if pat[p - 2] <= c <= pat[p] { return sig; }
        } else if pat[p] == c { return sig; }
        p := p + 1;
      }
      r := !sig;
    }

    /** singlematch. */
    method SingleMatch(c: char, p: nat, ep: nat) returns (r: bool)
      requires p < |pat| && ItemEnd(pat, p) == Some(ep)
      ensures r == Member(SetAt(pat, p, ep), c)
    {
      if pat[p] == '.' { r := true; }
      else if pat[p] == ESC { r := InClass(c, At(pat, p + 1)); }
      else if pat[p] == '[' { r := MatchBracketClass(c, p, ep - 1); }
      else { r := pat[p] == c; }
    }

    /** matchbalance. */
    method MatchBalance(s0: nat, p: nat) returns (error: bool, r: Option<nat>)
      requires s0 <= |src|
      ensures error == (At(pat, p) == '\0' || At(pat, p + 1) == '\0')
      ensures !error ==> r == if At(src, s0) != At(pat, p) then None else BalanceEndAt(src, At(pat, p), At(pat, p + 1), s0)
    {
      if At(pat, p) == '\0' || At(pat, p + 1) == '\0' { return true, None; }
      if At(src, s0) != At(pat, p) { return false, None; }
      var b, e := At(pat, p), At(pat, p + 1);
      var cont: nat, s := 1, s0 + 1;
      while s < |src|
        invariant s0 < s <= |src| && cont > 0 && BalanceEnd(src, b, e, s, cont) == BalanceEnd(src, b, e, s0 + 1, 1)
        decreases |src| - s
      {
        if src[s] == e {
          cont := cont - 1;
          if cont == 0 { return false, Some(s + 1); }
        } else if src[s] == b { cont := cont + 1; }
        s := s + 1;
      }
      return false, None;
    }

    // ---------- captures ----------

    /** capture_to_close. */
    method CaptureToClose() returns (r: Option<nat>)
      requires Valid()
      ensures r == OpenCapture(Caps())
    {
      var l := level;
      while l > 0
        invariant Valid() && 0 <= l <= level && OpenCapture(capture[..l]) == OpenCapture(capture[..level])
      {
        assert capture[..l][..l - 1] == capture[..l - 1];
        l := l - 1;
        if capture[l].len == CAP_UNFINISHED { return Some(l); }
      }
      r := None;
    }

    /** check_capture and match_capture. */
    method MatchCapture(s: nat, c: char) returns (error: bool, r: Option<nat>)
      requires Valid() && s <= |src| && CapsOk(Caps(), s)
      ensures error == !Refers(c, Caps())
      ensures !error ==> r == if Repeats(src, Caps()[CaptureIndex(c)], s) then Some(s + Caps()[CaptureIndex(c)].len) else None
    {
      var l := c as int - '1' as int;
      if l < 0 || l >= level || capture[l].len == CAP_UNFINISHED { return true, None; }
      var cap := capture[l];
      assert CapOk(Caps()[l], s);
      if 0 <= cap.len && |src| - s >= cap.len && src[cap.init..cap.init + cap.len] == src[s..s + cap.len] { r := Some(s + cap.len); }
      else { r := None; }
      error := false;
    }

    // ---------- the matcher ----------

    /** start_capture. */
    method StartCapture(s: nat, p: nat, what: int) returns (r: Result)
      requires Valid() && s <= |src| && p <= |pat| && CapsOk(Caps(), s) && (what == CAP_POSITION || what == CAP_UNFINISHED)
      modifies this`level, capture
      ensures Valid()
      ensures |old(Caps())| >= MAXCAPTURES ==> r == Error
      ensures |old(Caps())| < MAXCAPTURES ==> IsFirst(r, Caps(), Ways(src, Parse(pat, p), s, old(Caps()) + [Cap(s, what)]), old(Caps()))
      decreases |pat| - p, 1
    {
      ghost var caps := Caps();
      if level >= MAXCAPTURES { return Error; }
      capture[level] := Cap(s, what);
      level := level + 1;
      assert Caps() == caps + [Cap(s, what)];
      r := Match(s, p);
      if r == NoMatch {
        level := level - 1;
        assert Caps() == (caps + [Cap(s, what)])[..|caps|];
      }
    }

    /** end_capture. */
    method EndCapture(s: nat, p: nat) returns (r: Result)
      requires Valid() && s <= |src| && p <= |pat| && CapsOk(Caps(), s)
      modifies this`level, capture
      ensures Valid()
      ensures OpenCapture(old(Caps())).None? ==> r == Error
      ensures OpenCapture(old(Caps())).Some? ==> IsFirst(r, Caps(), Ways(src, Parse(pat, p), s, Closed(old(Caps()), OpenCapture(old(Caps())).value, s)), old(Caps()))
      decreases |pat| - p, 1
    {
      hide IsFirst, Ways, Parse, OpenCapture;
      ghost var caps := Caps();
      var o := CaptureToClose();
      if o.None? { return Error; }
      var l := o.value;
      assert CapOk(caps[l], s);
      capture[l] := capture[l].(len := s - capture[l].init);
      assert Caps() == Closed(caps, l, s);
      r := Match(s, p);
      if r == NoMatch {
        NoMatchKeeps(r, Caps(), Ways(src, Parse(pat, p), s, Closed(caps, l, s)), Closed(caps, l, s), caps);
        capture[l] := capture[l].(len := CAP_UNFINISHED);
        assert Caps() == caps;
      }
      AnyBefore(r, Caps(), Ways(src, Parse(pat, p), s, Closed(caps, l, s)), Closed(caps, l, s), caps);
    }

    /** max_expand. */
    method MaxExpand(s: nat, p: nat, ep: nat) returns (r: Result)
      requires Valid() && s <= |src| && p < ep < |pat| && ItemEnd(pat, p) == Some(ep) && CapsOk(Caps(), s)
      modifies this`level, capture
      ensures Valid()
      ensures IsFirst(r, Caps(), Longest(src, Parse(pat, ep + 1), s, RunLength(src, SetAt(pat, p, ep), s), old(Caps())), old(Caps()))
      decreases |pat| - (ep + 1), 1
    {
      hide IsFirst, CapsOk, Ways, Longest, Parse, SetAt, RunLength, ItemEnd;
      var i := CountRun(s, p, ep);
      ghost var caps, items, all := Caps(), Parse(pat, ep + 1), Longest(src, Parse(pat, ep + 1), s, i, Caps());
      while true
        invariant Valid() && 0 <= i && s + i <= |src| && Caps() == caps && Longest(src, items, s, i, caps) == all
        decreases i
      {
        CapsLater(caps, s, s + i);
        r := Match(s + i, ep + 1);
        FirstLongest(src, items, s, i, caps, r, Caps());
        if r != NoMatch { return; }
        if i == 0 { return; }
        i := i - 1;
      }
    }

    /** The first loop of max_expand. */
    method CountRun(s: nat, p: nat, ep: nat) returns (i: nat)
      requires s <= |src| && p < |pat| && ItemEnd(pat, p) == Some(ep)
      ensures i == RunLength(src, SetAt(pat, p, ep), s)
    {
      ghost var cs := SetAt(pat, p, ep);
      i := 0;
      while s + i < |src|
        invariant s + i <= |src| && RunLength(src, cs, s) == i + RunLength(src, cs, s + i)
        decreases |src| - i
      {
        var m := SingleMatch(src[s + i], p, ep);
        if !m { break; }
        i := i + 1;
      }
    }

    /** min_expand. */
    method MinExpand(s0: nat, p: nat, ep: nat) returns (r: Result)
      requires Valid() && s0 <= |src| && p < ep < |pat| && ItemEnd(pat, p) == Some(ep) && CapsOk(Caps(), s0)
      modifies this`level, capture
      ensures Valid()
      ensures IsFirst(r, Caps(), Shortest(src, SetAt(pat, p, ep), Parse(pat, ep + 1), s0, old(Caps())), old(Caps()))
      decreases |pat| - (ep + 1), 1
    {
      hide IsFirst, CapsOk, Ways, Shortest, Parse, SetAt, ItemEnd;
      ghost var caps, items, cs := Caps(), Parse(pat, ep + 1), SetAt(pat, p, ep);
      var s := s0;
      while true
        invariant Valid() && s0 <= s <= |src| && Caps() == caps
        invariant Shortest(src, cs, items, s, caps) == Shortest(src, cs, items, s0, caps)
        decreases |src| - s
      {
        CapsLater(caps, s0, s);
        r := Match(s, ep + 1);
        FirstShortest(src, cs, items, s, caps, r, Caps());
        if r != NoMatch { return; }
        if s >= |src| { return; }
        var m := SingleMatch(src[s], p, ep);
        if !m { return; }
        s := s + 1;
      }
    }

    /** match. */
    method Match(s: nat, p: nat) returns (r: Result)
      requires Valid() && s <= |src| && p <= |pat| && CapsOk(Caps(), s)
      modifies this`level, capture
      ensures Valid()
      ensures IsFirst(r, Caps(), Ways(src, Parse(pat, p), s, old(Caps())), old(Caps()))
      decreases |pat| - p, 0
    {
      hide IsFirst, Ways, CapsOk, Longest, Shortest, RunLength, Elements, BracketEnd, ItemEnd, SetAt, Member, BalanceEnd;
      ghost var caps := Caps();
      var c, d := At(pat, p), At(pat, p + 1);
      if c == '(' && d == ')' {
        WaysCons(src, PositionCap, Parse(pat, p + 2), s, caps);
        r := StartCapture(s, p + 2, CAP_POSITION);
        FaultIsFirst(r, Caps(), caps);
      } else if c == '(' {
        WaysCons(src, OpenCap, Parse(pat, p + 1), s, caps);
        r := StartCapture(s, p + 1, CAP_UNFINISHED);
        FaultIsFirst(r, Caps(), caps);
      } else if c == ')' {
        WaysCons(src, CloseCap, Parse(pat, p + 1), s, caps);
        r := EndCapture(s, p + 1);
        FaultIsFirst(r, Caps(), caps);
      } else if c == ESC && d == 'b' {
        r := MatchBalanced(s, p + 2);
      } else if c == ESC && d == 'f' {
        r := MatchFrontier(s, p + 2);
      } else if c == ESC && IsDigit(d) {
        r := MatchBackRef(s, p + 2);
      } else if c == '\0' {
        EndIsFirst(src, s, caps);
        r := End(s);
      } else if c == '$' && d == '\0' {
        WaysCons(src, AtEnd, [], s, caps);
        assert [AtEnd] + [] == [AtEnd];
        EndIsFirst(src, s, caps);
        NoneIsFirst(caps);
        r := if s == |src| then End(s) else NoMatch;
      } else {
        r := MatchDefault(s, p);
      }
    }

    /** match, for %b with its two characters at p. */
    method MatchBalanced(s: nat, p: nat) returns (r: Result)
      requires Valid() && s <= |src| && 2 <= p <= |pat| && CapsOk(Caps(), s) && pat[p - 2] == ESC && pat[p - 1] == 'b'
      modifies this`level, capture
      ensures Valid()
      ensures IsFirst(r, Caps(), Ways(src, Parse(pat, p - 2), s, old(Caps())), old(Caps()))
      decreases |pat| - p, 1
    {
      hide IsFirst, Ways, CapsOk, Longest, Shortest, RunLength, Elements, BracketEnd, ItemEnd, SetAt, Member, BalanceEnd;
      ghost var caps := Caps();
      MalformedIsFault(src, s, caps);
      FaultIsFirst(Error, Caps(), caps);
      NoneIsFirst(caps);
      var error, e := MatchBalance(s, p);
      if error { return Error; }
      WaysCons(src, Balance(At(pat, p), At(pat, p + 1)), Parse(pat, p + 2), s, caps);
      if e.None? { return NoMatch; }
      CapsLater(caps, s, e.value);
      r := Match(e.value, p + 2);
    }

    /** match, for %1 to %9 and %0, the digit being before p. */
    method MatchBackRef(s: nat, p: nat) returns (r: Result)
      requires Valid() && s <= |src| && 2 <= p <= |pat| && CapsOk(Caps(), s) && pat[p - 2] == ESC && IsDigit(pat[p - 1])
      modifies this`level, capture
      ensures Valid()
      ensures IsFirst(r, Caps(), Ways(src, Parse(pat, p - 2), s, old(Caps())), old(Caps()))
      decreases |pat| - p, 1
    {
      hide IsFirst, Ways, CapsOk, Longest, Shortest, RunLength, Elements, BracketEnd, ItemEnd, SetAt, Member, BalanceEnd;
      ghost var caps := Caps();
      FaultIsFirst(Error, Caps(), caps);
      NoneIsFirst(caps);
      var error, e := MatchCapture(s, pat[p - 1]);
      WaysCons(src, BackRef(pat[p - 1]), Parse(pat, p), s, caps);
      if error { return Error; }
      if e.None? { return NoMatch; }
      CapsLater(caps, s, e.value);
      r := Match(e.value, p);
    }

    /** match, for a frontier pattern with its set at p. */
    method MatchFrontier(s: nat, p: nat) returns (r: Result)
      requires Valid() && s <= |src| && 2 <= p <= |pat| && CapsOk(Caps(), s) && pat[p - 2] == ESC && pat[p - 1] == 'f'
      modifies this`level, capture
      ensures Valid()
      ensures IsFirst(r, Caps(), Ways(src, Parse(pat, p - 2), s, old(Caps())), old(Caps()))
      decreases |pat| - p, 1
    {
      hide IsFirst, Ways, CapsOk, Longest, Shortest, RunLength, Elements, BracketEnd, Member, BalanceEnd;
      ghost var caps := Caps();
      MalformedIsFault(src, s, caps);
      FaultIsFirst(Error, Caps(), caps);
      NoneIsFirst(caps);
      if At(pat, p) != '[' { return Error; }
      var ep := ClassEnd(p);
      if ep.None? { return Error; }
      WaysCons(src, Frontier(SetAt(pat, p, ep.value)), Parse(pat, ep.value), s, caps);
      var before := MatchBracketClass(if s == 0 then '\0' else src[s - 1], p, ep.value - 1);
      var after := MatchBracketClass(At(src, s), p, ep.value - 1);
      if before || !after { return NoMatch; }
      r := Match(s, ep.value);
    }

    /** match, for a single-character item and what follows it. */
    method MatchDefault(s: nat, p: nat) returns (r: Result)
      requires Valid() && s <= |src| && p < |pat| && CapsOk(Caps(), s) && IsDefault(pat, p)
      modifies this`level, capture
      ensures Valid()
      ensures IsFirst(r, Caps(), Ways(src, Parse(pat, p), s, old(Caps())), old(Caps()))
      decreases |pat| - p, -1
    {
      hide IsFirst, Ways, CapsOk, Longest, Shortest, RunLength, Parse, ItemEnd, SetAt, Member, IsDefault;
      ghost var caps := Caps();
      MalformedIsFault(src, s, caps);
      FaultIsFirst(Error, Caps(), caps);
      NoneIsFirst(caps);
      DefaultItem(pat, p);
      var end := ClassEnd(p);
      if end.None? { return Error; }
      var ep := end.value;
      var m := s < |src|;
      if m { m := SingleMatch(src[s], p, ep); }
      ghost var cs, next := SetAt(pat, p, ep), if RepAt(pat, ep) == Once then ep else ep + 1;
      WaysCons(src, Chars(cs, RepAt(pat, ep)), Parse(pat, next), s, caps);
      CapsLater(caps, s, s + 1);
      match At(pat, ep)
      case '?' => r := MatchOptional(s, m, ep);
      case '*' => r := MaxExpand(s, p, ep);
      case '+' => if m { r := MaxExpand(s + 1, p, ep); } else { r := NoMatch; }
      case '-' => r := MinExpand(s, p, ep);
      case _ => if m { r := Match(s + 1, ep); } else { r := NoMatch; }
    }

    /** match, for an optional item that ends at ep. */
    method MatchOptional(s: nat, m: bool, ep: nat) returns (r: Result)
      requires Valid() && s <= |src| && ep < |pat| && CapsOk(Caps(), s) && (m ==> s < |src|)
      modifies this`level, capture
      ensures Valid()
      ensures IsFirst(r, Caps(), (if m then Ways(src, Parse(pat, ep + 1), s + 1, old(Caps())) else []) + Ways(src, Parse(pat, ep + 1), s, old(Caps())), old(Caps()))
      decreases |pat| - (ep + 1), 1
    {
      hide IsFirst, Ways, CapsOk, Parse;
      ghost var caps := Caps();
      if m {
        CapsLater(caps, s, s + 1);
        r := Match(s + 1, ep + 1);
        FirstOfMany(r, Caps(), Ways(src, Parse(pat, ep + 1), s + 1, caps), Ways(src, Parse(pat, ep + 1), s, caps), caps);
        if r != NoMatch { return; }
      }
      assert [] + Ways(src, Parse(pat, ep + 1), s, caps) == Ways(src, Parse(pat, ep + 1), s, caps);
      r := Match(s, ep + 1);
    }
  }

  lemma DefaultItem(pat: string, p: nat)
    requires p < |pat| && IsDefault(pat, p)
    ensures ItemEnd(pat, p).None? ==> Parse(pat, p) == [Malformed]
    ensures ItemEnd(pat, p).Some? ==>
              (var ep := ItemEnd(pat, p).value; var rep := RepAt(pat, ep);
               Parse(pat, p) == [Chars(SetAt(pat, p, ep), rep)] + Parse(pat, if rep == Once then ep else ep + 1))
  {
  }

  /** No item of another kind starts at p. */
  predicate IsDefault(pat: string, p: nat) {
    var c, d := At(pat, p), At(pat, p + 1);
    c != '(' && c != ')' && c != '\0' && !(c == '$' && d == '\0') && !(c == ESC && (d == 'b' || d == 'f' || IsDigit(d)))
  }

  /** Some element of the set from p to ec has the character. */
  predicate HasElement(pat: string, p: nat, ec: nat, c: char)
    decreases ec - p
  {
    if p >= ec then false
    else if At(pat, p) == ESC then InClass(c, At(pat, p + 1)) || HasElement(pat, p + 2, ec, c)
    else if At(pat, p + 1) == '-' && p + 2 < ec then At(pat, p) <= c <= At(pat, p + 2) || HasElement(pat, p + 3, ec, c)
    else At(pat, p) == c || HasElement(pat, p + 1, ec, c)
  }

  lemma {:induction false} HasElementExact(pat: string, p: nat, ec: nat, c: char)
    ensures HasElement(pat, p, ec, c) <==> SomeHas(Elements(pat, p, ec), c)
    decreases ec - p
  {
    hide InClass, SomeHas;
    if p >= ec {
      NoneHas(c);
    } else {
      var q := if At(pat, p) == ESC then p + 2 else if At(pat, p + 1) == '-' && p + 2 < ec then p + 3 else p + 1;
      var es := Elements(pat, p, ec);
      HasElementExact(pat, q, ec, c);
      assert es == [es[0]] + Elements(pat, q, ec);
      FirstHas(es[0], Elements(pat, q, ec), c);
    }
  }

  lemma NoneHas(c: char)
    ensures !SomeHas([], c)
  {
  }

  lemma FirstHas(x: Elem, es: seq<Elem>, c: char)
    ensures SomeHas([x] + es, c) <==> Has(x, c) || SomeHas(es, c)
  {
    hide Has;
    var all := [x] + es;
    if Has(x, c) { assert Has(all[0], c); }
    if i :| 0 <= i < |es| && Has(es[i], c) { assert Has(all[i + 1], c); }
  }

  lemma SetHasElement(pat: string, p0: nat, ec: nat, c: char)
    requires p0 < ec < |pat| && pat[p0] == '['
    ensures var negated := At(pat, p0 + 1) == '^';
            Member(SetAt(pat, p0, ec + 1), c) <==> negated != HasElement(pat, if negated then p0 + 2 else p0 + 1, ec, c)
  {
    HasElementExact(pat, if At(pat, p0 + 1) == '^' then p0 + 2 else p0 + 1, ec, c);
    assert ec + 1 - 1 == ec;
    hide SomeHas, Elements, HasElement;
  }

  lemma FirstOfMany(r: Result, caps: seq<Cap>, ways: seq<Way>, more: seq<Way>, before: seq<Cap>)
    requires IsFirst(r, caps, ways, before)
    ensures r != NoMatch ==> IsFirst(r, caps, ways + more, before)
    ensures r == NoMatch ==> caps == before && ways + more == more
    ensures r == NoMatch && more == [] ==> IsFirst(r, caps, ways + more, before)
  {
  }

  lemma FirstLongest(src: string, items: seq<Item>, s: nat, n: nat, caps: seq<Cap>, r: Result, now: seq<Cap>)
    requires s + n <= |src| && IsFirst(r, now, Ways(src, items, s + n, caps), caps)
    ensures r != NoMatch || n == 0 ==> IsFirst(r, now, Longest(src, items, s, n, caps), caps)
    ensures r == NoMatch ==> now == caps && (n > 0 ==> Longest(src, items, s, n, caps) == Longest(src, items, s, n - 1, caps))
  {
    hide IsFirst, Ways;
    FirstOfMany(r, now, Ways(src, items, s + n, caps), if n == 0 then [] else Longest(src, items, s, n - 1, caps), caps);
  }

  lemma FirstShortest(src: string, cs: CharSet, items: seq<Item>, s: nat, caps: seq<Cap>, r: Result, now: seq<Cap>)
    requires s <= |src| && IsFirst(r, now, Ways(src, items, s, caps), caps)
    ensures r != NoMatch || !OneMore(src, cs, s) ==> IsFirst(r, now, Shortest(src, cs, items, s, caps), caps)
    ensures r == NoMatch ==> now == caps && (OneMore(src, cs, s) ==> Shortest(src, cs, items, s, caps) == Shortest(src, cs, items, s + 1, caps))
  {
    hide IsFirst, Ways;
    FirstOfMany(r, now, Ways(src, items, s, caps), if OneMore(src, cs, s) then Shortest(src, cs, items, s + 1, caps) else [], caps);
  }

  lemma NoMatchKeeps(r: Result, caps: seq<Cap>, ways: seq<Way>, before: seq<Cap>, before2: seq<Cap>)
    requires IsFirst(r, caps, ways, before) && r == NoMatch
    ensures caps == before && IsFirst(r, before2, ways, before2)
  {
  }

  lemma AnyBefore(r: Result, caps: seq<Cap>, ways: seq<Way>, before: seq<Cap>, before2: seq<Cap>)
    ensures IsFirst(r, caps, ways, before) && r != NoMatch ==> IsFirst(r, caps, ways, before2)
  {
  }

  lemma FaultIsFirst(r: Result, caps: seq<Cap>, before: seq<Cap>)
    ensures r == Error ==> IsFirst(r, caps, [Fault], before)
  {
  }

  lemma MalformedIsFault(src: string, s: nat, caps: seq<Cap>)
    requires s <= |src|
    ensures Ways(src, [Malformed], s, caps) == [Fault]
  {
  }

  lemma NoneIsFirst(caps: seq<Cap>)
    ensures IsFirst(NoMatch, caps, [], caps)
  {
  }

  lemma EndIsFirst(src: string, s: nat, caps: seq<Cap>)
    requires s <= |src|
    ensures IsFirst(End(s), caps, Ways(src, [], s, caps), caps)
  {
  }

  lemma CapsLater(caps: seq<Cap>, s: nat, s2: nat)
    requires CapsOk(caps, s) && s <= s2
    ensures CapsOk(caps, s2)
  {
  }
}
