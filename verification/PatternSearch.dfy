/** Searching and substitution with patterns. */
module PatternSearch {
  import opened PatternItems
  import opened PatternMatch
  import opened PatternTheory

  predicate Anchored(pat: string) { At(pat, 0) == '^' }

  /** The items of the pattern, without the anchor. */
  function ItemsOf(pat: string): seq<Item> { Parse(pat, if Anchored(pat) then 1 else 0) }

  /** All the ways for a match to start at s. */
  function WaysFrom(src: string, pat: string, s: nat): seq<Way>
    requires s <= |src|
  {
    Ways(src, ItemsOf(pat), s, [])
  }

  /** No match starts at s. */
  ghost predicate NoWay(src: string, pat: string, s: nat) { s <= |src| && WaysFrom(src, pat, s) == [] }

  /** str_find_aux, the search with a pattern: the leftmost start, and the first way from there. */
  method Find(ms: MatchState, init: nat) returns (r: Result, start: nat)
    requires ms.Valid() && init <= |ms.src|
    modifies ms`level, ms.capture
    ensures ms.Valid()
    ensures r == NoMatch ==> forall s: nat :: init <= s <= (if Anchored(ms.pat) then init else |ms.src|) ==> NoWay(ms.src, ms.pat, s)
    ensures r != NoMatch ==> init <= start <= |ms.src| && (Anchored(ms.pat) ==> start == init)
    ensures r != NoMatch ==> WaysFrom(ms.src, ms.pat, start) != [] && IsFirst(r, ms.Caps(), WaysFrom(ms.src, ms.pat, start), [])
    ensures r != NoMatch ==> forall s: nat :: init <= s < start ==> NoWay(ms.src, ms.pat, s)
  {
    hide Ways, Parse, CapsOk;
    var anchor := At(ms.pat, 0) == '^';
    var p := if anchor then 1 else 0;
    start := init;
    while true
      invariant ms.Valid() && init <= start <= |ms.src| && (anchor ==> start == init)
      invariant forall s: nat :: init <= s < start ==> NoWay(ms.src, ms.pat, s)
      decreases |ms.src| - start
    {
      ms.level := 0;
      assert ms.Caps() == [];
      NoCaps(start);
      r := ms.Match(start, p);
      if r != NoMatch { return; }
      assert NoWay(ms.src, ms.pat, start);
      if !(start < |ms.src| && !anchor) { return; }
      start := start + 1;
    }
  }

  lemma NoCaps(s: nat)
    ensures CapsOk([], s)
  {
  }

  // ---------- replacement strings ----------

  /** push_onecapture, as text.  decimal writes a position. */
  function CaptureText(src: string, decimal: nat -> string, i: int, s: nat, e: nat, caps: seq<Cap>): Option<string>
    requires s <= e <= |src| && CapsOk(caps, e)
  {
    if i < 0 || i >= |caps| then (if i == 0 then Some(src[s..e]) else None)
    else
      assert CapOk(caps[i], e);
      if caps[i].len == CAP_UNFINISHED then None
      else if caps[i].len == CAP_POSITION then Some(decimal(caps[i].init + 1))
      else Some(src[caps[i].init..caps[i].init + caps[i].len])
  }

  /** What the replacement string news stands for, from its character i on. */
  function Expanded(src: string, decimal: nat -> string, news: string, i: nat, s: nat, e: nat, caps: seq<Cap>): Option<string>
    requires s <= e <= |src| && CapsOk(caps, e)
    decreases |news| - i
  {
    if i >= |news| then Some("")
    else if news[i] != ESC then Joined(Some([news[i]]), Expanded(src, decimal, news, i + 1, s, e, caps))
    else if !IsDigit(At(news, i + 1)) then Joined(Some([At(news, i + 1)]), Expanded(src, decimal, news, i + 2, s, e, caps))
    else if news[i + 1] == '0' then Joined(Some(src[s..e]), Expanded(src, decimal, news, i + 2, s, e, caps))
    else Joined(CaptureText(src, decimal, CaptureIndex(news[i + 1]), s, e, caps), Expanded(src, decimal, news, i + 2, s, e, caps))
  }

  function Joined(a: Option<string>, b: Option<string>): Option<string> {
    if a.Some? && b.Some? then Some(a.value + b.value) else None
  }

  lemma JoinedEmpty(a: Option<string>)
    ensures Joined(Some(""), a) == a
  {
    if a.Some? { assert "" + a.value == a.value; }
  }

  lemma JoinedTwice(a: string, b: string, r: Option<string>)
    ensures Joined(Some(a), Joined(Some(b), r)) == Joined(Some(a + b), r)
  {
    if r.Some? { assert a + (b + r.value) == (a + b) + r.value; }
  }

  lemma JoinedLast(a: string)
    ensures Joined(Some(a), Some("")) == Some(a)
  {
    assert a + "" == a;
  }

  lemma JoinedNone(a: string, r: Option<string>)
    ensures Joined(Some(a), Joined(None, r)) == None
  {
  }

  /** add_s. */
  method AddS(ms: MatchState, decimal: nat -> string, news: string, s: nat, e: nat) returns (b: Option<string>)
    requires ms.Valid() && s <= e <= |ms.src| && CapsOk(ms.Caps(), e)
    ensures b == Expanded(ms.src, decimal, news, 0, s, e, ms.Caps())
  {
    hide CaptureText, Joined;
    ghost var caps := ms.Caps();
    var i := 0;
    var acc := "";
    JoinedEmpty(Expanded(ms.src, decimal, news, 0, s, e, caps));
    while i < |news|
      invariant Expanded(ms.src, decimal, news, 0, s, e, caps) == Joined(Some(acc), Expanded(ms.src, decimal, news, i, s, e, caps))
      decreases |news| - i
    {
      ghost var rest := Expanded(ms.src, decimal, news, if news[i] == ESC then i + 2 else i + 1, s, e, caps);
      var part: string;
      if news[i] != ESC {
        part := [news[i]];
      } else {
        i := i + 1;
        if !IsDigit(At(news, i)) { part := [At(news, i)]; }
        else if news[i] == '0' { part := ms.src[s..e]; }
        else {
          var c := PushOneCapture(ms, decimal, CaptureIndex(news[i]), s, e);
          if c.None? { JoinedNone(acc, rest); return None; }
          part := c.value;
        }
      }
      JoinedTwice(acc, part, rest);
      acc := acc + part;
      i := i + 1;
    }
    JoinedLast(acc);
    b := Some(acc);
  }

  /** push_onecapture. */
  method PushOneCapture(ms: MatchState, decimal: nat -> string, i: int, s: nat, e: nat) returns (r: Option<string>)
    requires ms.Valid() && s <= e <= |ms.src| && CapsOk(ms.Caps(), e)
    ensures r == CaptureText(ms.src, decimal, i, s, e, ms.Caps())
  {
    if i < 0 || i >= ms.level {
      return if i == 0 then Some(ms.src[s..e]) else None;
    }
    assert CapOk(ms.Caps()[i], e);
    var c := ms.capture[i];
    if c.len == CAP_UNFINISHED { return None; }
    if c.len == CAP_POSITION { return Some(decimal(c.init + 1)); }
    return Some(ms.src[c.init..c.init + c.len]);
  }

  // ---------- substitution ----------

  datatype Substituted = Replaced(text: string, count: nat) | Failed

  /** One turn: the text it adds, the matches it replaces (0 or 1), and where it goes on. */
  datatype Turn = Turn(text: string, k: nat, next: nat) | Bad

  /** After an empty match, or none, the next character is copied. */
  function TurnAt(src: string, pat: string, decimal: nat -> string, news: string, s: nat): (r: Turn)
    requires s <= |src|
    ensures r.Turn? ==> s <= r.next <= |src| && r.k <= 1 && (r.next == s ==> s == |src|)
  {
    var ways := WaysFrom(src, pat, s);
    if ways == [] then (if s < |src| then Turn([src[s]], 0, s + 1) else Turn("", 0, s))
    else if ways[0].Fault? then Bad
    else
      WaysInside(src, pat, s, ways[0]);
      var e := ways[0].end;
      match Expanded(src, decimal, news, 0, s, e, ways[0].caps)
      case None => Bad
      case Some(text) => if e > s then Turn(text, 1, e) else if s < |src| then Turn(text + [src[s]], 1, s + 1) else Turn(text, 1, s)
  }

  /** The text from s on, with up to max matches replaced; an anchored pattern is tried once only. */
  function Subst(src: string, pat: string, decimal: nat -> string, news: string, s: nat, max: nat): Substituted
    requires s <= |src|
    decreases |src| - s
  {
    if max == 0 then Replaced(src[s..], 0)
    else
      match TurnAt(src, pat, decimal, news, s)
      case Bad => Failed
      case Turn(text, k, next) => Prefixed(text, k, if next == s || Anchored(pat) then Replaced(src[next..], 0) else Subst(src, pat, decimal, news, next, max - k))
  }

  function Prefixed(a: string, n: nat, r: Substituted): Substituted {
    match r case Replaced(text, count) => Replaced(a + text, n + count) case Failed => Failed
  }

  lemma PrefixedTwice(a: string, n: nat, b: string, m: nat, r: Substituted)
    ensures Prefixed(a, n, Prefixed(b, m, r)) == Prefixed(a + b, n + m, r)
  {
    if r.Replaced? { assert a + (b + r.text) == (a + b) + r.text; }
  }

  lemma WaysInside(src: string, pat: string, s: nat, w: Way)
    requires s <= |src| && w in WaysFrom(src, pat, s)
    ensures w.Way? ==> s <= w.end <= |src| && CapsOk(w.caps, w.end)
  {
    WaysInOrder(src, ItemsOf(pat), s, [], w);
  }

  /** One turn of the loop in str_gsub. */
  method TakeTurn(ms: MatchState, decimal: nat -> string, news: string, src: nat) returns (r: Turn)
    requires ms.Valid() && src <= |ms.src|
    modifies ms`level, ms.capture
    ensures ms.Valid() && r == TurnAt(ms.src, ms.pat, decimal, news, src)
  {
    hide Ways, Parse, CapsOk, Expanded;
    ms.level := 0;
    assert ms.Caps() == [];
    NoCaps(src);
    var e := ms.Match(src, if At(ms.pat, 0) == '^' then 1 else 0);
    if e == Error { return Bad; }
    var b, k := "", 0;
    if e.End? {
      WaysInside(ms.src, ms.pat, src, WaysFrom(ms.src, ms.pat, src)[0]);
      k := 1;
      var text := AddS(ms, decimal, news, src, e.e);
      if text.None? { return Bad; }
      b := text.value;
    }
    if e.End? && e.e > src {
      r := Turn(b, k, e.e);
    } else if src < |ms.src| {
      r := Turn(b + [ms.src[src]], k, src + 1);
    } else {
      r := Turn(b, k, src);
    }
  }

  /** str_gsub, with a replacement string. */
  method GSub(ms: MatchState, decimal: nat -> string, news: string, max: nat) returns (r: Substituted)
    requires ms.Valid()
    modifies ms`level, ms.capture
    ensures r == Subst(ms.src, ms.pat, decimal, news, 0, max)
  {
    hide TurnAt;
    var b, n, src := "", 0, 0;
    assert forall t: string :: "" + t == t;
    while n < max
      invariant ms.Valid() && 0 <= src <= |ms.src| && 0 <= n <= max
      invariant Subst(ms.src, ms.pat, decimal, news, 0, max) == Prefixed(b, n, Subst(ms.src, ms.pat, decimal, news, src, max - n))
      decreases |ms.src| - src, max - n
    {
      var turn := TakeTurn(ms, decimal, news, src);
      if turn.Bad? { return Failed; }
      PrefixedTwice(b, n, turn.text, turn.k, if turn.next == src || Anchored(ms.pat) then Replaced(ms.src[turn.next..], 0) else Subst(ms.src, ms.pat, decimal, news, turn.next, max - n - turn.k));
      b, n := b + turn.text, n + turn.k;
      if turn.next == src || Anchored(ms.pat) {
        return Replaced(b + ms.src[turn.next..], n);
      }
      src := turn.next;
    }
    r := Replaced(b + ms.src[src..], n);
  }

  /** No more than max matches are replaced, and with %0 the text comes back as it was. */
  lemma {:induction false} WholeMatchKeepsText(src: string, pat: string, decimal: nat -> string, s: nat, max: nat)
    requires s <= |src|
    ensures var r := Subst(src, pat, decimal, "%0", s, max);
            r.Replaced? ==> r.text == src[s..] && r.count <= max
    decreases |src| - s
  {
    hide TurnAt;
    if max > 0 {
      var turn := TurnAt(src, pat, decimal, "%0", s);
      if turn.Turn? {
        TurnKeepsText(src, pat, decimal, s);
        assert src[s..turn.next] + src[turn.next..] == src[s..];
        if turn.next > s { WholeMatchKeepsText(src, pat, decimal, turn.next, max - turn.k); }
      }
    }
  }

  lemma TurnKeepsText(src: string, pat: string, decimal: nat -> string, s: nat)
    requires s <= |src| && TurnAt(src, pat, decimal, "%0", s).Turn?
    ensures var turn := TurnAt(src, pat, decimal, "%0", s); turn.text == src[s..turn.next]
  {
    hide Ways, Parse;
    var ways := WaysFrom(src, pat, s);
    if ways != [] {
      WaysInside(src, pat, s, ways[0]);
      var e := ways[0].end;
      assert Expanded(src, decimal, "%0", 2, s, e, ways[0].caps) == Some("");
      assert src[s..e] + "" == src[s..e];
    }
  }

  /** Without a match the text comes back, and nothing is counted. */
  lemma {:induction false} NoMatchKeepsText(src: string, pat: string, decimal: nat -> string, news: string, s: nat, max: nat)
    requires s <= |src| && forall t: nat :: s <= t <= |src| ==> NoWay(src, pat, t)
    ensures Subst(src, pat, decimal, news, s, max) == Replaced(src[s..], 0)
    decreases |src| - s
  {
    if max > 0 {
      assert NoWay(src, pat, s);
      if s < |src| {
        NoMatchKeepsText(src, pat, decimal, news, s + 1, max);
        assert [src[s]] + src[s + 1..] == src[s..];
      }
    }
  }
}
