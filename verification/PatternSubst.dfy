/** What a substitution replaces: every match, each the leftmost one behind the last, and nothing else. */
module PatternSubst {
  import opened PatternItems
  import opened PatternMatch
  import opened PatternSearch

  /** A match from s to e, and what it is replaced by. */
  datatype Match = Match(s: nat, e: nat, text: string)

  /** The first way to match at m.s leads to m.e, and text is what the replacement string stands for there. */
  ghost predicate IsMatch(src: string, pat: string, decimal: nat -> string, news: string, m: Match) {
    && m.s <= m.e <= |src| && WaysFrom(src, pat, m.s) != []
    && var w := WaysFrom(src, pat, m.s)[0];
       w.Way? && w.end == m.e && CapsOk(w.caps, m.e) && Expanded(src, decimal, news, 0, m.s, m.e, w.caps) == Some(m.text)
  }

  /** Where the search goes on after n matches: behind the last one, and at least one character further. */
  function Resume(from: nat, ms: seq<Match>, n: nat): nat
    requires n <= |ms|
  {
    if n == 0 then from else if ms[n - 1].e > ms[n - 1].s then ms[n - 1].e else ms[n - 1].s + 1
  }

  /** No match starts from position i on before position j. */
  ghost predicate NoneBetween(src: string, pat: string, i: nat, j: nat) {
    forall t: nat :: i <= t < j && t <= |src| ==> NoWay(src, pat, t)
  }

  /** Each is the leftmost match from where the search goes on after the one before it. */
  ghost predicate Leftmost(src: string, pat: string, decimal: nat -> string, news: string, from: nat, ms: seq<Match>) {
    forall i :: 0 <= i < |ms| ==>
      IsMatch(src, pat, decimal, news, ms[i]) && Resume(from, ms, i) <= ms[i].s && NoneBetween(src, pat, Resume(from, ms, i), ms[i].s)
  }

  /** These are the matches to be replaced: no more than max, an anchored one only at the start, and otherwise all
      of them, unless max have been found. */
  ghost predicate AllMatches(src: string, pat: string, decimal: nat -> string, news: string, from: nat, max: nat, ms: seq<Match>) {
    && |ms| <= max && Leftmost(src, pat, decimal, news, from, ms)
    && if Anchored(pat) then
         |ms| <= 1 && (ms != [] ==> ms[0].s == from) && (ms == [] && max > 0 ==> NoneBetween(src, pat, from, from + 1))
       else
         |ms| < max ==> NoneBetween(src, pat, Resume(from, ms, |ms|), |src| + 1)
  }

  /** The text from at on, with each match replaced. */
  function Woven(src: string, at: nat, ms: seq<Match>): string
    decreases |ms|
  {
    if ms == [] then (if at <= |src| then src[at..] else "")
    else (if at <= ms[0].s <= |src| then src[at..ms[0].s] else "") + ms[0].text + Woven(src, ms[0].e, ms[1..])
  }

  // ---------- one match, and the others ----------

  lemma ResumeRest(from: nat, ms: seq<Match>, n: nat)
    requires 0 < n <= |ms|
    ensures Resume(Resume(from, ms, 1), ms[1..], n - 1) == Resume(from, ms, n)
  {
  }

  lemma LeftmostRest(src: string, pat: string, decimal: nat -> string, news: string, from: nat, ms: seq<Match>)
    requires ms != []
    ensures Leftmost(src, pat, decimal, news, from, ms) <==>
      IsMatch(src, pat, decimal, news, ms[0]) && from <= ms[0].s && NoneBetween(src, pat, from, ms[0].s)
      && Leftmost(src, pat, decimal, news, Resume(from, ms, 1), ms[1..])
  {
    hide IsMatch, NoneBetween, Resume;
    forall i | 0 < i < |ms|
      ensures ms[1..][i - 1] == ms[i] && Resume(Resume(from, ms, 1), ms[1..], i - 1) == Resume(from, ms, i)
    {
      ResumeRest(from, ms, i);
    }
    ResumeFirst(from, ms);
    if Leftmost(src, pat, decimal, news, Resume(from, ms, 1), ms[1..]) && IsMatch(src, pat, decimal, news, ms[0]) && from <= ms[0].s && NoneBetween(src, pat, from, ms[0].s) {
      forall i | 0 <= i < |ms|
        ensures IsMatch(src, pat, decimal, news, ms[i]) && Resume(from, ms, i) <= ms[i].s && NoneBetween(src, pat, Resume(from, ms, i), ms[i].s)
      {
        if i > 0 { assert ms[1..][i - 1] == ms[i]; }
      }
    }
    if Leftmost(src, pat, decimal, news, from, ms) {
      assert IsMatch(src, pat, decimal, news, ms[0]);
      forall i | 0 <= i < |ms[1..]|
        ensures IsMatch(src, pat, decimal, news, ms[1..][i]) && Resume(Resume(from, ms, 1), ms[1..], i) <= ms[1..][i].s
          && NoneBetween(src, pat, Resume(Resume(from, ms, 1), ms[1..], i), ms[1..][i].s)
      {
        assert ms[1..][i] == ms[i + 1];
      }
    }
  }

  lemma ResumeFirst(from: nat, ms: seq<Match>)
    ensures Resume(from, ms, 0) == from
  {
  }

  /** A position at which nothing matches may be passed over. */
  lemma LeftmostLater(src: string, pat: string, decimal: nat -> string, news: string, from: nat, ms: seq<Match>)
    requires NoWay(src, pat, from)
    ensures Leftmost(src, pat, decimal, news, from, ms) <==> Leftmost(src, pat, decimal, news, from + 1, ms)
  {
    hide Ways, Parse;
    if ms != [] {
      LeftmostRest(src, pat, decimal, news, from, ms);
      LeftmostRest(src, pat, decimal, news, from + 1, ms);
      assert Resume(from, ms, 1) == Resume(from + 1, ms, 1);
    }
  }

  lemma AllLater(src: string, pat: string, decimal: nat -> string, news: string, from: nat, max: nat, ms: seq<Match>)
    requires NoWay(src, pat, from) && !Anchored(pat)
    ensures AllMatches(src, pat, decimal, news, from, max, ms) <==> AllMatches(src, pat, decimal, news, from + 1, max, ms)
  {
    hide NoWay, Leftmost;
    LeftmostLater(src, pat, decimal, news, from, ms);
  }

  lemma AllRest(src: string, pat: string, decimal: nat -> string, news: string, from: nat, max: nat, ms: seq<Match>)
    requires !Anchored(pat) && ms != [] && max > 0
    ensures AllMatches(src, pat, decimal, news, from, max, ms) <==>
      IsMatch(src, pat, decimal, news, ms[0]) && from <= ms[0].s && NoneBetween(src, pat, from, ms[0].s)
      && AllMatches(src, pat, decimal, news, Resume(from, ms, 1), max - 1, ms[1..])
  {
    hide IsMatch, NoneBetween, Leftmost, Resume;
    LeftmostRest(src, pat, decimal, news, from, ms);
    ResumeRest(from, ms, |ms|);
  }

  // ---------- one turn of the loop ----------

  /** How a turn that replaces m goes on. */
  function TurnOf(src: string, m: Match): Turn
    requires m.s <= m.e <= |src|
  {
    if m.e > m.s then Turn(m.text, 1, m.e) else if m.s < |src| then Turn(m.text + [src[m.s]], 1, m.s + 1) else Turn(m.text, 1, m.s)
  }

  lemma TurnWithout(src: string, pat: string, decimal: nat -> string, news: string, s: nat)
    requires NoWay(src, pat, s)
    ensures TurnAt(src, pat, decimal, news, s) == if s < |src| then Turn([src[s]], 0, s + 1) else Turn("", 0, s)
  {
    hide Ways, Parse;
  }

  lemma TurnWith(src: string, pat: string, decimal: nat -> string, news: string, m: Match)
    requires IsMatch(src, pat, decimal, news, m)
    ensures TurnAt(src, pat, decimal, news, m.s) == TurnOf(src, m) && !NoWay(src, pat, m.s)
  {
    hide Ways, Parse, Expanded;
    WaysInside(src, pat, m.s, WaysFrom(src, pat, m.s)[0]);
  }

  lemma TurnMatch(src: string, pat: string, decimal: nat -> string, news: string, s: nat) returns (m: Match)
    requires s <= |src| && !NoWay(src, pat, s) && TurnAt(src, pat, decimal, news, s).Turn?
    ensures m.s == s && IsMatch(src, pat, decimal, news, m)
  {
    hide Ways, Parse, Expanded;
    var w := WaysFrom(src, pat, s)[0];
    WaysInside(src, pat, s, w);
    m := Match(s, w.end, Expanded(src, decimal, news, 0, s, w.end, w.caps).value);
  }

  /** The character between the end of an empty match, or a place without a match, and the next match. */
  lemma WovenStep(src: string, s: nat, ms: seq<Match>)
    requires s < |src| && (ms != [] ==> s < ms[0].s <= |src|)
    ensures Woven(src, s, ms) == [src[s]] + Woven(src, s + 1, ms)
  {
    hide Woven;
    if ms == [] {
      WovenNone(src, s);
      WovenNone(src, s + 1);
      assert src[s..] == [src[s]] + src[s + 1..];
    } else {
      WovenFrom(src, s, ms);
      WovenFrom(src, s + 1, ms);
      var more := ms[0].text + Woven(src, ms[0].e, ms[1..]);
      assert src[s..ms[0].s] == [src[s]] + src[s + 1..ms[0].s];
      assert [src[s]] + src[s + 1..ms[0].s] + more == [src[s]] + (src[s + 1..ms[0].s] + more);
    }
  }

  lemma FirstMatch(src: string, pat: string, decimal: nat -> string, news: string, from: nat, max: nat, ms: seq<Match>)
    requires AllMatches(src, pat, decimal, news, from, max, ms) && from <= |src| && max > 0
    ensures ms != [] ==> IsMatch(src, pat, decimal, news, ms[0]) && from <= ms[0].s <= |src|
    ensures if NoWay(src, pat, from) then ms != [] ==> from < ms[0].s && !Anchored(pat) else ms != [] && ms[0].s == from
  {
    hide Ways, Parse, Expanded;
    if ms != [] {
      LeftmostRest(src, pat, decimal, news, from, ms);
      assert IsMatch(src, pat, decimal, news, ms[0]);
    }
    if ms == [] && !Anchored(pat) { assert Resume(from, ms, 0) == from; }
  }

  lemma NoneLeft(src: string, pat: string, decimal: nat -> string, news: string, max: nat, ms: seq<Match>)
    requires Leftmost(src, pat, decimal, news, |src| + 1, ms)
    ensures ms == []
  {
    hide Ways, Parse, Expanded;
    if ms != [] { LeftmostRest(src, pat, decimal, news, |src| + 1, ms); }
  }

  /** The result of a substitution is determined by the matches to be replaced. */
  lemma {:induction false} SubstOnly(src: string, pat: string, decimal: nat -> string, news: string, s: nat, max: nat, ms: seq<Match>)
    requires s <= |src| && AllMatches(src, pat, decimal, news, s, max, ms)
    ensures Subst(src, pat, decimal, news, s, max) == Replaced(Woven(src, s, ms), |ms|)
    decreases |src| - s
  {
    hide TurnAt, NoWay, IsMatch, AllMatches;
    if max == 0 {
      assert ms == [] by { NoMore(src, pat, decimal, news, s, ms); }
    } else {
      FirstMatch(src, pat, decimal, news, s, max, ms);
      if NoWay(src, pat, s) {
        TurnWithout(src, pat, decimal, news, s);
        if s < |src| {
          WovenStep(src, s, ms);
          if !Anchored(pat) {
            AllLater(src, pat, decimal, news, s, max, ms);
            SubstOnly(src, pat, decimal, news, s + 1, max, ms);
          }
        }
      } else {
        MatchTaken(src, pat, decimal, news, s, max, ms);
      }
    }
  }

  lemma NoMore(src: string, pat: string, decimal: nat -> string, news: string, from: nat, ms: seq<Match>)
    requires AllMatches(src, pat, decimal, news, from, 0, ms)
    ensures ms == []
  {
  }

  lemma {:induction false} MatchTaken(src: string, pat: string, decimal: nat -> string, news: string, s: nat, max: nat, ms: seq<Match>)
    requires s <= |src| && max > 0 && AllMatches(src, pat, decimal, news, s, max, ms)
    requires ms != [] && ms[0].s == s && IsMatch(src, pat, decimal, news, ms[0])
    ensures Subst(src, pat, decimal, news, s, max) == Replaced(Woven(src, s, ms), |ms|)
    decreases |src| - s, 0
  {
    hide TurnAt, NoWay, IsMatch, Ways, Parse, AllMatches, Woven;
    var m, rest := ms[0], ms[1..];
    MatchEnds(src, pat, decimal, news, m);
    TurnWith(src, pat, decimal, news, m);
    WovenTaken(src, ms);
    RestOf(src, pat, decimal, news, s, max, ms);
    if Anchored(pat) {
      WovenNone(src, m.e);
      if m.e == s < |src| { WovenGap(src, m, rest); WovenNone(src, s + 1); }
    } else if m.e > s {
      SubstOnly(src, pat, decimal, news, m.e, max - 1, rest);
    } else if s < |src| {
      SubstOnly(src, pat, decimal, news, s + 1, max - 1, rest);
      WovenGap(src, m, rest);
    } else {
      WovenNone(src, s);
    }
  }

  lemma WovenTaken(src: string, ms: seq<Match>)
    requires ms != [] && ms[0].s <= |src|
    ensures Woven(src, ms[0].s, ms) == ms[0].text + Woven(src, ms[0].e, ms[1..])
  {
    hide Woven;
    WovenFrom(src, ms[0].s, ms);
    assert src[ms[0].s..ms[0].s] + (ms[0].text + Woven(src, ms[0].e, ms[1..])) == ms[0].text + Woven(src, ms[0].e, ms[1..]);
  }

  lemma WovenFrom(src: string, at: nat, ms: seq<Match>)
    requires ms != [] && at <= ms[0].s <= |src|
    ensures Woven(src, at, ms) == src[at..ms[0].s] + (ms[0].text + Woven(src, ms[0].e, ms[1..]))
  {
    var w := Woven(src, ms[0].e, ms[1..]);
    assert src[at..ms[0].s] + ms[0].text + w == src[at..ms[0].s] + (ms[0].text + w);
  }

  lemma WovenNone(src: string, at: nat)
    requires at <= |src|
    ensures Woven(src, at, []) == src[at..]
  {
  }

  lemma WovenGap(src: string, m: Match, rest: seq<Match>)
    requires m.s < |src| && (rest != [] ==> m.s < rest[0].s <= |src|)
    ensures m.text + Woven(src, m.s, rest) == m.text + [src[m.s]] + Woven(src, m.s + 1, rest)
  {
    WovenStep(src, m.s, rest);
    assert m.text + [src[m.s]] + Woven(src, m.s + 1, rest) == m.text + ([src[m.s]] + Woven(src, m.s + 1, rest));
  }

  /** What is left to be replaced behind the first match. */
  lemma RestOf(src: string, pat: string, decimal: nat -> string, news: string, s: nat, max: nat, ms: seq<Match>)
    requires s <= |src| && max > 0 && AllMatches(src, pat, decimal, news, s, max, ms)
    requires ms != [] && ms[0].s == s && IsMatch(src, pat, decimal, news, ms[0])
    ensures if Anchored(pat) then ms[1..] == [] else AllMatches(src, pat, decimal, news, Resume(s, ms, 1), max - 1, ms[1..])
    ensures ms[1..] != [] ==> Resume(s, ms, 1) <= ms[1].s <= |src|
    ensures s == |src| ==> ms[1..] == []
  {
    hide IsMatch, Ways, Parse, NoWay;
    if !Anchored(pat) {
      AllRest(src, pat, decimal, news, s, max, ms);
      RestLater(src, pat, decimal, news, Resume(s, ms, 1), ms[1..]);
      if s == |src| {
        MatchEnds(src, pat, decimal, news, ms[0]);
        NoneLeft(src, pat, decimal, news, max, ms[1..]);
      }
    }
  }

  lemma MatchEnds(src: string, pat: string, decimal: nat -> string, news: string, m: Match)
    requires IsMatch(src, pat, decimal, news, m)
    ensures m.s <= m.e <= |src|
  {
  }

  lemma RestLater(src: string, pat: string, decimal: nat -> string, news: string, from: nat, ms: seq<Match>)
    requires Leftmost(src, pat, decimal, news, from, ms)
    ensures ms != [] ==> from <= ms[0].s <= |src|
  {
    if ms != [] { LeftmostRest(src, pat, decimal, news, from, ms); }
  }

  /** A substitution that comes to an end has replaced such matches. */
  lemma {:induction false} SubstSome(src: string, pat: string, decimal: nat -> string, news: string, s: nat, max: nat) returns (ms: seq<Match>)
    requires s <= |src| && Subst(src, pat, decimal, news, s, max).Replaced?
    ensures AllMatches(src, pat, decimal, news, s, max, ms)
    decreases |src| - s
  {
    hide TurnAt, IsMatch, Ways, Parse;
    ms := [];
    if max > 0 {
      if NoWay(src, pat, s) {
        TurnWithout(src, pat, decimal, news, s);
        if s < |src| && !Anchored(pat) {
          ms := SubstSome(src, pat, decimal, news, s + 1, max);
          AllLater(src, pat, decimal, news, s, max, ms);
        }
      } else {
        var m := TurnMatch(src, pat, decimal, news, s);
        MatchEnds(src, pat, decimal, news, m);
        TurnWith(src, pat, decimal, news, m);
        var next := TurnOf(src, m).next;
        var rest: seq<Match> := [];
        if !Anchored(pat) && next > s { rest := SubstSome(src, pat, decimal, news, next, max - 1); }
        ms := [m] + rest;
        assert ms[1..] == rest;
        if !Anchored(pat) { AllRest(src, pat, decimal, news, s, max, ms); } else { LeftmostRest(src, pat, decimal, news, s, ms); }
      }
    }
  }

  /** The first way to match at t is an error, or its replacement is. */
  ghost predicate IsError(src: string, pat: string, decimal: nat -> string, news: string, t: nat) {
    && t <= |src| && WaysFrom(src, pat, t) != []
    && var w := WaysFrom(src, pat, t)[0];
       w.Fault? || (t <= w.end <= |src| && CapsOk(w.caps, w.end) && Expanded(src, decimal, news, 0, t, w.end, w.caps) == None)
  }

  lemma TurnBad(src: string, pat: string, decimal: nat -> string, news: string, s: nat)
    requires s <= |src| && !NoWay(src, pat, s) && TurnAt(src, pat, decimal, news, s).Bad?
    ensures IsError(src, pat, decimal, news, s)
  {
    hide Ways, Parse, Expanded;
    WaysInside(src, pat, s, WaysFrom(src, pat, s)[0]);
  }

  /** The error of a substitution that fails: it is met where the search goes on after fewer than max matches, and
      nothing matches before it. */
  lemma {:induction false} SubstError(src: string, pat: string, decimal: nat -> string, news: string, s: nat, max: nat) returns (ms: seq<Match>, t: nat)
    requires s <= |src| && Subst(src, pat, decimal, news, s, max) == Failed
    ensures |ms| < max && Leftmost(src, pat, decimal, news, s, ms) && IsError(src, pat, decimal, news, t)
    ensures Resume(s, ms, |ms|) <= t && NoneBetween(src, pat, Resume(s, ms, |ms|), t) && (Anchored(pat) ==> t == s && ms == [])
    decreases |src| - s
  {
    hide TurnAt, IsMatch, Ways, Parse, IsError, NoneBetween, Leftmost, NoWay, Resume;
    ms, t := [], s;
    if NoWay(src, pat, s) {
      TurnWithout(src, pat, decimal, news, s);
      ms, t := SubstError(src, pat, decimal, news, s + 1, max);
      LeftmostLater(src, pat, decimal, news, s, ms);
      ErrorLater(src, pat, s, ms, t);
    } else if TurnAt(src, pat, decimal, news, s).Bad? {
      TurnBad(src, pat, decimal, news, s);
      NoneYet(src, pat, decimal, news, s);
    } else {
      var m := TurnMatch(src, pat, decimal, news, s);
      MatchEnds(src, pat, decimal, news, m);
      TurnWith(src, pat, decimal, news, m);
      var rest;
      rest, t := SubstError(src, pat, decimal, news, TurnOf(src, m).next, max - 1);
      ms := [m] + rest;
      assert ms[1..] == rest;
      ResumeTurn(src, s, ms);
      NoneYet(src, pat, decimal, news, s);
      LeftmostRest(src, pat, decimal, news, s, ms);
      ResumeRest(s, ms, |ms|);
    }
  }

  lemma ErrorLater(src: string, pat: string, s: nat, ms: seq<Match>, t: nat)
    requires NoWay(src, pat, s) && Resume(s + 1, ms, |ms|) <= t && NoneBetween(src, pat, Resume(s + 1, ms, |ms|), t)
    ensures Resume(s, ms, |ms|) <= t && NoneBetween(src, pat, Resume(s, ms, |ms|), t)
  {
    hide NoWay;
  }

  lemma NoneYet(src: string, pat: string, decimal: nat -> string, news: string, s: nat)
    ensures NoneBetween(src, pat, s, s) && Leftmost(src, pat, decimal, news, s, []) && Resume(s, [], 0) == s
  {
  }

  lemma ResumeTurn(src: string, s: nat, ms: seq<Match>)
    requires ms != [] && ms[0].s == s && s <= ms[0].e <= |src| && TurnOf(src, ms[0]).next > s
    ensures Resume(s, ms, 1) == TurnOf(src, ms[0]).next
  {
  }

  /** A substitution comes to an end exactly if there is such a sequence of matches, and what comes out is the text
      with exactly these replaced. */
  lemma SubstExact(src: string, pat: string, decimal: nat -> string, news: string, max: nat, ms: seq<Match>)
    ensures Subst(src, pat, decimal, news, 0, max).Replaced? <==> exists xs :: AllMatches(src, pat, decimal, news, 0, max, xs)
    ensures AllMatches(src, pat, decimal, news, 0, max, ms) ==> Subst(src, pat, decimal, news, 0, max) == Replaced(Woven(src, 0, ms), |ms|)
  {
    hide AllMatches, Subst, Woven;
    if Subst(src, pat, decimal, news, 0, max).Replaced? {
      var xs := SubstSome(src, pat, decimal, news, 0, max);
      assert AllMatches(src, pat, decimal, news, 0, max, xs);
    }
    forall xs | AllMatches(src, pat, decimal, news, 0, max, xs)
      ensures Subst(src, pat, decimal, news, 0, max) == Replaced(Woven(src, 0, xs), |xs|)
    {
      SubstOnly(src, pat, decimal, news, 0, max, xs);
    }
  }

  // ---------- replacement strings ----------

  /** What a replacement string is made of: characters, characters behind an escape, %0, and %1 to %9. */
  datatype Piece = Plain(c: char) | Escaped(c: char) | Whole | Captured(k: nat)

  predicate PieceOk(p: Piece) {
    match p case Plain(c) => c != '%' case Escaped(c) => !('0' <= c <= '9') case Whole => true case Captured(k) => 1 <= k <= 9
  }

  function Digit(k: nat): char
    requires k <= 9
  {
    "0123456789"[k]
  }

  function Spelled(p: Piece): string
    requires PieceOk(p)
  {
    match p case Plain(c) => [c] case Escaped(c) => ['%', c] case Whole => "%0" case Captured(k) => ['%', Digit(k)]
  }

  function SpelledAll(ps: seq<Piece>): string
    requires forall i :: 0 <= i < |ps| ==> PieceOk(ps[i])
  {
    if ps == [] then "" else Spelled(ps[0]) + SpelledAll(ps[1..])
  }

  /** A capture, by its number from 1 on: its text, or the position (from 1 on) where it stands; without captures
      the first is the whole match; none may be missing or open. */
  function CaptureMeans(src: string, decimal: nat -> string, k: nat, s: nat, e: nat, caps: seq<Cap>): Option<string>
    requires s <= e <= |src| && CapsOk(caps, e) && k > 0
  {
    if caps == [] && k == 1 then Some(src[s..e])
    else if k > |caps| then None
    else
      assert CapOk(caps[k - 1], e);
      match caps[k - 1] case Cap(at, len) => if len == CAP_POSITION then Some(decimal(at + 1)) else if len == CAP_UNFINISHED then None else Some(src[at..at + len])
  }

  function Means(src: string, decimal: nat -> string, p: Piece, s: nat, e: nat, caps: seq<Cap>): Option<string>
    requires s <= e <= |src| && CapsOk(caps, e) && PieceOk(p)
  {
    match p case Plain(c) => Some([c]) case Escaped(c) => Some([c]) case Whole => Some(src[s..e]) case Captured(k) => CaptureMeans(src, decimal, k, s, e, caps)
  }

  function MeansAll(src: string, decimal: nat -> string, ps: seq<Piece>, s: nat, e: nat, caps: seq<Cap>): Option<string>
    requires s <= e <= |src| && CapsOk(caps, e) && forall i :: 0 <= i < |ps| ==> PieceOk(ps[i])
  {
    if ps == [] then Some("") else Joined(Means(src, decimal, ps[0], s, e, caps), MeansAll(src, decimal, ps[1..], s, e, caps))
  }

  lemma CaptureTextIs(src: string, decimal: nat -> string, k: nat, s: nat, e: nat, caps: seq<Cap>)
    requires s <= e <= |src| && CapsOk(caps, e) && 1 <= k <= 9
    ensures CaptureText(src, decimal, CaptureIndex(Digit(k)), s, e, caps) == CaptureMeans(src, decimal, k, s, e, caps)
  {
    assert CaptureIndex(Digit(k)) == k - 1;
  }

  lemma ExpandedPiece(src: string, decimal: nat -> string, p: Piece, news: string, i: nat, s: nat, e: nat, caps: seq<Cap>)
    requires s <= e <= |src| && CapsOk(caps, e) && PieceOk(p) && i + |Spelled(p)| <= |news| && news[i..i + |Spelled(p)|] == Spelled(p)
    ensures Expanded(src, decimal, news, i, s, e, caps) == Joined(Means(src, decimal, p, s, e, caps), Expanded(src, decimal, news, i + |Spelled(p)|, s, e, caps))
  {
    hide CaptureText, CaptureMeans, Joined;
    assert news[i] == news[i..i + |Spelled(p)|][0];
    if !p.Plain? { assert news[i + 1] == news[i..i + |Spelled(p)|][1]; }
    if p.Captured? { CaptureTextIs(src, decimal, p.k, s, e, caps); }
  }

  lemma ExpandedEnd(src: string, decimal: nat -> string, news: string, i: nat, s: nat, e: nat, caps: seq<Cap>)
    requires s <= e <= |src| && CapsOk(caps, e) && i >= |news|
    ensures Expanded(src, decimal, news, i, s, e, caps) == Some("")
  {
  }

  /** A replacement string stands for what its pieces mean, one after the other. */
  lemma {:induction false} ExpandedMeans(src: string, decimal: nat -> string, ps: seq<Piece>, news: string, i: nat, s: nat, e: nat, caps: seq<Cap>)
    requires s <= e <= |src| && CapsOk(caps, e) && (forall j :: 0 <= j < |ps| ==> PieceOk(ps[j])) && i <= |news| && news[i..] == SpelledAll(ps)
    ensures Expanded(src, decimal, news, i, s, e, caps) == MeansAll(src, decimal, ps, s, e, caps)
    decreases |ps|
  {
    hide Means, Joined, Expanded, Spelled, CapsOk;
    if ps == [] {
      assert |news[i..]| == 0;
      ExpandedEnd(src, decimal, news, i, s, e, caps);
    } else {
      var n := |Spelled(ps[0])|;
      assert news[i..i + n] == news[i..][..n] == Spelled(ps[0]);
      assert news[i + n..] == news[i..][n..] == SpelledAll(ps[1..]);
      ExpandedPiece(src, decimal, ps[0], news, i, s, e, caps);
      ExpandedMeans(src, decimal, ps[1..], news, i + n, s, e, caps);
    }
  }

  // ---------- classes ----------

  /** The letters that name classes, with their classes in the C locale, by the codes of their members. */
  lemma ClassTable(c: char)
    ensures InClass(c, 'l') <==> 97 <= c as int <= 122
    ensures InClass(c, 'u') <==> 65 <= c as int <= 90
    ensures InClass(c, 'd') <==> 48 <= c as int <= 57
    ensures InClass(c, 's') <==> 9 <= c as int <= 13 || c as int == 32
    ensures InClass(c, 'c') <==> c as int < 32 || c as int == 127
    ensures InClass(c, 'z') <==> c as int == 0
  {
  }

  lemma ClassUnions(c: char)
    ensures InClass(c, 'a') <==> 97 <= c as int <= 122 || 65 <= c as int <= 90
    ensures InClass(c, 'w') <==> 97 <= c as int <= 122 || 65 <= c as int <= 90 || 48 <= c as int <= 57
    ensures InClass(c, 'x') <==> 48 <= c as int <= 57 || 97 <= c as int <= 102 || 65 <= c as int <= 70
    ensures InClass(c, 'p') <==> 33 <= c as int <= 47 || 58 <= c as int <= 64 || 91 <= c as int <= 96 || 123 <= c as int <= 126
  {
  }

  /** An upper-case letter names what its lower-case letter does not; any other character stands for itself. */
  lemma ClassComplement(c: char, cl: char)
    ensures cl in "acdlpsuwxz" ==> (InClass(c, (cl as int - 32) as char) <==> !InClass(c, cl))
    ensures ToLower(cl) !in "acdlpsuwxz" ==> (InClass(c, cl) <==> c == cl)
  {
  }

  /** A set holds the characters of its ranges, of its classes, and its single characters; a negated set all others. */
  lemma SetMeans(negated: bool, lo: char, hi: char, x: char, cl: char, c: char)
    ensures Member(Bracket(negated, [Range(lo, hi), One(x), Elem.Escaped(cl)]), c) <==> negated != (lo <= c <= hi || c == x || InClass(c, cl))
  {
    var es := [Range(lo, hi), One(x), Elem.Escaped(cl)];
    assert Has(es[0], c) <==> lo <= c <= hi;
    assert Has(es[1], c) <==> c == x;
    assert Has(es[2], c) <==> InClass(c, cl);
  }

  /** A frontier of the class of word characters: a word starts there. */
  lemma WordStart(src: string, s: nat)
    requires s <= |src|
    ensures IsFrontier(src, Class('w'), s) <==> s < |src| && IsAlnum(src[s]) && (s == 0 || !IsAlnum(src[s - 1]))
  {
    WordClass('\0');
    if s < |src| { WordClass(src[s]); }
    if s > 0 { WordClass(src[s - 1]); }
  }

  lemma WordClass(c: char)
    ensures Member(Class('w'), c) <==> IsAlnum(c)
  {
  }
}
