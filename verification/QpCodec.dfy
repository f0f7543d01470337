/** Quoted-printable text (section 6.7 of RFC 2045): what encoding, line wrapping and decoding do to a
    whole text, and why decoding gives the text back. */
module QpCodec {
  type byte = x: int | 0 <= x < 256

  const CR: byte := 13
  const LF: byte := 10
  const EQ: byte := 61
  const CRLF: seq<byte> := [13, 10]
  const EQCRLF: seq<byte> := [61, 13, 10]

  // ---------- bytes ----------

  /** qpclass: QP_PLAIN and QP_IF_LAST. */
  predicate IsPlain(c: byte) { 33 <= c <= 60 || 62 <= c <= 126 }
  predicate IsBlank(c: byte) { c == 9 || c == 32 }

  /** qpbase and qpunbase. */
  function Hex(d: byte): (h: byte)
    requires d < 16
  {
    if d < 10 then 48 + d else 55 + d
  }

  function UnHex(h: byte): byte {
    if 48 <= h <= 57 then h - 48 else if 65 <= h <= 70 then h - 55 else if 97 <= h <= 102 then h - 87 else 255
  }

  function Quote(c: byte): (r: seq<byte>)
    ensures |r| == 3
  {
    [EQ, Hex(c / 16), Hex(c % 16)]
  }

  // ---------- tokens ----------

  /** A byte as it is, a byte as =XX, the end of a line, and a soft line break. */
  datatype Tok = Plain(b: byte) | Quoted(b: byte) | Hard | Soft

  predicate ValidTok(t: Tok) { t.Plain? ==> IsPlain(t.b) || IsBlank(t.b) }
  predicate ValidToks(ts: seq<Tok>) { forall i :: 0 <= i < |ts| ==> ValidTok(ts[i]) }

  function TokBytes(t: Tok, marker: seq<byte>): seq<byte> {
    match t case Plain(b) => [b] case Quoted(b) => Quote(b) case Hard => marker case Soft => EQCRLF
  }

  function Bytes(ts: seq<Tok>, marker: seq<byte>): seq<byte> {
    if ts == [] then [] else TokBytes(ts[0], marker) + Bytes(ts[1..], marker)
  }

  function TokMeaning(t: Tok): seq<byte> {
    match t case Plain(b) => [b] case Quoted(b) => [b] case Hard => CRLF case Soft => []
  }

  function Meaning(ts: seq<Tok>): seq<byte> {
    if ts == [] then [] else TokMeaning(ts[0]) + Meaning(ts[1..])
  }

  lemma {:induction false} MeaningAppend(a: seq<Tok>, b: seq<Tok>)
    ensures Meaning(a + b) == Meaning(a) + Meaning(b)
    decreases |a|
  {
    if a == [] { assert a + b == b; } else {
      assert (a + b)[1..] == a[1..] + b;
      MeaningAppend(a[1..], b);
    }
  }

  lemma {:induction false} BytesAppend(a: seq<Tok>, b: seq<Tok>, marker: seq<byte>)
    ensures Bytes(a + b, marker) == Bytes(a, marker) + Bytes(b, marker)
    decreases |a|
  {
    if a == [] { assert a + b == b; } else {
      assert (a + b)[1..] == a[1..] + b;
      BytesAppend(a[1..], b, marker);
    }
  }

  // ---------- encoding ----------

  /** What qppad makes of a byte that is left over. */
  function PadTok(c: byte): Tok { if IsPlain(c) then Plain(c) else Quoted(c) }

  /** The text as tokens.  A blank is quoted at the end of a line; the last bytes, about which nothing
      more can be known, are padded. */
  function Toks(x: seq<byte>): seq<Tok> {
    if x == [] then []
    else if x[0] == CR then
      if |x| < 2 then [Quoted(CR), Soft]
      else if x[1] == LF then [Hard] + Toks(x[2..])
      else [Quoted(CR)] + Toks(x[1..])
    else if IsBlank(x[0]) then
      if |x| < 3 then [Quoted(x[0])] + (if |x| == 2 then [PadTok(x[1])] else []) + [Soft]
      else if x[1] == CR && x[2] == LF then [Quoted(x[0]), Hard] + Toks(x[3..])
      else [Plain(x[0])] + Toks(x[1..])
    else [PadTok(x[0])] + Toks(x[1..])
  }

  function Encode(x: seq<byte>, marker: seq<byte>): seq<byte> { Bytes(Toks(x), marker) }

  lemma {:induction false} ToksMeanText(x: seq<byte>)
    ensures Meaning(Toks(x)) == x && ValidToks(Toks(x))
    decreases |x|
  {
    NoTokens();
    hide Meaning, ValidToks;
    if x != [] {
      if x[0] == CR {
        if |x| >= 2 && x[1] == LF { ToksMeanText(x[2..]); TwoFirst(Hard, Toks(x[2..])); assert x == CRLF + x[2..]; }
        else if |x| >= 2 { ToksMeanText(x[1..]); TwoFirst(Quoted(CR), Toks(x[1..])); }
        else { TwoFirst(Soft, []); TwoFirst(Quoted(CR), [Soft]); assert [Soft] + [] == [Soft] && [Quoted(CR)] + [Soft] == [Quoted(CR), Soft]; }
      } else if IsBlank(x[0]) && |x| < 3 {
        LastToks(x);
      } else if IsBlank(x[0]) && x[1] == CR && x[2] == LF {
        ToksMeanText(x[3..]);
        BlankBeforeHard(x);
      } else {
        ToksMeanText(x[1..]);
        TwoFirst(if IsBlank(x[0]) then Plain(x[0]) else PadTok(x[0]), Toks(x[1..]));
      }
    }
  }

  const UPPER: seq<byte> := [48, 49, 50, 51, 52, 53, 54, 55, 56, 57, 65, 66, 67, 68, 69, 70]
  const LOWER: seq<byte> := [48, 49, 50, 51, 52, 53, 54, 55, 56, 57, 97, 98, 99, 100, 101, 102]

  /** A byte that is no blank and no carriage return: visible ASCII goes out as it is, but for the equal sign; anything
      else as an equal sign and two upper-case hexadecimal digits. */
  lemma ByteEncoded(c: byte, marker: seq<byte>)
    requires c != 9 && c != 32 && c != 13
    ensures Encode([c], marker) == if 33 <= c <= 126 && c != 61 then [c] else [61, UPPER[c / 16], UPPER[c % 16]]
  {
    assert [PadTok(c)][1..] == [] && [c][1..] == [];
    assert Toks([]) == [] && Bytes([], marker) == [];
    assert Toks([c]) == [PadTok(c)];
    HexIs(c / 16);
    HexIs(c % 16);
  }

  lemma HexIs(d: byte)
    requires d < 16
    ensures Hex(d) == UPPER[d] && UnHex(UPPER[d]) == d && UnHex(LOWER[d]) == d
  {
  }

  /** Two hexadecimal digits of either case behind an equal sign are a byte. */
  lemma HexRead(a: byte, b: byte, upper: bool, lower: bool, rest: seq<byte>)
    requires a < 16 && b < 16
    ensures var y := [61, if upper then UPPER[a] else LOWER[a], if lower then LOWER[b] else UPPER[b]];
      Decode(y + rest) == [16 * a + b] + Decode(rest)
  {
    hide UnHex;
    HexIs(a);
    HexIs(b);
    PairRead(if upper then UPPER[a] else LOWER[a], if lower then LOWER[b] else UPPER[b], rest);
  }

  lemma PairRead(p: byte, q: byte, rest: seq<byte>)
    requires UnHex(p) <= 15 && UnHex(q) <= 15
    ensures Decode([61, p, q] + rest) == [16 * UnHex(p) + UnHex(q)] + Decode(rest)
  {
    assert ([61, p, q] + rest)[3..] == rest;
  }

  /** Anything else behind an equal sign stays, and a byte that is no tab and not visible ASCII is dropped. */
  lemma OtherRead(a: byte, b: byte, c: byte, rest: seq<byte>)
    ensures (a !in UPPER && a !in LOWER) || (b !in UPPER && b !in LOWER) ==> [a, b] == [13, 10] || Decode([61, a, b] + rest) == [61, a, b] + Decode(rest)
    ensures c != 9 && c != 13 && !(32 <= c <= 126) ==> Decode([c] + rest) == Decode(rest)
  {
    NoHex(a);
    NoHex(b);
    assert ([61, a, b] + rest)[3..] == rest && ([61, a, b] + rest)[..3] == [61, a, b] && ([c] + rest)[1..] == rest;
  }

  lemma NoHex(a: byte)
    ensures UnHex(a) > 15 <==> a !in UPPER && a !in LOWER
  {
    if UnHex(a) <= 15 { assert UPPER[UnHex(a)] == a || LOWER[UnHex(a)] == a; }
    if a in UPPER { var d :| 0 <= d < 16 && UPPER[d] == a; HexIs(d); }
    if a in LOWER { var d :| 0 <= d < 16 && LOWER[d] == a; HexIs(d); }
  }

  lemma NoTokens()
    ensures Meaning([]) == [] && ValidToks([])
  {
  }

  lemma TwoFirst(t: Tok, ts: seq<Tok>)
    ensures Meaning([t] + ts) == TokMeaning(t) + Meaning(ts)
    ensures ValidTok(t) && ValidToks(ts) ==> ValidToks([t] + ts)
  {
    assert ([t] + ts)[1..] == ts;
  }

  lemma BlankBeforeHard(x: seq<byte>)
    requires |x| >= 3 && IsBlank(x[0]) && x[1] == CR && x[2] == LF && Meaning(Toks(x[3..])) == x[3..] && ValidToks(Toks(x[3..]))
    ensures Meaning(Toks(x)) == x && ValidToks(Toks(x))
  {
    hide Meaning, ValidToks;
    var ts := Toks(x[3..]);
    TwoFirst(Hard, ts);
    TwoFirst(Quoted(x[0]), [Hard] + ts);
    assert [Quoted(x[0])] + ([Hard] + ts) == [Quoted(x[0]), Hard] + ts;
    assert x == [x[0]] + (CRLF + x[3..]);
  }

  lemma LastToks(x: seq<byte>)
    requires 1 <= |x| <= 2 && IsBlank(x[0])
    ensures Meaning(Toks(x)) == x && ValidToks(Toks(x))
  {
    NoTokens();
    hide Meaning, ValidToks;
    TwoFirst(Soft, []);
    assert [Soft] + [] == [Soft];
    if |x| == 2 {
      TwoFirst(PadTok(x[1]), [Soft]);
      TwoFirst(Quoted(x[0]), [PadTok(x[1])] + [Soft]);
      assert [Quoted(x[0])] + ([PadTok(x[1])] + [Soft]) == Toks(x);
    } else {
      TwoFirst(Quoted(x[0]), [Soft]);
      assert [Quoted(x[0])] + [Soft] == Toks(x);
    }
  }

  // ---------- decoding ----------

  /** Incomplete bytes at the end are dropped. */
  function Decode(y: seq<byte>): seq<byte>
    decreases |y|
  {
    if y == [] then []
    else if y[0] == EQ then
      if |y| < 3 then []
      else if y[1] == CR && y[2] == LF then Decode(y[3..])
      else if UnHex(y[1]) > 15 || UnHex(y[2]) > 15 then y[..3] + Decode(y[3..])
      else [16 * UnHex(y[1]) + UnHex(y[2])] + Decode(y[3..])
    else if y[0] == CR then
      if |y| < 2 then []
      else if y[1] == LF then CRLF + Decode(y[2..])
      else Decode(y[2..])
    else if y[0] == 9 || 31 < y[0] < 127 then [y[0]] + Decode(y[1..])
    else Decode(y[1..])
  }

  lemma DecodeTok(t: Tok, rest: seq<byte>)
    requires ValidTok(t)
    ensures Decode(TokBytes(t, CRLF) + rest) == TokMeaning(t) + Decode(rest)
  {
    var y := TokBytes(t, CRLF) + rest;
    match t
    case Plain(b) => assert y[1..] == rest;
    case Quoted(b) =>
      assert y[3..] == rest && y[1] == Hex(b / 16) && y[2] == Hex(b % 16);
      assert UnHex(Hex(b / 16)) == b / 16 && UnHex(Hex(b % 16)) == b % 16;
    case Hard => assert y[2..] == rest;
    case Soft => assert y[3..] == rest;
  }

  /** Decoding takes tokens for what they mean. */
  lemma {:induction false} DecodeToks(ts: seq<Tok>, rest: seq<byte>)
    requires ValidToks(ts)
    ensures Decode(Bytes(ts, CRLF) + rest) == Meaning(ts) + Decode(rest)
    decreases |ts|
  {
    hide Decode, TokBytes;
    if ts == [] {
      assert Bytes(ts, CRLF) + rest == rest;
    } else {
      assert Bytes(ts, CRLF) + rest == TokBytes(ts[0], CRLF) + (Bytes(ts[1..], CRLF) + rest);
      DecodeTok(ts[0], Bytes(ts[1..], CRLF) + rest);
      DecodeToks(ts[1..], rest);
    }
  }

  // ---------- wrapping ----------

  datatype Wrapped = Wrapped(out: seq<byte>, left: int)

  /** One byte of qpwrp: left is what remains of the line. */
  function WrapByte(left: int, c: byte, length: int): Wrapped {
    if c == CR then Wrapped([], left)
    else if c == LF then Wrapped(CRLF, length)
    else if left <= (if c == EQ then 3 else 1) then Wrapped(EQCRLF + [c], length - 1)
    else Wrapped([c], left - 1)
  }

  function Wrap(left: int, y: seq<byte>, length: int): Wrapped
    decreases |y|
  {
    if y == [] then Wrapped([], left)
    else
      var w := WrapByte(left, y[0], length);
      var r := Wrap(w.left, y[1..], length);
      Wrapped(w.out + r.out, r.left)
  }

  /** What is written when the text ends. */
  function Ending(left: int, length: int): seq<byte> { if left < length then EQCRLF else [] }

  lemma {:induction false} WrapAppend(left: int, a: seq<byte>, b: seq<byte>, length: int)
    ensures var w := Wrap(left, a, length);
            var r := Wrap(w.left, b, length);
            Wrap(left, a + b, length) == Wrapped(w.out + r.out, r.left)
    decreases |a|
  {
    if a == [] {
      assert a + b == b;
      assert [] + Wrap(left, b, length).out == Wrap(left, b, length).out;
    } else {
      assert (a + b)[1..] == a[1..] + b;
      var w := WrapByte(left, a[0], length);
      WrapAppend(w.left, a[1..], b, length);
      var w2 := Wrap(w.left, a[1..], length);
      var r := Wrap(w2.left, b, length);
      assert w.out + (w2.out + r.out) == (w.out + w2.out) + r.out;
    }
  }

  function Need(t: Tok): int { if t.Plain? then 1 else 3 }

  /** Wrapping, in tokens: a soft break goes before what does not fit. */
  function WrapTok(left: int, t: Tok): seq<Tok> {
    if !t.Hard? && left <= Need(t) then [Soft, t] else [t]
  }

  function LeftAfter(left: int, t: Tok, length: int): int {
    match t
    case Hard => length
    case Soft => length
    case _ => (if left <= Need(t) then length else left) - Need(t)
  }

  function WrapToks(left: int, ts: seq<Tok>, length: int): seq<Tok>
    decreases |ts|
  {
    if ts == [] then [] else WrapTok(left, ts[0]) + WrapToks(LeftAfter(left, ts[0], length), ts[1..], length)
  }

  lemma WrapOneTok(left: int, t: Tok, length: int)
    requires ValidTok(t) && length >= 4
    ensures Wrap(left, TokBytes(t, CRLF), length) == Wrapped(Bytes(WrapTok(left, t), CRLF), LeftAfter(left, t, length))
  {
    BytesOne(t);
    hide Bytes;
    match t
    case Plain(b) => WrapOne(left, b, length);
    case Quoted(b) => WrapThree(left, Quote(b), length);
    case Hard =>
      assert CRLF[1..] == [LF];
      WrapOne(left, LF, length);
    case Soft =>
      assert EQCRLF[1..] == CRLF && CRLF[1..] == [LF];
      var l1 := WrapByte(left, EQ, length).left;
      WrapOne(l1, LF, length);
  }

  lemma BytesOne(t: Tok)
    ensures Bytes([t], CRLF) == TokBytes(t, CRLF) && Bytes([Soft, t], CRLF) == EQCRLF + TokBytes(t, CRLF)
  {
    assert [Soft, t][1..] == [t] && [t][1..] == [];
    assert Bytes([t], CRLF) == TokBytes(t, CRLF) + [];
  }

  lemma WrapOne(left: int, c: byte, length: int)
    ensures Wrap(left, [c], length) == WrapByte(left, c, length)
  {
    assert [c][1..] == [];
  }

  lemma WrapThree(left: int, y: seq<byte>, length: int)
    requires |y| == 3 && length >= 4 && y[0] == EQ && 33 <= y[1] && y[1] != EQ && 33 <= y[2] && y[2] != EQ
    ensures Wrap(left, y, length) == if left <= 3 then Wrapped(EQCRLF + y, length - 3) else Wrapped(y, left - 3)
  {
    var l1 := WrapByte(left, EQ, length).left;
    assert y[1..][1..] == [y[2]];
    WrapOne(l1 - 1, y[2], length);
    assert y == [y[0]] + ([y[1]] + [y[2]]);
  }

  /** No quoted byte is split: the output is made of whole tokens. */
  lemma {:induction false} WrapBytes(left: int, ts: seq<Tok>, length: int)
    requires ValidToks(ts) && length >= 4
    ensures Wrap(left, Bytes(ts, CRLF), length).out == Bytes(WrapToks(left, ts, length), CRLF)
    ensures ValidToks(WrapToks(left, ts, length)) && Meaning(WrapToks(left, ts, length)) == Meaning(ts)
    decreases |ts|
  {
    if ts != [] {
      var t, l1, more := ts[0], LeftAfter(left, ts[0], length), WrapToks(LeftAfter(left, ts[0], length), ts[1..], length);
      WrapBytes(l1, ts[1..], length);
      assert Bytes(ts, CRLF) == TokBytes(t, CRLF) + Bytes(ts[1..], CRLF) && Meaning(ts) == TokMeaning(t) + Meaning(ts[1..]);
      WrapTokMeans(left, t);
      hide Wrap, TokBytes, Bytes, Meaning, WrapTok;
      WrapOneTok(left, t, length);
      WrapAppend(left, TokBytes(t, CRLF), Bytes(ts[1..], CRLF), length);
      BytesAppend(WrapTok(left, t), more, CRLF);
      MeaningAppend(WrapTok(left, t), more);
    }
  }

  lemma WrapTokMeans(left: int, t: Tok)
    ensures Meaning(WrapTok(left, t)) == TokMeaning(t) && (ValidTok(t) ==> ValidToks(WrapTok(left, t)))
  {
    assert [Soft, t][1..] == [t] && [t][1..] == [];
    assert Meaning([t]) == TokMeaning(t) + [];
  }

  /** The column after some tokens that start in a column. */
  function Column(at: int, ts: seq<Tok>): int
    decreases |ts|
  {
    if ts == [] then at else Column(if ts[0].Hard? || ts[0].Soft? then 0 else at + Need(ts[0]), ts[1..])
  }

  lemma {:induction false} ColumnAppend(at: int, a: seq<Tok>, b: seq<Tok>)
    ensures Column(at, a + b) == Column(Column(at, a), b)
    decreases |a|
  {
    if a == [] { assert a + b == b; } else {
      assert (a + b)[1..] == a[1..] + b;
      ColumnAppend(if a[0].Hard? || a[0].Soft? then 0 else at + Need(a[0]), a[1..], b);
    }
  }

  /** Lines are filled: a soft break is put only before a token that would not leave room for the sign of a soft break
      behind it. */
  lemma {:induction false} LinesFilled(left: int, ts: seq<Tok>, length: int, i: nat)
    requires forall j :: 0 <= j < |ts| - 1 ==> ts[j] != Soft
    requires i + 1 < |WrapToks(left, ts, length)| && WrapToks(left, ts, length)[i] == Soft
    ensures Column(length - left, WrapToks(left, ts, length)[..i]) + Need(WrapToks(left, ts, length)[i + 1]) >= length
    decreases |ts|
  {
    hide Column;
    var out, t := WrapToks(left, ts, length), ts[0];
    var w, rest := WrapTok(left, t), WrapToks(LeftAfter(left, t, length), ts[1..], length);
    assert out == w + rest;
    if i < |w| {
      if |ts| == 1 { assert rest == []; }
      assert i == 0 && w == [Soft, t];
      assert out[..0] == [];
      ColumnNone(length - left);
    } else {
      assert out[..i] == w + rest[..i - |w|];
      LinesFilled(LeftAfter(left, t, length), ts[1..], length, i - |w|);
      ColumnAppend(length - left, w, rest[..i - |w|]);
      ColumnAfter(left, t, length);
    }
  }

  lemma ColumnNone(at: int)
    ensures Column(at, []) == at
  {
  }

  lemma ColumnAfter(left: int, t: Tok, length: int)
    ensures Column(length - left, WrapTok(left, t)) == length - LeftAfter(left, t, length)
  {
    hide Column;
    ColumnOne(length - left, t);
    ColumnOne(length - left, Soft);
    ColumnOne(0, t);
    ColumnAppend(length - left, [Soft], [t]);
    assert [Soft] + [t] == [Soft, t];
  }

  lemma ColumnOne(at: int, t: Tok)
    ensures Column(at, [t]) == if t.Hard? || t.Soft? then 0 else at + Need(t)
  {
    assert [t][1..] == [];
  }

  // ---------- line ends spelled out ----------

  /** What may stand for the end of a line: CRLF for text, its two bytes quoted for anything else. */
  const QUOTED_CRLF: seq<byte> := [61, 48, 68, 61, 48, 65]

  predicate IsMarker(marker: seq<byte>) { marker == CRLF || marker == QUOTED_CRLF }

  /** The tokens whose bytes are written, when each end of a line is spelled as the marker. */
  function Spelled(ts: seq<Tok>, marker: seq<byte>): seq<Tok> {
    if ts == [] then []
    else (if ts[0] == Hard && marker == QUOTED_CRLF then [Quoted(CR), Quoted(LF)] else [ts[0]]) + Spelled(ts[1..], marker)
  }

  lemma QuotedEnd()
    ensures Bytes([Quoted(CR), Quoted(LF)], CRLF) == QUOTED_CRLF && Meaning([Quoted(CR), Quoted(LF)]) == CRLF
  {
    var ts := [Quoted(CR), Quoted(LF)];
    assert ts[1..] == [Quoted(LF)] && [Quoted(LF)][1..] == [];
    assert Quote(CR) == [61, 48, 68] && Quote(LF) == [61, 48, 65];
    assert Bytes([Quoted(LF)], CRLF) == Quote(LF) + [];
    assert Meaning([Quoted(LF)]) == [LF] + [];
  }

  /** Spelling keeps bytes and meaning. */
  lemma {:induction false} SpelledIs(ts: seq<Tok>, marker: seq<byte>)
    requires IsMarker(marker)
    ensures Bytes(Spelled(ts, marker), CRLF) == Bytes(ts, marker) && Meaning(Spelled(ts, marker)) == Meaning(ts)
    ensures ValidToks(ts) ==> ValidToks(Spelled(ts, marker))
    decreases |ts|
  {
    if ts != [] {
      var rest := Spelled(ts[1..], marker);
      SpelledIs(ts[1..], marker);
      SpelledFirst(ts[0], marker);
      var first := if ts[0] == Hard && marker == QUOTED_CRLF then [Quoted(CR), Quoted(LF)] else [ts[0]];
      BytesAppend(first, rest, CRLF);
      MeaningAppend(first, rest);
    }
  }

  lemma SpelledFirst(t: Tok, marker: seq<byte>)
    requires IsMarker(marker)
    ensures var first := if t == Hard && marker == QUOTED_CRLF then [Quoted(CR), Quoted(LF)] else [t];
      Bytes(first, CRLF) == TokBytes(t, marker) && Meaning(first) == TokMeaning(t)
  {
    QuotedEnd();
    BytesOne(t);
    WrapTokMeans(4, t);
  }

  // ---------- the whole way ----------

  /** Wrapping a whole text, with its ending. */
  function WrappedWhole(y: seq<byte>, length: int): seq<byte> {
    var w := Wrap(length, y, length);
    w.out + Ending(w.left, length)
  }

  /** Encoding and wrapping a text that is sent as a whole. */
  function Sent(x: seq<byte>, marker: seq<byte>, length: int): seq<byte> { WrappedWhole(Encode(x, marker), length) }

  lemma WrappedBack(ts: seq<Tok>, length: int)
    requires length >= 4 && ValidToks(ts)
    ensures Decode(WrappedWhole(Bytes(ts, CRLF), length)) == Meaning(ts)
  {
    WrapBytes(length, ts, length);
    var w := Wrap(length, Bytes(ts, CRLF), length);
    DecodeToks(WrapToks(length, ts, length), Ending(w.left, length));
    if w.left < length { DecodeTok(Soft, []); assert EQCRLF + [] == EQCRLF; }
  }

  /** Decoding gives the text back. */
  lemma RoundTrip(x: seq<byte>, marker: seq<byte>, length: int)
    requires length >= 4 && IsMarker(marker)
    ensures Decode(Sent(x, marker, length)) == x
  {
    hide Decode, WrappedWhole, Bytes, Meaning, ValidToks, Spelled;
    ToksMeanText(x);
    SpelledIs(Toks(x), marker);
    WrappedBack(Spelled(Toks(x), marker), length);
  }

  /** Lines of fewer than 4 bytes do not hold a quoted byte and a soft break: then a zero byte is lost. */
  lemma ShortLinesLose(marker: seq<byte>, length: int)
    requires length < 4
    ensures Decode(Sent([0], marker, length)) != [0]
  {
    hide Decode, Sent;
    var z := SentZero(marker, length);
    DecodeTok(Soft, z);
    BadQuote(z);
    assert [] + Decode(z) == Decode(z);
    assert Decode(Sent([0], marker, length))[0] == EQ;
  }

  lemma SentZero(marker: seq<byte>, length: int) returns (z: seq<byte>)
    requires length < 4
    ensures Sent([0], marker, length) == EQCRLF + z && |z| >= 3 && z[0] == EQ && z[1] != CR && (z[1] == EQ || z[2] == EQ)
  {
    hide Wrap, Encode;
    EncodedZero(marker);
    WrappedZero(length);
    z := if length == 3 then [61, 48, 61, 13, 10, 48, 61, 13, 10] else [61, 61, 13, 10, 48, 61, 13, 10, 48, 61, 13, 10];
    var w: seq<byte> := if length == 3 then [61, 13, 10, 61, 48, 61, 13, 10, 48] else [61, 13, 10, 61, 61, 13, 10, 48, 61, 13, 10, 48];
    assert Wrap(length, Encode([0], marker), length).out + Ending(Wrap(length, Encode([0], marker), length).left, length) == w + EQCRLF;
    assert w + EQCRLF == EQCRLF + z;
  }

  lemma EncodedZero(marker: seq<byte>)
    ensures Encode([0], marker) == [61, 48, 48]
  {
    assert Toks([0]) == [Quoted(0)] by { assert [0][1..] == []; }
    assert [Quoted(0)][1..] == [];
    assert Bytes([Quoted(0)], marker) == Quote(0) + [];
  }

  lemma WrappedZero(length: int)
    requires length < 4
    ensures Wrap(length, [61, 48, 48], length) == if length == 3 then Wrapped([61, 13, 10, 61, 48, 61, 13, 10, 48], 2) else Wrapped([61, 13, 10, 61, 61, 13, 10, 48, 61, 13, 10, 48], length - 1)
  {
    var e: seq<byte> := [61, 48, 48];
    assert e[1..] == [48, 48] && e[1..][1..] == [48];
    var w1, w2 := WrapByte(length, 61, length), WrapByte(length - 1, 48, length);
    WrapOne(w2.left, 48, length);
    assert Wrap(length - 1, e[1..], length) == Wrapped(w2.out + WrapByte(w2.left, 48, length).out, WrapByte(w2.left, 48, length).left);
  }

  /** An = that no code follows is kept. */
  lemma BadQuote(z: seq<byte>)
    requires |z| >= 3 && z[0] == EQ && z[1] != CR && (UnHex(z[1]) > 15 || UnHex(z[2]) > 15)
    ensures Decode(z) != [] && Decode(z)[0] == EQ
  {
  }

  /** The round trip works for all texts exactly if lines have at least 4 bytes. */
  lemma RoundTripExact(marker: seq<byte>, length: int)
    requires IsMarker(marker)
    ensures (forall x: seq<byte> :: Decode(Sent(x, marker, length)) == x) <==> length >= 4
  {
    if length < 4 { ShortLinesLose(marker, length); }
    else {
      forall x: seq<byte> ensures Decode(Sent(x, marker, length)) == x { RoundTrip(x, marker, length); }
    }
  }

  // ---------- lines ----------

  /** No line is longer than length or ends in a blank: col bytes of the current one come before y. */
  predicate GoodLines(y: seq<byte>, col: nat, blank: bool, length: int)
    decreases |y|
  {
    if y == [] then col <= length && !blank
    else if y[0] == CR && |y| >= 2 && y[1] == LF then col <= length && !blank && GoodLines(y[2..], 0, false, length)
    else GoodLines(y[1..], col + 1, IsBlank(y[0]), length)
  }

  /** A blank that is not quoted does not come before the end of a line. */
  predicate BlanksInside(ts: seq<Tok>) {
    forall i :: 0 <= i < |ts| - 1 ==> ts[i].Plain? && IsBlank(ts[i].b) ==> ts[i + 1] != Hard
  }

  lemma {:induction false} ToksBlanksInside(x: seq<byte>)
    ensures BlanksInside(Toks(x))
    ensures Toks(x) != [] && Toks(x)[0] == Hard ==> |x| >= 2 && x[..2] == CRLF
    decreases |x|
  {
    if x != [] {
      if x[0] == CR {
        if |x| >= 2 { ToksBlanksInside(if x[1] == LF then x[2..] else x[1..]); }
      } else if IsBlank(x[0]) {
        if |x| >= 3 { ToksBlanksInside(if x[1] == CR && x[2] == LF then x[3..] else x[1..]); }
      } else {
        ToksBlanksInside(x[1..]);
      }
    }
  }

  lemma GoodTok(t: Tok, rest: seq<byte>, col: nat, blank: bool, length: int)
    requires ValidTok(t) && length >= 4 && (t.Hard? ==> !blank)
    requires match t case Hard => col <= length case _ => true
    ensures GoodLines(TokBytes(t, CRLF) + rest, col, blank, length) ==
            (match t
             case Plain(b) => GoodLines(rest, col + 1, IsBlank(b), length)
             case Quoted(_) => GoodLines(rest, col + 3, false, length)
             case Hard => GoodLines(rest, 0, false, length)
             case Soft => col + 1 <= length && GoodLines(rest, 0, false, length))
  {
    var y := TokBytes(t, CRLF) + rest;
    match t
    case Plain(_) => assert y[1..] == rest;
    case Quoted(b) =>
      var y1, y2 := y[1..], y[1..][1..];
      assert y1 == [y[1], y[2]] + rest && y2 == [y[2]] + rest && y2[1..] == rest;
      assert y[1] > 32 && y[2] > 32;
      assert GoodLines(y1, col + 1, false, length) == GoodLines(y2, col + 2, false, length);
    case Hard => assert y[2..] == rest;
    case Soft => assert y[1..][2..] == rest;
  }

  /** Wrapped lines have at most length bytes, and do not end in a blank. */
  lemma {:induction false} WrappedLines(left: int, ts: seq<Tok>, blank: bool, length: int)
    requires ValidToks(ts) && BlanksInside(ts) && 1 <= left <= length && length >= 4
    requires ts != [] && ts[0] == Hard ==> !blank
    requires blank ==> left < length
    ensures GoodLines(Bytes(WrapToks(left, ts, length), CRLF) + Ending(Wrap(left, Bytes(ts, CRLF), length).left, length), length - left, blank, length)
    decreases |ts|
  {
    hide GoodLines, Wrap;
    var end := Ending(Wrap(left, Bytes(ts, CRLF), length).left, length);
    if ts == [] {
      WrapNothing(left, length);
      EndLines(left, blank, length);
      assert Bytes([], CRLF) + end == end;
    } else {
      var t, more, l1 := ts[0], ts[1..], LeftAfter(left, ts[0], length);
      WrapOneTok(left, t, length);
      WrapAppend(left, TokBytes(t, CRLF), Bytes(more, CRLF), length);
      var rest := Bytes(WrapToks(l1, more, length), CRLF) + end;
      assert more != [] ==> more[0] == ts[1];
      WrappedLines(l1, more, t.Plain? && IsBlank(t.b), length);
      OneMoreTok(left, t, WrapToks(l1, more, length), end);
      if left <= Need(t) && !t.Hard? {
        GoodTok(Soft, TokBytes(t, CRLF) + rest, length - left, blank, length);
        GoodTok(t, rest, 0, false, length);
      } else {
        GoodTok(t, rest, length - left, blank, length);
      }
    }
  }

  lemma WrapNothing(left: int, length: int)
    ensures Wrap(left, [], length) == Wrapped([], left)
  {
  }

  lemma EndLines(left: int, blank: bool, length: int)
    requires 1 <= left <= length && length >= 4 && (blank ==> left < length)
    ensures GoodLines(Ending(left, length), length - left, blank, length)
  {
    if left < length { GoodTok(Soft, [], length - left, blank, length); assert EQCRLF + [] == EQCRLF; }
  }

  lemma OneMoreTok(left: int, t: Tok, more: seq<Tok>, end: seq<byte>)
    ensures Bytes(WrapTok(left, t) + more, CRLF) + end ==
            if !t.Hard? && left <= Need(t) then EQCRLF + (TokBytes(t, CRLF) + (Bytes(more, CRLF) + end)) else TokBytes(t, CRLF) + (Bytes(more, CRLF) + end)
  {
    BytesAppend(WrapTok(left, t), more, CRLF);
    BytesOne(t);
    hide Bytes;
    var a, b := TokBytes(t, CRLF), Bytes(more, CRLF);
    assert (a + b) + end == a + (b + end);
    assert (EQCRLF + a + b) + end == EQCRLF + (a + (b + end));
  }

  lemma {:induction false} SpelledBlanks(ts: seq<Tok>, marker: seq<byte>)
    requires IsMarker(marker) && BlanksInside(ts)
    ensures BlanksInside(Spelled(ts, marker)) && (Spelled(ts, marker) == [] <==> ts == [])
    ensures ts != [] ==> Spelled(ts, marker)[0] == if ts[0] == Hard && marker == QUOTED_CRLF then Quoted(CR) else ts[0]
    decreases |ts|
  {
    if ts != [] {
      var more, rest := ts[1..], Spelled(ts[1..], marker);
      BlanksRest(ts);
      SpelledBlanks(more, marker);
      if ts[0] == Hard && marker == QUOTED_CRLF {
        BlanksFirst(Quoted(LF), rest);
        BlanksFirst(Quoted(CR), [Quoted(LF)] + rest);
        assert [Quoted(CR)] + ([Quoted(LF)] + rest) == Spelled(ts, marker);
      } else {
        BlanksFirst(ts[0], rest);
      }
    }
  }

  lemma BlanksRest(ts: seq<Tok>)
    requires BlanksInside(ts) && ts != []
    ensures BlanksInside(ts[1..]) && (ts[0].Plain? && IsBlank(ts[0].b) && |ts| > 1 ==> ts[1] != Hard)
  {
    forall i | 0 <= i < |ts| - 2 && ts[1..][i].Plain? && IsBlank(ts[1..][i].b) ensures ts[1..][i + 1] != Hard { assert ts[1..][i] == ts[i + 1]; }
  }

  lemma BlanksFirst(t: Tok, ts: seq<Tok>)
    requires BlanksInside(ts) && (t.Plain? && IsBlank(t.b) && ts != [] ==> ts[0] != Hard)
    ensures BlanksInside([t] + ts)
  {
    var us := [t] + ts;
    forall i | 0 <= i < |us| - 1 && us[i].Plain? && IsBlank(us[i].b) ensures us[i + 1] != Hard { if i > 0 { assert us[i] == ts[i - 1]; } }
  }

  lemma WrappedGood(ts: seq<Tok>, length: int)
    requires length >= 4 && ValidToks(ts) && BlanksInside(ts)
    ensures GoodLines(WrappedWhole(Bytes(ts, CRLF), length), 0, false, length)
  {
    hide GoodLines, Wrap;
    WrapBytes(length, ts, length);
    WrappedLines(length, ts, false, length);
  }

  /** What is sent has good lines. */
  lemma SentLines(x: seq<byte>, marker: seq<byte>, length: int)
    requires length >= 4 && IsMarker(marker)
    ensures GoodLines(Sent(x, marker, length), 0, false, length)
  {
    hide GoodLines, WrappedWhole, Bytes, Meaning, ValidToks, Spelled, BlanksInside;
    ToksMeanText(x);
    ToksBlanksInside(x);
    SpelledIs(Toks(x), marker);
    SpelledBlanks(Toks(x), marker);
    WrappedGood(Spelled(Toks(x), marker), length);
  }
}
