/** The quoted-printable filters in their own form: a few bytes wait in a small buffer until it is
    certain what becomes of them.  However a text is cut into chunks, the filters produce the same. */
module QpFilters {
  import opened QpCodec

  datatype Option<T> = None | Some(value: T)

  /** luaL_Buffer. */
  class Buffer {
    var data: seq<byte>

    constructor ()
      ensures data == []
    {
      data := [];
    }

    method Put(s: seq<byte>)
      modifies this
      ensures data == old(data) + s
    {
      data := data + s;
    }
  }

  // ---------- encoding ----------

  /** Bytes about which nothing can be said before more come. */
  predicate Waiting(p: seq<byte>) { p == [] || p == [CR] || (1 <= |p| <= 2 && IsBlank(p[0])) }

  /** f is computed bit by bit: out is what is known of its result for texts that start with from, and
      the rest is its result with the bytes p still waiting. */
  ghost predicate Streams(f: seq<byte> -> seq<byte>, from: seq<byte>, out: seq<byte>, p: seq<byte>) {
    forall rest: seq<byte> :: StreamsAt(f, from, out, p, rest)
  }

  predicate StreamsAt(f: seq<byte> -> seq<byte>, from: seq<byte>, out: seq<byte>, p: seq<byte>, rest: seq<byte>) {
    f(from + rest) == out + f(p + rest)
  }

  lemma StreamsNothing(f: seq<byte> -> seq<byte>, p: seq<byte>)
    ensures Streams(f, p, [], p)
  {
    forall rest: seq<byte> ensures StreamsAt(f, p, [], p, rest) { assert [] + f(p + rest) == f(p + rest); }
  }

  lemma StreamsOn(f: seq<byte> -> seq<byte>, from: seq<byte>, out: seq<byte>, p: seq<byte>, more: seq<byte>, out2: seq<byte>, p2: seq<byte>)
    requires Streams(f, from, out, p) && Streams(f, p + more, out2, p2)
    ensures Streams(f, from + more, out + out2, p2)
  {
    forall rest: seq<byte> ensures StreamsAt(f, from + more, out + out2, p2, rest) {
      assert (from + more) + rest == from + (more + rest) && (p + more) + rest == p + (more + rest);
      assert StreamsAt(f, from, out, p, more + rest);
      assert StreamsAt(f, p + more, out2, p2, rest);
    }
  }

  lemma StreamsEnd(f: seq<byte> -> seq<byte>, from: seq<byte>, out: seq<byte>, p: seq<byte>)
    requires Streams(f, from, out, p)
    ensures f(from) == out + f(p)
  {
    assert StreamsAt(f, from, out, p, []);
    assert from + [] == from && p + [] == p;
  }

  function Encoder(marker: seq<byte>): seq<byte> -> seq<byte> { (x: seq<byte>) => Encode(x, marker) }

  /** What is known of the encoding. */
  ghost predicate Encodes(from: seq<byte>, out: seq<byte>, p: seq<byte>, marker: seq<byte>) {
    Streams(Encoder(marker), from, out, p)
  }

  lemma EncodesNothing(p: seq<byte>, marker: seq<byte>)
    ensures Encodes(p, [], p, marker)
  {
    StreamsNothing(Encoder(marker), p);
  }

  /** qpencode. */
  method QpEncode(c: byte, input: array<byte>, size0: nat, marker: seq<byte>, buffer: Buffer) returns (size: nat)
    requires input.Length == 3 && size0 <= 2 && Waiting(input[..size0])
    modifies input, buffer
    ensures size <= 2 && Waiting(input[..size]) && old(buffer.data) <= buffer.data
    ensures Encodes(old(input[..size0]) + [c], buffer.data[|old(buffer.data)|..], input[..size], marker)
  {
    hide Encodes, Quote;
    ghost var from, was := input[..size0] + [c], buffer.data;
    size := size0;
    input[size] := c;
    size := size + 1;
    assert input[..size] == from;
    EncodesNothing(from, marker);
    assert buffer.data[|was|..] == [];
    while size > 0
      invariant size <= 3 && was <= buffer.data && (size == 3 ==> IsBlank(input[0]))
      invariant Encodes(from, buffer.data[|was|..], input[..size], marker)
      decreases size
    {
      ghost var out, p := buffer.data[|was|..], input[..size];
      EncodesMore(from, out, p, marker);
      if input[0] == CR {
        if size < 2 { return; }
        if input[1] == LF {
          buffer.Put(marker);
          assert buffer.data[|was|..] == out + marker && input[..0] == p[2..];
          return 0;
        }
        buffer.Put(Quote(input[0]));
      } else if IsBlank(input[0]) {
        if size < 3 { return; }
        if input[1] == CR && input[2] == LF {
          buffer.Put(Quote(input[0]));
          buffer.Put(marker);
          assert buffer.data[|was|..] == out + (Quote(p[0]) + marker) && input[..0] == p[3..];
          return 0;
        }
        buffer.Put([input[0]]);
      } else if IsPlain(input[0]) {
        buffer.Put([input[0]]);
      } else {
        buffer.Put(Quote(input[0]));
      }
      assert buffer.data[|was|..] == out + HeadText(p, marker);
      input[0] := input[1];
      input[1] := input[2];
      size := size - 1;
      assert input[..size] == p[1..];
    }
  }

  /** How many bytes are settled once the first one is. */
  function HeadLength(p: seq<byte>): nat
    requires p != []
  {
    if p[0] == CR && |p| >= 2 && p[1] == LF then 2 else if IsBlank(p[0]) && |p| >= 3 && p[1] == CR && p[2] == LF then 3 else 1
  }

  /** Is the first byte settled? */
  predicate IsSettled(p: seq<byte>) { p != [] && (p[0] == CR ==> |p| >= 2) && (IsBlank(p[0]) ==> |p| >= 3) }

  /** What is written for the first byte, and what goes with it. */
  function HeadText(p: seq<byte>, marker: seq<byte>): seq<byte>
    requires p != []
  {
    if HeadLength(p) == 3 then Quote(p[0]) + marker
    else if HeadLength(p) == 2 then marker
    else if IsPlain(p[0]) || IsBlank(p[0]) then [p[0]]
    else Quote(p[0])
  }

  lemma HeadEncoded(p: seq<byte>, marker: seq<byte>, rest: seq<byte>)
    requires IsSettled(p)
    ensures HeadLength(p) <= |p| && Encode(p + rest, marker) == HeadText(p, marker) + Encode(p[HeadLength(p)..] + rest, marker)
  {
    hide Bytes;
    var y, n := p + rest, HeadLength(p);
    assert y[n..] == p[n..] + rest;
    var ts := Toks(y[n..]);
    var t := if n == 2 then Hard else if n == 3 then Quoted(p[0]) else if IsBlank(p[0]) then Plain(p[0]) else PadTok(p[0]);
    if n == 3 {
      assert Toks(y) == [Quoted(p[0])] + ([Hard] + ts);
      BytesCons(Quoted(p[0]), [Hard] + ts, marker);
      BytesCons(Hard, ts, marker);
      assert Quote(p[0]) + (marker + Bytes(ts, marker)) == (Quote(p[0]) + marker) + Bytes(ts, marker);
    } else {
      assert Toks(y) == [t] + ts;
      BytesCons(t, ts, marker);
    }
  }

  lemma BytesCons(t: Tok, ts: seq<Tok>, marker: seq<byte>)
    ensures Bytes([t] + ts, marker) == TokBytes(t, marker) + Bytes(ts, marker)
  {
    assert ([t] + ts)[1..] == ts;
  }

  lemma EncodesMore(from: seq<byte>, out: seq<byte>, p: seq<byte>, marker: seq<byte>)
    requires Encodes(from, out, p, marker) && p != []
    ensures IsSettled(p) ==> HeadLength(p) <= |p| && Encodes(from, out + HeadText(p, marker), p[HeadLength(p)..], marker)
  {
    if IsSettled(p) {
      HeadEncoded(p, marker, []);
      forall rest: seq<byte> ensures StreamsAt(Encoder(marker), p, HeadText(p, marker), p[HeadLength(p)..], rest) { HeadEncoded(p, marker, rest); }
      assert p + [] == p && from + [] == from;
      StreamsOn(Encoder(marker), from, out, p, [], HeadText(p, marker), p[HeadLength(p)..]);
    }
  }

  /** qppad. */
  method QpPad(input: array<byte>, size: nat, buffer: Buffer, ghost marker: seq<byte>)
    requires size <= 2 && input.Length == 3 && Waiting(input[..size])
    modifies buffer
    ensures buffer.data == old(buffer.data) + Encode(input[..size], marker)
  {
    ghost var p, was := input[..size], buffer.data;
    var i := 0;
    while i < size
      invariant 0 <= i <= size && buffer.data == was + PadText(p[..i])
    {
      if IsPlain(input[i]) { buffer.Put([input[i]]); } else { buffer.Put(Quote(input[i])); }
      assert p[..i + 1][..i] == p[..i];
      i := i + 1;
    }
    if size > 0 { buffer.Put(EQCRLF); }
    assert p[..i] == p;
    PadEncodes(p, marker);
  }

  function PadText(p: seq<byte>): seq<byte> {
    if p == [] then [] else PadText(p[..|p| - 1]) + TokBytes(PadTok(p[|p| - 1]), [])
  }

  lemma PadEncodes(p: seq<byte>, marker: seq<byte>)
    requires Waiting(p)
    ensures Encode(p, marker) == if p == [] then [] else PadText(p) + EQCRLF
  {
    if p != [] {
      BytesCons(Soft, [], marker);
      assert [Soft] + [] == [Soft] && EQCRLF + [] == EQCRLF;
      assert p[..0] == [] && PadText(p[..1]) == [] + TokBytes(PadTok(p[0]), []);
      if |p| == 2 {
        BytesCons(PadTok(p[1]), [Soft], marker);
        BytesCons(Quoted(p[0]), [PadTok(p[1])] + [Soft], marker);
        assert Toks(p) == [Quoted(p[0])] + ([PadTok(p[1])] + [Soft]);
        assert PadText(p) == Quote(p[0]) + TokBytes(PadTok(p[1]), marker);
      } else {
        BytesCons(Quoted(p[0]), [Soft], marker);
        assert p[..1] == p && Toks(p) == [Quoted(p[0])] + [Soft];
      }
    }
  }

  /** The loops of mime_global_qp. */
  method QpEncodeAll(text: seq<byte>, input: array<byte>, size0: nat, marker: seq<byte>, buffer: Buffer) returns (size: nat)
    requires input.Length == 3 && size0 <= 2 && Waiting(input[..size0])
    modifies input, buffer
    ensures size <= 2 && Waiting(input[..size]) && old(buffer.data) <= buffer.data
    ensures Encodes(old(input[..size0]) + text, buffer.data[|old(buffer.data)|..], input[..size], marker)
  {
    hide Encode;
    ghost var from, was := input[..size0], buffer.data;
    size := size0;
    var i := 0;
    StreamsNothing(Encoder(marker), from);
    assert from + text[..0] == from && buffer.data[|was|..] == [];
    while i < |text|
      invariant 0 <= i <= |text| && size <= 2 && Waiting(input[..size]) && was <= buffer.data
      invariant Streams(Encoder(marker), from + text[..i], buffer.data[|was|..], input[..size])
    {
      ghost var p, now := input[..size], buffer.data;
      size := QpEncode(text[i], input, size, marker, buffer);
      StreamsOn(Encoder(marker), from + text[..i], now[|was|..], p, [text[i]], buffer.data[|now|..], input[..size]);
      assert (from + text[..i]) + [text[i]] == from + text[..i + 1];
      assert now[|was|..] + buffer.data[|now|..] == buffer.data[|was|..];
      i := i + 1;
    }
    assert text[..i] == text;
  }

  /** A result as the caller sees it at the end of the input: one that is empty, or that starts with a
      zero byte, is taken for nothing. */
  function Shown(s: seq<byte>): Option<seq<byte>> { if s == [] || s[0] == 0 then None else Some(s) }

  /** mime_global_qp. */
  method Qp(c: Option<seq<byte>>, d: Option<seq<byte>>, marker: seq<byte>) returns (a: Option<seq<byte>>, b: Option<seq<byte>>)
    ensures c.None? ==> a.None? && b.None?
    ensures c.Some? && d.Some? ==> a.Some? && b.Some? && Waiting(b.value) && Encodes(c.value + d.value, a.value, b.value, marker)
    ensures c.Some? && d.None? ==> a == Shown(Encode(c.value, marker)) && b.None?
  {
    hide Encode;
    if c.None? { return None, None; }
    var atom := new byte[3];
    var buffer := new Buffer();
    var asize := QpEncodeAll(c.value, atom, 0, marker, buffer);
    assert [] + c.value == c.value && buffer.data[0..] == buffer.data;
    if d.None? {
      StreamsEnd(Encoder(marker), c.value, buffer.data, atom[..asize]);
      QpPad(atom, asize, buffer, marker);
      return Shown(buffer.data), None;
    }
    ghost var p, now := atom[..asize], buffer.data;
    asize := QpEncodeAll(d.value, atom, asize, marker, buffer);
    StreamsOn(Encoder(marker), c.value, now, p, d.value, buffer.data[|now|..], atom[..asize]);
    assert now + buffer.data[|now|..] == buffer.data;
    a, b := Some(buffer.data), Some(atom[..asize]);
  }

  // ---------- decoding ----------

  /** An incomplete =XX or CRLF. */
  predicate Incomplete(p: seq<byte>) { p == [] || p == [CR] || (1 <= |p| <= 2 && p[0] == EQ) }

  function Decoder(): seq<byte> -> seq<byte> { (y: seq<byte>) => Decode(y) }

  /** qpdecode. */
  method QpDecode(c: byte, input: array<byte>, size0: nat, buffer: Buffer) returns (size: nat)
    requires input.Length == 3 && size0 <= 2 && Incomplete(input[..size0])
    modifies input, buffer
    ensures size <= 2 && Incomplete(input[..size]) && old(buffer.data) <= buffer.data
    ensures Streams(Decoder(), old(input[..size0]) + [c], buffer.data[|old(buffer.data)|..], input[..size])
  {
    ghost var from, was := input[..size0] + [c], buffer.data;
    size := size0;
    input[size] := c;
    size := size + 1;
    assert input[..size] == from && was[|was|..] == [];
    StreamsNothing(Decoder(), from);
    if IsComplete(from) { DecodesHead(from); }
    hide Streams, Decode;
    if input[0] == EQ {
      if size < 3 { return; }
      if input[1] == CR && input[2] == LF {
      } else if UnHex(input[1]) > 15 || UnHex(input[2]) > 15 {
        buffer.Put(input[..3]);
      } else {
        buffer.Put([16 * UnHex(input[1]) + UnHex(input[2])]);
      }
    } else if input[0] == CR {
      if size < 2 { return; }
      if input[1] == LF { buffer.Put(input[..2]); }
    } else if input[0] == 9 || 31 < input[0] < 127 {
      buffer.Put([input[0]]);
    }
    size := 0;
    assert buffer.data[|was|..] == DecodedHead(from);
    assert input[..0] == [];
  }

  predicate IsComplete(p: seq<byte>) { p != [] && |p| == (if p[0] == EQ then 3 else if p[0] == CR then 2 else 1) }

  /** Complete bytes decode alone. */
  function DecodedHead(p: seq<byte>): seq<byte>
    requires p != []
  {
    if p[0] == EQ then
      if |p| < 3 || (p[1] == CR && p[2] == LF) then []
      else if UnHex(p[1]) > 15 || UnHex(p[2]) > 15 then p[..3]
      else [16 * UnHex(p[1]) + UnHex(p[2])]
    else if p[0] == CR then (if |p| >= 2 && p[1] == LF then CRLF else [])
    else if p[0] == 9 || 31 < p[0] < 127 then [p[0]]
    else []
  }

  lemma DecodesHead(p: seq<byte>)
    requires IsComplete(p)
    ensures Streams(Decoder(), p, DecodedHead(p), [])
  {
    hide Decode, DecodedHead;
    forall rest: seq<byte> ensures StreamsAt(Decoder(), p, DecodedHead(p), [], rest) {
      DecodesHeadAt(p, rest);
      assert [] + rest == rest;
    }
  }

  lemma DecodesHeadAt(p: seq<byte>, rest: seq<byte>)
    requires IsComplete(p)
    ensures Decode(p + rest) == DecodedHead(p) + Decode(rest)
  {
    hide UnHex;
    var y := p + rest;
    assert y[|p|..] == rest && y[0] == p[0] && y[..|p|] == p;
    assert |p| >= 2 ==> y[1] == p[1];
    assert |p| >= 3 ==> y[2] == p[2];
    assert [] + Decode(rest) == Decode(rest);
  }

  /** The loops of mime_global_unqp. */
  method QpDecodeAll(text: seq<byte>, input: array<byte>, size0: nat, buffer: Buffer) returns (size: nat)
    requires input.Length == 3 && size0 <= 2 && Incomplete(input[..size0])
    modifies input, buffer
    ensures size <= 2 && Incomplete(input[..size]) && old(buffer.data) <= buffer.data
    ensures Streams(Decoder(), old(input[..size0]) + text, buffer.data[|old(buffer.data)|..], input[..size])
  {
    hide Decode;
    ghost var from, was := input[..size0], buffer.data;
    size := size0;
    var i := 0;
    StreamsNothing(Decoder(), from);
    assert from + text[..0] == from && buffer.data[|was|..] == [];
    while i < |text|
      invariant 0 <= i <= |text| && size <= 2 && Incomplete(input[..size]) && was <= buffer.data
      invariant Streams(Decoder(), from + text[..i], buffer.data[|was|..], input[..size])
    {
      ghost var p, now := input[..size], buffer.data;
      size := QpDecode(text[i], input, size, buffer);
      StreamsOn(Decoder(), from + text[..i], now[|was|..], p, [text[i]], buffer.data[|now|..], input[..size]);
      assert (from + text[..i]) + [text[i]] == from + text[..i + 1];
      assert now[|was|..] + buffer.data[|now|..] == buffer.data[|was|..];
      i := i + 1;
    }
    assert text[..i] == text;
  }

  lemma IncompleteIsDropped(p: seq<byte>)
    requires Incomplete(p)
    ensures Decode(p) == []
  {
  }

  /** mime_global_unqp. */
  method UnQp(c: Option<seq<byte>>, d: Option<seq<byte>>) returns (a: Option<seq<byte>>, b: Option<seq<byte>>)
    ensures c.None? ==> a.None? && b.None?
    ensures c.Some? && d.Some? ==> a.Some? && b.Some? && Incomplete(b.value) && Streams(Decoder(), c.value + d.value, a.value, b.value)
    ensures c.Some? && d.None? ==> a == Shown(Decode(c.value)) && b.None?
  {
    hide Decode;
    if c.None? { return None, None; }
    var atom := new byte[3];
    var buffer := new Buffer();
    var asize := QpDecodeAll(c.value, atom, 0, buffer);
    assert [] + c.value == c.value && buffer.data[0..] == buffer.data;
    if d.None? {
      StreamsEnd(Decoder(), c.value, buffer.data, atom[..asize]);
      IncompleteIsDropped(atom[..asize]);
      assert buffer.data + [] == buffer.data;
      return Shown(buffer.data), None;
    }
    ghost var p, now := atom[..asize], buffer.data;
    asize := QpDecodeAll(d.value, atom, asize, buffer);
    StreamsOn(Decoder(), c.value, now, p, d.value, buffer.data[|now|..], atom[..asize]);
    assert now + buffer.data[|now|..] == buffer.data;
    a, b := Some(buffer.data), Some(atom[..asize]);
  }

  /** How many bytes at the start of a text decode to nothing: soft line breaks, a carriage return with a
      byte other than a line feed, bytes that do not print, and what is incomplete at the end. */
  function Silent(y: seq<byte>): (n: nat)
    ensures n <= |y|
    decreases |y|
  {
    if y == [] then 0
    else if y[0] == EQ then
      if |y| < 3 then |y| else if y[1] == CR && y[2] == LF then 3 + Silent(y[3..]) else 0
    else if y[0] == CR then
      if |y| < 2 then |y| else if y[1] == LF then 0 else 2 + Silent(y[2..])
    else if y[0] == 9 || 31 < y[0] < 127 then 0
    else 1 + Silent(y[1..])
  }

  const ENCODED_ZERO: seq<byte> := [61, 48, 48]

  lemma {:induction false} SilentThenZero(y: seq<byte>)
    ensures Decode(y) != [] && Decode(y)[0] == 0 <==> ENCODED_ZERO <= y[Silent(y)..]
    decreases |y|
  {
    if y == [] {
    } else if y[0] == EQ && |y| >= 3 && y[1] == CR && y[2] == LF {
      SilentThenZero(y[3..]);
      assert y[3..][Silent(y[3..])..] == y[Silent(y)..];
    } else if y[0] == CR && |y| >= 2 && y[1] != LF {
      SilentThenZero(y[2..]);
      assert y[2..][Silent(y[2..])..] == y[Silent(y)..];
    } else if y[0] != EQ && y[0] != CR && y[0] != 9 && !(31 < y[0] < 127) {
      SilentThenZero(y[1..]);
      assert y[1..][Silent(y[1..])..] == y[Silent(y)..];
    } else if y[0] == EQ && |y| >= 3 {
      assert y[0..] == y && Silent(y) == 0;
      ZeroDigits(y[1], y[2]);
      assert y[..3] == [y[0], y[1], y[2]];
      assert ENCODED_ZERO <= y <==> y[1] == 48 && y[2] == 48;
    } else if y[0] != EQ && (y[0] == 9 || 31 < y[0] < 127) {
      assert y[Silent(y)..] == y;
    }
  }

  lemma ZeroDigits(a: byte, b: byte)
    ensures UnHex(a) == 0 <==> a == 48
    ensures UnHex(b) == 0 <==> b == 48
  {
  }

  /** A call for a whole text loses its result exactly if the first thing in it that decodes to anything
      is an encoded zero. */
  lemma ShownExact(y: seq<byte>)
    ensures Shown(Decode(y)) == None && Decode(y) != [] <==> ENCODED_ZERO <= y[Silent(y)..]
  {
    SilentThenZero(y);
  }

  // ---------- wrapping ----------

  /** mime_global_qpwrp. */
  method QpWrp(left0: int, text: Option<seq<byte>>, length: int) returns (out: Option<seq<byte>>, left: int)
    ensures text.None? ==> left == length && out == if left0 < length then Some(EQCRLF) else None
    ensures text.Some? ==> out.Some? && Wrapped(out.value, left) == Wrap(left0, text.value, length)
  {
    left := left0;
    if text.None? {
      return (if left < length then Some(EQCRLF) else None), length;
    }
    var input, i := text.value, 0;
    var buffer := new Buffer();
    assert input[..0] == [];
    while i < |input|
      invariant 0 <= i <= |input| && Wrapped(buffer.data, left) == Wrap(left0, input[..i], length)
    {
      ghost var was, before := buffer.data, left;
      if input[i] == CR {
      } else if input[i] == LF {
        left := length;
        buffer.Put(CRLF);
      } else if input[i] == EQ {
        if left <= 3 {
          left := length;
          buffer.Put(EQCRLF);
        }
        buffer.Put([input[i]]);
        left := left - 1;
      } else {
        if left <= 1 {
          left := length;
          buffer.Put(EQCRLF);
        }
        buffer.Put([input[i]]);
        left := left - 1;
      }
      assert Wrapped(buffer.data, left) == Wrapped(was + WrapByte(before, input[i], length).out, WrapByte(before, input[i], length).left);
      WrapAppend(left0, input[..i], [input[i]], length);
      WrapOne(before, input[i], length);
      assert input[..i + 1] == input[..i] + [input[i]];
      i := i + 1;
    }
    assert input[..i] == input;
    out := Some(buffer.data);
  }

  // ---------- filters over chunks ----------

  function Flat(chunks: seq<seq<byte>>): seq<byte> { if chunks == [] then [] else Flat(chunks[..|chunks| - 1]) + chunks[|chunks| - 1] }

  lemma FlatMore(chunks: seq<seq<byte>>, c: seq<byte>)
    ensures Flat(chunks + [c]) == Flat(chunks) + c
  {
    assert (chunks + [c])[..|chunks|] == chunks;
  }

  /** Encoding chunk by chunk, the waiting bytes being passed from call to call. */
  method EncodeFilter(chunks: seq<seq<byte>>, marker: seq<byte>) returns (outs: seq<seq<byte>>)
    ensures Flat(outs) == Encode(Flat(chunks), marker)
  {
    hide Encode;
    var ctx: Option<seq<byte>>, a: Option<seq<byte>>, i := Some([]), None, 0;
    outs := [];
    StreamsNothing(Encoder(marker), []);
    assert chunks[..0] == [];
    while i < |chunks|
      invariant 0 <= i <= |chunks| && ctx.Some? && Waiting(ctx.value)
      invariant Streams(Encoder(marker), Flat(chunks[..i]), Flat(outs), ctx.value)
    {
      ghost var p := ctx.value;
      a, ctx := Qp(ctx, Some(chunks[i]), marker);
      StreamsOn(Encoder(marker), Flat(chunks[..i]), Flat(outs), p, chunks[i], a.value, ctx.value);
      FlatMore(outs, a.value);
      FlatMore(chunks[..i], chunks[i]);
      assert chunks[..i + 1] == chunks[..i] + [chunks[i]];
      outs := outs + [a.value];
      i := i + 1;
    }
    assert chunks[..i] == chunks;
    StreamsEnd(Encoder(marker), Flat(chunks), Flat(outs), ctx.value);
    PadIsShown(ctx.value, marker);
    a, ctx := Qp(ctx, None, marker);
    if a.Some? { FlatMore(outs, a.value); outs := outs + [a.value]; }
  }

  lemma PadIsShown(p: seq<byte>, marker: seq<byte>)
    requires Waiting(p)
    ensures Shown(Encode(p, marker)) == if p == [] then None else Some(Encode(p, marker))
    ensures p == [] ==> Encode(p, marker) == []
  {
    PadEncodes(p, marker);
    if p != [] {
      assert p[..1] == [p[0]] && p[..0] == [] && !IsPlain(p[0]);
      assert PadText(p[..1]) == [] + Quote(p[0]);
      if |p| == 2 { assert PadText(p) == PadText(p[..1]) + TokBytes(PadTok(p[1]), []); } else { assert p == p[..1]; }
    }
  }

  method WrapFilter(chunks: seq<seq<byte>>, length: int) returns (outs: seq<seq<byte>>)
    ensures Flat(outs) == Wrap(length, Flat(chunks), length).out + Ending(Wrap(length, Flat(chunks), length).left, length)
  {
    var left, a: Option<seq<byte>>, i := length, None, 0;
    outs := [];
    assert chunks[..0] == [];
    WrapNothing(length, length);
    assert WrapsTo(length, Flat([]), length, Flat([]), length);
    hide Wrap, Flat, WrapsTo;
    while i < |chunks|
      invariant 0 <= i <= |chunks| && WrapsTo(length, Flat(chunks[..i]), length, Flat(outs), left)
    {
      ghost var before, was := left, Flat(outs);
      a, left := QpWrp(left, Some(chunks[i]), length);
      WrapMore(length, Flat(chunks[..i]), length, was, before, chunks[i], a.value, left);
      FlatMore(outs, a.value);
      FlatMore(chunks[..i], chunks[i]);
      assert chunks[..i + 1] == chunks[..i] + [chunks[i]];
      outs := outs + [a.value];
      i := i + 1;
    }
    assert chunks[..i] == chunks;
    WrapDone(length, Flat(chunks), length, Flat(outs), left);
    a, left := QpWrp(left, None, length);
    if a.Some? { FlatMore(outs, a.value); outs := outs + [a.value]; }
  }

  predicate WrapsTo(left0: int, text: seq<byte>, length: int, out: seq<byte>, left: int) { Wrap(left0, text, length) == Wrapped(out, left) }

  lemma WrapDone(left0: int, text: seq<byte>, length: int, out: seq<byte>, left: int)
    requires WrapsTo(left0, text, length, out, left)
    ensures Wrap(left0, text, length) == Wrapped(out, left) && out + [] == out
  {
  }

  lemma WrapMore(left0: int, a: seq<byte>, length: int, out: seq<byte>, left: int, b: seq<byte>, out2: seq<byte>, left2: int)
    requires WrapsTo(left0, a, length, out, left) && Wrap(left, b, length) == Wrapped(out2, left2)
    ensures WrapsTo(left0, a + b, length, out + out2, left2)
  {
    WrapAppend(left0, a, b, length);
  }

  method DecodeFilter(chunks: seq<seq<byte>>) returns (outs: seq<seq<byte>>)
    ensures Flat(outs) == Decode(Flat(chunks))
  {
    hide Decode;
    var ctx: Option<seq<byte>>, a: Option<seq<byte>>, i := Some([]), None, 0;
    outs := [];
    StreamsNothing(Decoder(), []);
    assert chunks[..0] == [];
    while i < |chunks|
      invariant 0 <= i <= |chunks| && ctx.Some? && Incomplete(ctx.value)
      invariant Streams(Decoder(), Flat(chunks[..i]), Flat(outs), ctx.value)
    {
      ghost var p := ctx.value;
      a, ctx := UnQp(ctx, Some(chunks[i]));
      StreamsOn(Decoder(), Flat(chunks[..i]), Flat(outs), p, chunks[i], a.value, ctx.value);
      FlatMore(outs, a.value);
      FlatMore(chunks[..i], chunks[i]);
      assert chunks[..i + 1] == chunks[..i] + [chunks[i]];
      outs := outs + [a.value];
      i := i + 1;
    }
    assert chunks[..i] == chunks;
    StreamsEnd(Decoder(), Flat(chunks), Flat(outs), ctx.value);
    IncompleteIsDropped(ctx.value);
    a, ctx := UnQp(ctx, None);
    assert a.None?;
  }

  /** The way from the sender to the receiver: whatever the chunks are, on either side, the text arrives,
      and on its way it has good lines. */
  method Send(chunks: seq<seq<byte>>, marker: seq<byte>, length: int) returns (outs: seq<seq<byte>>)
    requires IsMarker(marker)
    ensures Flat(outs) == Sent(Flat(chunks), marker, length)
    ensures length >= 4 ==> GoodLines(Flat(outs), 0, false, length)
  {
    hide Wrap, Encode, GoodLines;
    var encoded := EncodeFilter(chunks, marker);
    outs := WrapFilter(encoded, length);
    if length >= 4 { SentLines(Flat(chunks), marker, length); }
  }

  method Receive(chunks: seq<seq<byte>>, ghost text: seq<byte>, ghost marker: seq<byte>, ghost length: int) returns (outs: seq<seq<byte>>)
    requires length >= 4 && IsMarker(marker) && Flat(chunks) == Sent(text, marker, length)
    ensures Flat(outs) == text
  {
    outs := DecodeFilter(chunks);
    RoundTrip(text, marker, length);
  }
}
