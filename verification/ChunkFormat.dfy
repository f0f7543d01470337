/** Precompiled chunks: the bytes of a function prototype, and what loading makes of bytes. */
module ChunkFormat {
  type byte = x: int | 0 <= x < 256

  datatype Option<T> = None | Some(value: T)
  datatype Error = UnexpectedEnd | BadInteger | BadConstant | BadCode | BadHeader

  /** A value that has been read, and the bytes after it. */
  datatype Parsed<T> = Got(v: T, rest: seq<byte>) | Bad(e: Error) {
    predicate IsFailure() { Bad? }
    function PropagateFailure<U>(): Parsed<U>
      requires Bad?
    {
      Bad(e)
    }
    function Extract(): (T, seq<byte>)
      requires Got?
    {
      (v, rest)
    }
  }

  type Text = seq<byte>
  type Number = s: seq<byte> | |s| == 8 witness [0, 0, 0, 0, 0, 0, 0, 0]
  type Word = x: int | 0 <= x < 0x1_0000_0000
  type Int32 = x: int | -0x8000_0000 <= x < 0x8000_0000

  /** A string may be a null pointer, which is written with length 0. */
  datatype Value = Nil | Boolean(b: byte) | Num(n: Number) | Str(s: Option<Text>)
  datatype LocVar = LocVar(varname: Option<Text>, startpc: Int32, endpc: Int32)

  datatype Proto = Proto(source: Option<Text>, linedefined: Int32, lastlinedefined: Int32, nups: byte, numparams: byte, is_vararg: byte, maxstacksize: byte,
                         code: seq<Word>, k: seq<Value>, p: seq<Proto>, lineinfo: seq<Int32>, locvars: seq<LocVar>, upvalues: seq<Option<Text>>)

  // ---------- numbers ----------

  /** x in n bytes, the lowest first. */
  function Le(x: nat, n: nat): (r: seq<byte>)
    ensures |r| == n
  {
    if n == 0 then [] else [x % 256] + Le(x / 256, n - 1)
  }

  function UnLe(b: seq<byte>): nat { if b == [] then 0 else b[0] + 256 * UnLe(b[1..]) }

  function Pow256(n: nat): nat { if n == 0 then 1 else 256 * Pow256(n - 1) }

  lemma {:induction false} UnLeLe(x: nat, n: nat)
    requires x < Pow256(n)
    ensures UnLe(Le(x, n)) == x
    decreases n
  {
    if n > 0 { UnLeLe(x / 256, n - 1); }
  }

  lemma {:induction false} UnLeBound(b: seq<byte>)
    ensures UnLe(b) < Pow256(|b|)
    decreases |b|
  {
    if b != [] { UnLeBound(b[1..]); }
  }

  function ToWord(x: Int32): Word { if x < 0 then x + 0x1_0000_0000 else x }
  function FromWord(w: nat): Int32
    requires w < 0x1_0000_0000
  {
    if w >= 0x8000_0000 then w - 0x1_0000_0000 else w
  }

  lemma Pow4()
    ensures Pow256(4) == 0x1_0000_0000
  {
    assert Pow256(1) == 256 && Pow256(2) == 0x1_0000 && Pow256(3) == 0x100_0000;
  }

  // ---------- writing ----------

  function WordBytes(w: Word): seq<byte> { Le(w, 4) }
  function IntBytes(x: Int32): seq<byte> { Le(ToWord(x), 4) }

  /** A string with its length, counting the zero at the end; length 0 stands for NULL. */
  function StringBytes(s: Option<Text>): seq<byte> {
    match s
    case None => Le(0, 4)
    case Some(t) => Le(|t| + 1, 4) + (t + [0])
  }

  function ValueBytes(v: Value): seq<byte> {
    match v
    case Nil => [0]
    case Boolean(b) => [1] + [b]
    case Num(n) => [3] + n
    case Str(s) => [4] + StringBytes(s)
  }

  function LocVarBytes(l: LocVar): seq<byte> { StringBytes(l.varname) + (IntBytes(l.startpc) + IntBytes(l.endpc)) }

  function Many<T>(xs: seq<T>, enc: T -> seq<byte>): seq<byte> { if xs == [] then [] else Many(xs[..|xs| - 1], enc) + enc(xs[|xs| - 1]) }

  /** A count and the elements. */
  function Counted<T>(xs: seq<T>, enc: T -> seq<byte>): seq<byte> { Le(|xs|, 4) + Many(xs, enc) }

  function Protos(ps: seq<Proto>, source: Option<Text>, strip: bool): seq<byte>
    decreases ps, 0
  {
    if ps == [] then [] else Protos(ps[..|ps| - 1], source, strip) + FunctionBytes(ps[|ps| - 1], source, strip)
  }

  /** The debug information that is written. */
  function Debug<T>(xs: seq<T>, strip: bool): seq<T> { if strip then [] else xs }

  /** DumpFunction: p is the source of the enclosing function, which is not written again. */
  function FunctionBytes(f: Proto, p: Option<Text>, strip: bool): seq<byte>
    decreases f, 1
  {
    HeadBytes(f, p, strip) + (Counted(f.code, WordBytes) + (Counted(f.k, ValueBytes) + ((Le(|f.p|, 4) + Protos(f.p, f.source, strip)) + DebugBytes(f, strip))))
  }

  function HeadBytes(f: Proto, p: Option<Text>, strip: bool): seq<byte> {
    StringBytes(if f.source == p || strip then None else f.source) + (IntBytes(f.linedefined) + (IntBytes(f.lastlinedefined) + [f.nups, f.numparams, f.is_vararg, f.maxstacksize]))
  }

  function DebugBytes(f: Proto, strip: bool): seq<byte> {
    Counted(Debug(f.lineinfo, strip), IntBytes) + (Counted(Debug(f.locvars, strip), LocVarBytes) + Counted(Debug(f.upvalues, strip), StringBytes))
  }

  // ---------- reading ----------

  /** LoadBlock. */
  function ReadBlock(b: seq<byte>, n: nat): (r: Parsed<seq<byte>>)
    ensures r.Got? ==> |r.v| == n && |r.rest| == |b| - n
  {
    if |b| < n then Bad(UnexpectedEnd) else Got(b[..n], b[n..])
  }

  function ReadWord(b: seq<byte>): (r: Parsed<Word>)
    ensures r.Got? ==> |r.rest| == |b| - 4
  {
    var (s, rest) :- ReadBlock(b, 4);
    UnLeBound(s);
    Pow4();
    Got(UnLe(s), rest)
  }

  function ReadChar(b: seq<byte>): (r: Parsed<byte>)
    ensures r.Got? ==> |r.rest| == |b| - 1
  {
    var (s, rest) :- ReadBlock(b, 1);
    Got(s[0], rest)
  }

  function ReadInt32(b: seq<byte>): (r: Parsed<Int32>)
    ensures r.Got? ==> |r.rest| == |b| - 4
  {
    var (w, rest) :- ReadWord(b);
    Got(FromWord(w), rest)
  }

  /** LoadInt. */
  function ReadInt(b: seq<byte>): (r: Parsed<Int32>)
    ensures r.Got? ==> r.v >= 0 && |r.rest| == |b| - 4
  {
    var (x, rest) :- ReadInt32(b);
    if x < 0 then Bad(BadInteger) else Got(x, rest)
  }

  function ReadString(b: seq<byte>): (r: Parsed<Option<Text>>)
    ensures r.Got? ==> |r.rest| <= |b| - 4
  {
    var (size, rest) :- ReadWord(b);
    if size == 0 then Got(None, rest)
    else
      var (s, rest2) :- ReadBlock(rest, size);
      Got(Some(s[..size - 1]), rest2)
  }

  function ReadValue(b: seq<byte>): (r: Parsed<Value>)
    ensures r.Got? ==> |r.rest| < |b|
  {
    var (t, rest) :- ReadChar(b);
    if t == 0 then Got(Nil, rest)
    else if t == 1 then
      var (c, rest2) :- ReadChar(rest);
      Got(Boolean(c), rest2)
    else if t == 3 then
      var (n, rest2) :- ReadBlock(rest, 8);
      Got(Num(n), rest2)
    else if t == 4 then
      var (s, rest2) :- ReadString(rest);
      Got(Str(s), rest2)
    else Bad(BadConstant)
  }

  function ReadLocVar(b: seq<byte>): (r: Parsed<LocVar>)
    ensures r.Got? ==> |r.rest| < |b|
  {
    var (name, b1) :- ReadString(b);
    var (start, b2) :- ReadInt(b1);
    var (end, b3) :- ReadInt(b2);
    Got(LocVar(name, start, end), b3)
  }

  /** Reading takes no byte twice. */
  ghost predicate Shrinks<T(!new)>(dec: seq<byte> -> Parsed<T>) { forall b: seq<byte> :: ShrinksAt(dec, b) }

  predicate ShrinksAt<T>(dec: seq<byte> -> Parsed<T>, b: seq<byte>) { dec(b).Got? ==> |dec(b).rest| <= |b| }

  /** n elements, after those in acc. */
  function ReadMany<T>(n: nat, b: seq<byte>, dec: seq<byte> -> Parsed<T>, acc: seq<T>): (r: Parsed<seq<T>>)
    decreases n
  {
    if n == 0 then Got(acc, b)
    else
      var (x, rest) :- dec(b);
      ReadMany(n - 1, rest, dec, acc + [x])
  }

  lemma {:induction false} ManyShrinks<T(!new)>(n: nat, b: seq<byte>, dec: seq<byte> -> Parsed<T>, acc: seq<T>)
    requires Shrinks(dec)
    ensures ReadMany(n, b, dec, acc).Got? ==> |ReadMany(n, b, dec, acc).rest| <= |b|
    decreases n
  {
    if n > 0 {
      assert ShrinksAt(dec, b);
      if dec(b).Got? { ManyShrinks(n - 1, dec(b).rest, dec, acc + [dec(b).v]); }
    }
  }

  function ReadCounted<T>(b: seq<byte>, dec: seq<byte> -> Parsed<T>): Parsed<seq<T>> {
    var (n, rest) :- ReadInt(b);
    ReadMany(n, rest, dec, [])
  }

  lemma CountedShrinks<T(!new)>(b: seq<byte>, dec: seq<byte> -> Parsed<T>)
    requires Shrinks(dec)
    ensures ReadCounted(b, dec).Got? ==> |ReadCounted(b, dec).rest| <= |b|
  {
    if ReadInt(b).Got? { ManyShrinks(ReadInt(b).v, ReadInt(b).rest, dec, []); }
  }

  lemma AllShrink()
    ensures Shrinks(ReadWord) && Shrinks(ReadValue) && Shrinks(ReadInt32) && Shrinks(ReadLocVar) && Shrinks(ReadString)
  {
    assert forall b: seq<byte> :: ShrinksAt(ReadWord, b);
  }

  /** LoadFunction up to the constants. */
  function ReadHead(b: seq<byte>, p: Option<Text>): (r: Parsed<Proto>)
    ensures r.Got? ==> |r.rest| < |b|
  {
    var (source, b1) :- ReadString(b);
    var (linedefined, b2) :- ReadInt(b1);
    var (lastlinedefined, b3) :- ReadInt(b2);
    var (nups, b4) :- ReadChar(b3);
    var (numparams, b5) :- ReadChar(b4);
    var (is_vararg, b6) :- ReadChar(b5);
    var (maxstacksize, b7) :- ReadChar(b6);
    AllShrink();
    CountedShrinks(b7, ReadWord);
    var (code, b8) :- ReadCounted(b7, ReadWord);
    CountedShrinks(b8, ReadValue);
    var (k, b9) :- ReadCounted(b8, ReadValue);
    Got(Proto(if source.None? then p else source, linedefined, lastlinedefined, nups, numparams, is_vararg, maxstacksize, code, k, [], [], [], []), b9)
  }

  /** LoadDebug. */
  function ReadDebug(f: Proto, b: seq<byte>): (r: Parsed<Proto>)
    ensures r.Got? ==> |r.rest| <= |b|
  {
    AllShrink();
    CountedShrinks(b, ReadInt32);
    var (lineinfo, b1) :- ReadCounted(b, ReadInt32);
    CountedShrinks(b1, ReadLocVar);
    var (locvars, b2) :- ReadCounted(b1, ReadLocVar);
    CountedShrinks(b2, ReadString);
    var (upvalues, b3) :- ReadCounted(b2, ReadString);
    Got(f.(lineinfo := lineinfo, locvars := locvars, upvalues := upvalues), b3)
  }

  /** LoadFunction: p is the source for a function that has none written. */
  function ReadFunction(b: seq<byte>, p: Option<Text>, check: Proto -> bool): (r: Parsed<Proto>)
    ensures r.Got? ==> |r.rest| < |b|
    decreases |b|, 0, 0
  {
    var (f, b1) :- ReadHead(b, p);
    var (n, b2) :- ReadInt(b1);
    var (ps, b3) :- ReadProtos(n, b2, f.source, check, []);
    var (g, b4) :- ReadDebug(f.(p := ps), b3);
    if check(g) then Got(g, b4) else Bad(BadCode)
  }

  function ReadProtos(n: nat, b: seq<byte>, source: Option<Text>, check: Proto -> bool, acc: seq<Proto>): (r: Parsed<seq<Proto>>)
    ensures r.Got? ==> |r.rest| <= |b|
    decreases |b|, 1, n
  {
    if n == 0 then Got(acc, b)
    else
      var (f, rest) :- ReadFunction(b, source, check);
      ReadProtos(n - 1, rest, source, check, acc + [f])
  }

  // ---------- whole chunks ----------

  /** luaU_header, for 32-bit integers and sizes, and numbers that are not integral. */
  const HEADER: seq<byte> := [27, 76, 117, 97, 0x51, 0, 1, 4, 4, 4, 8, 0]

  /** The source that a chunk without one gets: "=?". */
  const UNKNOWN: Option<Text> := Some([61, 63])

  function ChunkBytes(f: Proto, strip: bool): seq<byte> { HEADER + FunctionBytes(f, None, strip) }

  /** luaU_undump. */
  function ReadChunk(b: seq<byte>, check: Proto -> bool): Parsed<Proto> {
    var (h, rest) :- ReadBlock(b, |HEADER|);
    if h != HEADER then Bad(BadHeader) else ReadFunction(rest, UNKNOWN, check)
  }

  // ---------- where the fields are ----------

  /** A function with a value of every kind in it. */
  function Sample(): Proto {
    Proto(Some([64, 97]), 1, 2, 3, 4, 5, 6, [0x0403_0201], [Nil, Boolean(1), Num([10, 11, 12, 13, 14, 15, 16, 17]), Str(Some([98]))], [],
          [7], [LocVar(Some([99]), 8, 9)], [Some([100])])
  }

  lemma {:induction false} OneOf<T>(x: T, enc: T -> seq<byte>)
    ensures Counted([x], enc) == [1, 0, 0, 0] + enc(x)
  {
    assert [x][..0] == [];
    assert Many([x][..0], enc) == [];
    LeSmall(1);
    assert Many([x], enc) == enc(x);
  }

  lemma LeSmall(x: byte)
    ensures Le(x, 4) == [x, 0, 0, 0]
  {
    assert Le(0, 1) == [0] + Le(0, 0);
    assert Le(0, 2) == [0] + Le(0, 1);
    assert Le(0, 3) == [0] + Le(0, 2);
    assert Le(x, 4) == [x] + Le(0, 3);
  }

  lemma SampleCode()
    ensures Le(0x0403_0201, 4) == [1, 2, 3, 4]
  {
    assert Le(4, 1) == [4] + Le(0, 0);
    assert Le(0x0403, 2) == [3] + Le(4, 1);
    assert Le(0x0403_02, 3) == [2] + Le(0x0403, 2);
    assert Le(0x0403_0201, 4) == [1] + Le(0x0403_02, 3);
  }

  lemma SampleConstants()
    ensures Counted(Sample().k, ValueBytes) == [4, 0, 0, 0, 0, 1, 1, 3, 10, 11, 12, 13, 14, 15, 16, 17, 4, 2, 0, 0, 0, 98, 0]
  {
    hide Many, Le, StringBytes;
    LeSmall(4);
    SampleText(98);
    ManyNone(ValueBytes);
    var k := Sample().k;
    ManyPush([], k[0], ValueBytes);
    assert [] + [k[0]] == k[..1];
    ManyPush(k[..1], k[1], ValueBytes);
    assert k[..1] + [k[1]] == k[..2];
    ManyPush(k[..2], k[2], ValueBytes);
    assert k[..2] + [k[2]] == k[..3];
    ManyPush(k[..3], k[3], ValueBytes);
    assert k[..3] + [k[3]] == k;
  }

  lemma ManyNone<T>(enc: T -> seq<byte>)
    ensures Many([], enc) == []
  {
  }

  lemma ManyPush<T>(xs: seq<T>, x: T, enc: T -> seq<byte>)
    ensures Many(xs + [x], enc) == Many(xs, enc) + enc(x)
  {
    assert (xs + [x])[..|xs|] == xs;
  }

  lemma SampleText(c: byte)
    ensures StringBytes(Some([c])) == [2, 0, 0, 0, c, 0]
  {
    LeSmall(2);
  }

  lemma SampleDebug()
    ensures DebugBytes(Sample(), false) ==
      [1, 0, 0, 0, 7, 0, 0, 0] + [1, 0, 0, 0, 2, 0, 0, 0, 99, 0, 8, 0, 0, 0, 9, 0, 0, 0] + [1, 0, 0, 0, 2, 0, 0, 0, 100, 0]
  {
    var f := Sample();
    LeSmall(7);
    LeSmall(8);
    LeSmall(9);
    SampleText(99);
    SampleText(100);
    OneOf(f.lineinfo[0], IntBytes);
    OneOf(f.locvars[0], LocVarBytes);
    OneOf(f.upvalues[0], StringBytes);
  }

  /** The sample, byte by byte: the source, the lines, the counts, the code, the constants with their type tags,
      the nested functions and the debug information. */
  lemma SampleBytes()
    ensures FunctionBytes(Sample(), None, false) ==
      [3, 0, 0, 0, 64, 97, 0] + [1, 0, 0, 0] + [2, 0, 0, 0] + [3, 4, 5, 6]
      + [1, 0, 0, 0, 1, 2, 3, 4]
      + [4, 0, 0, 0, 0, 1, 1, 3, 10, 11, 12, 13, 14, 15, 16, 17, 4, 2, 0, 0, 0, 98, 0]
      + [0, 0, 0, 0]
      + [1, 0, 0, 0, 7, 0, 0, 0] + [1, 0, 0, 0, 2, 0, 0, 0, 99, 0, 8, 0, 0, 0, 9, 0, 0, 0] + [1, 0, 0, 0, 2, 0, 0, 0, 100, 0]
  {
    hide Counted, DebugBytes, Le;
    var f := Sample();
    LeSmall(0);
    LeSmall(1);
    LeSmall(2);
    LeSmall(3);
    SampleCode();
    OneOf(f.code[0], WordBytes);
    SampleConstants();
    SampleDebug();
    assert Protos([], f.source, false) == [];
  }

  // ---------- what is written is read back ----------

  /** Sizes and counts fit, and line numbers are not negative. */
  predicate Small(n: nat) { n < 0x8000_0000 }

  predicate TextFits(s: Option<Text>) { s.Some? ==> |s.value| + 1 < 0x1_0000_0000 }

  predicate ValueFits(v: Value) { v.Str? ==> TextFits(v.s) }

  predicate LocVarFits(l: LocVar) { TextFits(l.varname) && l.startpc >= 0 && l.endpc >= 0 }

  lemma WordBack(w: Word, rest: seq<byte>)
    ensures ReadWord(Le(w, 4) + rest) == Got(w, rest)
  {
    var b := Le(w, 4) + rest;
    Pow4();
    UnLeLe(w, 4);
    assert b[..4] == Le(w, 4) && b[4..] == rest;
  }

  lemma Int32Back(x: Int32, rest: seq<byte>)
    ensures ReadInt32(IntBytes(x) + rest) == Got(x, rest)
    ensures x >= 0 ==> ReadInt(IntBytes(x) + rest) == Got(x, rest)
  {
    WordBack(ToWord(x), rest);
  }

  lemma CharBack(c: byte, rest: seq<byte>)
    ensures ReadChar([c] + rest) == Got(c, rest)
  {
    assert ([c] + rest)[1..] == rest;
  }

  lemma StringBack(s: Option<Text>, rest: seq<byte>)
    requires TextFits(s)
    ensures ReadString(StringBytes(s) + rest) == Got(s, rest)
  {
    match s
    case None => WordBack(0, rest);
    case Some(t) =>
      var after := (t + [0]) + rest;
      WordBack(|t| + 1, after);
      assert StringBytes(s) + rest == Le(|t| + 1, 4) + after;
      assert after[..|t| + 1] == t + [0] && after[|t| + 1..] == rest && (t + [0])[..|t|] == t;
  }

  lemma ValueBack(v: Value, rest: seq<byte>)
    requires ValueFits(v)
    ensures ReadValue(ValueBytes(v) + rest) == Got(v, rest)
  {
    hide ReadString, StringBytes, ReadChar;
    match v
    case Nil => CharBack(0, rest);
    case Boolean(b) =>
      assert ValueBytes(v) + rest == [1] + ([b] + rest);
      CharBack(1, [b] + rest);
      CharBack(b, rest);
    case Num(n) =>
      assert ValueBytes(v) + rest == [3] + (n + rest);
      CharBack(3, n + rest);
      assert (n + rest)[..8] == n && (n + rest)[8..] == rest;
    case Str(s) =>
      assert ValueBytes(v) + rest == [4] + (StringBytes(s) + rest);
      CharBack(4, StringBytes(s) + rest);
      StringBack(s, rest);
  }

  lemma LocVarBack(l: LocVar, rest: seq<byte>)
    requires LocVarFits(l)
    ensures ReadLocVar(LocVarBytes(l) + rest) == Got(l, rest)
  {
    hide ReadString, StringBytes, ReadInt, IntBytes;
    var a, b, c := StringBytes(l.varname), IntBytes(l.startpc), IntBytes(l.endpc);
    assert LocVarBytes(l) + rest == a + (b + (c + rest));
    StringBack(l.varname, b + (c + rest));
    Int32Back(l.startpc, c + rest);
    Int32Back(l.endpc, rest);
  }

  /** dec reads what enc has written for x. */
  ghost predicate Inverse<T(!new)>(enc: T -> seq<byte>, dec: seq<byte> -> Parsed<T>, x: T) {
    forall rest: seq<byte> :: InverseAt(enc, dec, x, rest)
  }

  ghost predicate InverseAt<T(!new)>(enc: T -> seq<byte>, dec: seq<byte> -> Parsed<T>, x: T, rest: seq<byte>) { dec(enc(x) + rest) == Got(x, rest) }

  lemma {:induction false} ManyFront<T>(x: T, xs: seq<T>, enc: T -> seq<byte>)
    ensures Many([x] + xs, enc) == enc(x) + Many(xs, enc)
    decreases |xs|
  {
    var all := [x] + xs;
    if xs == [] {
      assert all[..0] == [] && Many(all, enc) == [] + enc(x);
    } else {
      assert all[..|all| - 1] == [x] + xs[..|xs| - 1];
      ManyFront(x, xs[..|xs| - 1], enc);
    }
  }

  lemma {:induction false} ManyBack<T(!new)>(xs: seq<T>, enc: T -> seq<byte>, dec: seq<byte> -> Parsed<T>, acc: seq<T>, rest: seq<byte>)
    requires forall i :: 0 <= i < |xs| ==> Inverse(enc, dec, xs[i])
    ensures ReadMany(|xs|, Many(xs, enc) + rest, dec, acc) == Got(acc + xs, rest)
    decreases |xs|
  {
    if xs == [] {
      assert Many(xs, enc) + rest == rest && acc + xs == acc;
    } else {
      var x, more := xs[0], xs[1..];
      assert xs == [x] + more;
      ManyFront(x, more, enc);
      var after := Many(more, enc) + rest;
      assert Many(xs, enc) + rest == enc(x) + after;
      assert Inverse(enc, dec, xs[0]) && InverseAt(enc, dec, x, after);
      ManyBack(more, enc, dec, acc + [x], rest);
      assert (acc + [x]) + more == acc + xs;
    }
  }

  lemma CountedBack<T(!new)>(xs: seq<T>, enc: T -> seq<byte>, dec: seq<byte> -> Parsed<T>, rest: seq<byte>)
    requires Small(|xs|) && forall i :: 0 <= i < |xs| ==> Inverse(enc, dec, xs[i])
    ensures ReadCounted(Counted(xs, enc) + rest, dec) == Got(xs, rest)
  {
    hide Many;
    CountBack(|xs|, Many(xs, enc) + rest);
    assert Counted(xs, enc) + rest == Le(|xs|, 4) + (Many(xs, enc) + rest);
    ManyBack(xs, enc, dec, [], rest);
    assert [] + xs == xs;
  }

  lemma CountBack(n: nat, rest: seq<byte>)
    requires Small(n)
    ensures ReadInt(Le(n, 4) + rest) == Got(n, rest)
  {
    Int32Back(n, rest);
  }

  // ---------- functions ----------

  /** What loading makes of a function that has been written inside p, when it is loaded inside p2. */
  function Reloaded(f: Proto, p: Option<Text>, p2: Option<Text>, strip: bool): Proto
    decreases f, 1
  {
    var source := if f.source == p || strip || f.source.None? then p2 else f.source;
    f.(source := source, p := ReloadedAll(f.p, f.source, source, strip), lineinfo := Debug(f.lineinfo, strip), locvars := Debug(f.locvars, strip), upvalues := Debug(f.upvalues, strip))
  }

  function ReloadedAll(ps: seq<Proto>, p: Option<Text>, p2: Option<Text>, strip: bool): (r: seq<Proto>)
    ensures |r| == |ps|
    decreases ps, 0
  {
    seq(|ps|, i requires 0 <= i < |ps| => Reloaded(ps[i], p, p2, strip))
  }

  /** All numbers in a function fit into the format. */
  ghost predicate Fits(f: Proto)
    decreases f
  {
    && TextFits(f.source) && f.linedefined >= 0 && f.lastlinedefined >= 0
    && ListsFit(f)
    && Small(|f.p|) && forall i :: 0 <= i < |f.p| ==> Fits(f.p[i])
  }

  ghost predicate ListsFit(f: Proto) {
    && Small(|f.code|) && Small(|f.k|) && Small(|f.lineinfo|) && Small(|f.locvars|) && Small(|f.upvalues|)
    && (forall i :: 0 <= i < |f.k| ==> ValueFits(f.k[i]))
    && (forall i :: 0 <= i < |f.locvars| ==> LocVarFits(f.locvars[i]))
    && (forall i :: 0 <= i < |f.upvalues| ==> TextFits(f.upvalues[i]))
  }

  /** The code checker accepts a function and all those inside it. */
  ghost predicate Accepted(f: Proto, check: Proto -> bool)
    decreases f
  {
    check(f) && forall i :: 0 <= i < |f.p| ==> Accepted(f.p[i], check)
  }

  lemma DebugBack(f: Proto, g: Proto, strip: bool, rest: seq<byte>)
    requires ListsFit(f)
    ensures ReadDebug(g, DebugBytes(f, strip) + rest) == Got(g.(lineinfo := Debug(f.lineinfo, strip), locvars := Debug(f.locvars, strip), upvalues := Debug(f.upvalues, strip)), rest)
  {
    hide Counted, ReadCounted, IntBytes, LocVarBytes, StringBytes, ReadInt32, ReadLocVar, ReadString;
    var l, v, u := Debug(f.lineinfo, strip), Debug(f.locvars, strip), Debug(f.upvalues, strip);
    var a, b, c := Counted(l, IntBytes), Counted(v, LocVarBytes), Counted(u, StringBytes);
    assert DebugBytes(f, strip) + rest == a + (b + (c + rest));
    forall i | 0 <= i < |l| ensures Inverse(IntBytes, ReadInt32, l[i]) { forall r: seq<byte> ensures InverseAt(IntBytes, ReadInt32, l[i], r) { Int32Back(l[i], r); } }
    forall i | 0 <= i < |v| ensures Inverse(LocVarBytes, ReadLocVar, v[i]) { forall r: seq<byte> ensures InverseAt(LocVarBytes, ReadLocVar, v[i], r) { LocVarBack(v[i], r); } }
    forall i | 0 <= i < |u| ensures Inverse(StringBytes, ReadString, u[i]) { forall r: seq<byte> ensures InverseAt(StringBytes, ReadString, u[i], r) { StringBack(u[i], r); } }
    CountedBack(l, IntBytes, ReadInt32, b + (c + rest));
    CountedBack(v, LocVarBytes, ReadLocVar, c + rest);
    CountedBack(u, StringBytes, ReadString, rest);
  }

  /** The source that is written. */
  function SourceOut(f: Proto, p: Option<Text>, strip: bool): Option<Text> { if f.source == p || strip then None else f.source }

  lemma HeadBack(f: Proto, p: Option<Text>, p2: Option<Text>, strip: bool, rest: seq<byte>)
    requires TextFits(f.source) && f.linedefined >= 0 && f.lastlinedefined >= 0 && ListsFit(f)
    ensures ReadHead(HeadBytes(f, p, strip) + (Counted(f.code, WordBytes) + (Counted(f.k, ValueBytes) + rest)), p2) ==
            Got(Reloaded(f, p, p2, strip).(p := [], lineinfo := [], locvars := [], upvalues := []), rest)
  {
    hide Counted, ReadCounted, IntBytes, ValueBytes, StringBytes, WordBytes, ReadInt, ReadChar, ReadValue, ReadString, ReadWord, ReloadedAll;
    var s, i1, i2 := StringBytes(SourceOut(f, p, strip)), IntBytes(f.linedefined), IntBytes(f.lastlinedefined);
    var a, b := Counted(f.code, WordBytes), Counted(f.k, ValueBytes);
    var r4 := a + (b + rest);
    var r3, r2, r1, r0 := [f.maxstacksize] + r4, [f.is_vararg] + ([f.maxstacksize] + r4), [f.numparams] + ([f.is_vararg] + ([f.maxstacksize] + r4)), [f.nups] + ([f.numparams] + ([f.is_vararg] + ([f.maxstacksize] + r4)));
    assert HeadBytes(f, p, strip) + r4 == s + (i1 + (i2 + r0));
    StringBack(SourceOut(f, p, strip), i1 + (i2 + r0));
    Int32Back(f.linedefined, i2 + r0);
    Int32Back(f.lastlinedefined, r0);
    CharBack(f.nups, r1);
    CharBack(f.numparams, r2);
    CharBack(f.is_vararg, r3);
    CharBack(f.maxstacksize, r4);
    forall i | 0 <= i < |f.code| ensures Inverse(WordBytes, ReadWord, f.code[i]) { forall r: seq<byte> ensures InverseAt(WordBytes, ReadWord, f.code[i], r) { WordsBack(f.code[i], r); } }
    forall i | 0 <= i < |f.k| ensures Inverse(ValueBytes, ReadValue, f.k[i]) { forall r: seq<byte> ensures InverseAt(ValueBytes, ReadValue, f.k[i], r) { ValueBack(f.k[i], r); } }
    CountedBack(f.code, WordBytes, ReadWord, b + rest);
    CountedBack(f.k, ValueBytes, ReadValue, rest);
  }

  lemma WordsBack(w: Word, rest: seq<byte>)
    ensures ReadWord(WordBytes(w) + rest) == Got(w, rest)
  {
    WordBack(w, rest);
  }

  lemma {:induction false} ProtosFront(f: Proto, ps: seq<Proto>, source: Option<Text>, strip: bool)
    ensures Protos([f] + ps, source, strip) == FunctionBytes(f, source, strip) + Protos(ps, source, strip)
    decreases |ps|
  {
    hide FunctionBytes;
    var all := [f] + ps;
    if ps == [] {
      assert all[..0] == [] && Protos(all, source, strip) == [] + FunctionBytes(f, source, strip);
    } else {
      assert all[..|all| - 1] == [f] + ps[..|ps| - 1];
      ProtosFront(f, ps[..|ps| - 1], source, strip);
    }
  }

  /** A written function is read back, with what comes after it untouched. */
  lemma {:induction false} FunctionBack(f: Proto, p: Option<Text>, p2: Option<Text>, strip: bool, check: Proto -> bool, rest: seq<byte>)
    requires Fits(f) && Accepted(Reloaded(f, p, p2, strip), check)
    ensures ReadFunction(FunctionBytes(f, p, strip) + rest, p2, check) == Got(Reloaded(f, p, p2, strip), rest)
    decreases f, 1
  {
    hide HeadBytes, DebugBytes, Counted, ReadHead, ReadDebug, Protos, ReadProtos, ReadInt;
    var g := Reloaded(f, p, p2, strip);
    var d := DebugBytes(f, strip) + rest;
    var ps := Protos(f.p, f.source, strip);
    var n := Le(|f.p|, 4);
    FunctionShape(HeadBytes(f, p, strip), Counted(f.code, WordBytes), Counted(f.k, ValueBytes), n, ps, DebugBytes(f, strip), rest);
    HeadBack(f, p, p2, strip, n + (ps + d));
    CountBack(|f.p|, ps + d);
    forall i | 0 <= i < |f.p| ensures Fits(f.p[i]) && Accepted(Reloaded(f.p[i], f.source, g.source, strip), check) { assert g.p[i] == Reloaded(f.p[i], f.source, g.source, strip); }
    ProtosBack(f.p, f.source, g.source, strip, check, [], d);
    assert [] + ReloadedAll(f.p, f.source, g.source, strip) == g.p;
    DebugBack(f, g.(lineinfo := [], locvars := [], upvalues := []), strip, rest);
  }

  lemma FunctionShape(h: seq<byte>, c: seq<byte>, k: seq<byte>, n: seq<byte>, ps: seq<byte>, d: seq<byte>, rest: seq<byte>)
    ensures (h + (c + (k + ((n + ps) + d)))) + rest == h + (c + (k + (n + (ps + (d + rest)))))
  {
  }

  lemma {:induction false} ProtosBack(ps: seq<Proto>, p: Option<Text>, p2: Option<Text>, strip: bool, check: Proto -> bool, acc: seq<Proto>, rest: seq<byte>)
    requires forall i :: 0 <= i < |ps| ==> Fits(ps[i]) && Accepted(Reloaded(ps[i], p, p2, strip), check)
    ensures ReadProtos(|ps|, Protos(ps, p, strip) + rest, p2, check, acc) == Got(acc + ReloadedAll(ps, p, p2, strip), rest)
    decreases ps, 0
  {
    hide FunctionBytes, ReadFunction, Reloaded, Fits, Accepted;
    if ps == [] {
      assert Protos(ps, p, strip) + rest == rest && acc + ReloadedAll(ps, p, p2, strip) == acc;
    } else {
      var f, more := ps[0], ps[1..];
      assert ps == [f] + more;
      ProtosFront(f, more, p, strip);
      var after := Protos(more, p, strip) + rest;
      assert Protos(ps, p, strip) + rest == FunctionBytes(f, p, strip) + after;
      FunctionBack(f, p, p2, strip, check, after);
      var g := Reloaded(f, p, p2, strip);
      ProtosBack(more, p, p2, strip, check, acc + [g], rest);
      assert (acc + [g]) + ReloadedAll(more, p, p2, strip) == acc + ReloadedAll(ps, p, p2, strip);
    }
  }

  // ---------- chunks ----------

  /** Loading takes exactly the bytes of a chunk, and rebuilds the function. */
  lemma ChunkBack(f: Proto, strip: bool, check: Proto -> bool, rest: seq<byte>)
    requires Fits(f) && Accepted(Reloaded(f, None, UNKNOWN, strip), check)
    ensures ReadChunk(ChunkBytes(f, strip) + rest, check) == Got(Reloaded(f, None, UNKNOWN, strip), rest)
  {
    hide FunctionBytes, ReadFunction, Reloaded, Fits, Accepted;
    var b := ChunkBytes(f, strip) + rest;
    assert b[..|HEADER|] == HEADER && b[|HEADER|..] == FunctionBytes(f, None, strip) + rest;
    FunctionBack(f, None, UNKNOWN, strip, check, rest);
  }

  /** Every function knows its source. */
  predicate AllNamed(f: Proto)
    decreases f
  {
    f.source.Some? && forall i :: 0 <= i < |f.p| ==> AllNamed(f.p[i])
  }

  lemma ReloadedParts(f: Proto, p: Option<Text>, p2: Option<Text>, strip: bool)
    ensures var g := Reloaded(f, p, p2, strip);
            && g.source == (if f.source == p || strip || f.source.None? then p2 else f.source)
            && |g.p| == |f.p| && forall i :: 0 <= i < |f.p| ==> g.p[i] == Reloaded(f.p[i], f.source, g.source, strip)
  {
  }

  /** Nothing is lost without stripping exactly if every function knows its source. */
  lemma {:induction false} ReloadedExact(f: Proto, p: Option<Text>, p2: Option<Text>)
    requires p2.Some? && (p == p2 || p == None)
    ensures Reloaded(f, p, p2, false) == f <==> AllNamed(f)
    decreases f
  {
    var g := Reloaded(f, p, p2, false);
    ReloadedParts(f, p, p2, false);
    if f.source.Some? {
      forall i | 0 <= i < |f.p| ensures g.p[i] == f.p[i] <==> AllNamed(f.p[i]) { ReloadedExact(f.p[i], f.source, g.source); }
      if AllNamed(f) { assert g.p == f.p; }
    }
  }

  /** An unstripped chunk gives the same function back exactly if every function knows its source. */
  lemma RoundTripExact(f: Proto, check: Proto -> bool)
    requires Fits(f) && Accepted(Reloaded(f, None, UNKNOWN, false), check)
    ensures ReadChunk(ChunkBytes(f, false), check) == Got(f, []) <==> AllNamed(f)
  {
    ChunkBack(f, false, check, []);
    assert ChunkBytes(f, false) + [] == ChunkBytes(f, false);
    ReloadedExact(f, None, UNKNOWN);
  }

  /** What stripping leaves, at every level. */
  predicate Stripped(f: Proto, g: Proto)
    decreases f
  {
    && g.source == UNKNOWN && g.lineinfo == [] && g.locvars == [] && g.upvalues == []
    && g.code == f.code && g.k == f.k && g.linedefined == f.linedefined && g.lastlinedefined == f.lastlinedefined
    && g.nups == f.nups && g.numparams == f.numparams && g.is_vararg == f.is_vararg && g.maxstacksize == f.maxstacksize
    && |g.p| == |f.p| && forall i :: 0 <= i < |f.p| ==> Stripped(f.p[i], g.p[i])
  }

  lemma {:induction false} StripKeepsCode(f: Proto, p: Option<Text>)
    ensures Stripped(f, Reloaded(f, p, UNKNOWN, true))
    decreases f
  {
    forall i | 0 <= i < |f.p| ensures Stripped(f.p[i], Reloaded(f, p, UNKNOWN, true).p[i]) { StripKeepsCode(f.p[i], f.source); }
  }
}
