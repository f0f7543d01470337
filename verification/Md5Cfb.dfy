/** The stream cipher made of a hash function in cipher-feedback mode. */
module Md5Cfb {
  type byte = bv8

  const MAXKEY: nat := 256
  const BLOCKSIZE: nat := 16

  datatype Result = Ok(text: seq<byte>) | KeyTooLong | SeedTooLong | InvalidText

  /** md5: any function to blocks. */
  type Hash = seq<byte> -> seq<byte>
  ghost predicate IsHash(h: Hash) { forall s: seq<byte> :: |h(s)| == BLOCKSIZE }

  // ---------- what the functions compute ----------

  function Xor(a: byte, b: byte): byte { a ^ b }

  function XorAll(a: seq<byte>, b: seq<byte>): (r: seq<byte>)
    requires |b| <= |a|
    ensures |r| == |b|
  {
    seq(|b|, i requires 0 <= i < |b| => Xor(a[i], b[i]))
  }

  function Min(a: nat, b: nat): nat { if a < b then a else b }

  /** block is replaced, as far as the bytes go. */
  function Update(block: seq<byte>, c: seq<byte>): (r: seq<byte>)
    requires |c| <= |block|
    ensures |r| == |block|
  {
    c + block[|c|..]
  }

  /** The coded text of msg, from a block of feedback and the key. */
  function Coded(h: Hash, block: seq<byte>, key: seq<byte>, msg: seq<byte>): (r: seq<byte>)
    requires IsHash(h) && |block| == BLOCKSIZE
    ensures |r| == |msg|
    decreases |msg|
  {
    if msg == [] then []
    else
      var n := Min(BLOCKSIZE, |msg|);
      var c := XorAll(h(block + key), msg[..n]);
      c + Coded(h, Update(block, c), key, msg[n..])
  }

  /** The text of a coded one: the feedback is the coded text here too. */
  function Decoded(h: Hash, block: seq<byte>, key: seq<byte>, cypher: seq<byte>): (r: seq<byte>)
    requires IsHash(h) && |block| == BLOCKSIZE
    ensures |r| == |cypher|
    decreases |cypher|
  {
    if cypher == [] then []
    else
      var n := Min(BLOCKSIZE, |cypher|);
      XorAll(h(block + key), cypher[..n]) + Decoded(h, Update(block, cypher[..n]), key, cypher[n..])
  }

  function Zeros(n: nat): (r: seq<byte>)
    ensures |r| == n && forall i :: 0 <= i < n ==> r[i] == 0
  {
    seq(n, i requires 0 <= i < n => 0)
  }

  /** The first block: the seed, filled with zeros. */
  function SeedBlock(seed: seq<byte>): (r: seq<byte>)
    requires |seed| <= BLOCKSIZE
    ensures |r| == BLOCKSIZE
  {
    seed + Zeros(BLOCKSIZE - |seed|)
  }

  function Crypted(h: Hash, msg: seq<byte>, key: seq<byte>, seed: seq<byte>): Result
    requires IsHash(h)
  {
    if |seed| > BLOCKSIZE then SeedTooLong
    else if |key| > MAXKEY then KeyTooLong
    else Ok([|seed| as byte] + seed + Coded(h, SeedBlock(seed), key, msg))
  }

  /** A text starts with the length of its seed and the seed. */
  predicate IsCyphered(c: seq<byte>) { c != [] && c[0] as int <= BLOCKSIZE && c[0] as int + 1 <= |c| }

  function Decrypted(h: Hash, c: seq<byte>, key: seq<byte>): Result
    requires IsHash(h)
  {
    if !IsCyphered(c) then InvalidText
    else if |key| > MAXKEY then KeyTooLong
    else
      var n := c[0] as int;
      Ok(Decoded(h, SeedBlock(c[1..n + 1]), key, c[n + 1..]))
  }

  /** What block i of a coded text (of 16 bytes) is combined with: the first block of feedback, and then the coded
      block before. */
  function Feedback(block: seq<byte>, coded: seq<byte>, i: nat): seq<byte>
    requires 16 * i <= |coded|
  {
    if i == 0 then block else coded[16 * i - 16..16 * i]
  }

  /** Byte j of block i is coded with byte j of the hash of its feedback and the key. */
  lemma {:induction false} CodedBlocks(h: Hash, block: seq<byte>, key: seq<byte>, msg: seq<byte>, i: nat, j: nat)
    requires IsHash(h) && |block| == BLOCKSIZE && j < 16 && 16 * i + j < |msg|
    ensures var c := Coded(h, block, key, msg);
      |h(Feedback(block, c, i) + key)| == 16 && c[16 * i + j] == msg[16 * i + j] ^ h(Feedback(block, c, i) + key)[j]
    decreases i
  {
    hide IsHash, XorAll, Update, Feedback, Coded;
    var n := Min(BLOCKSIZE, |msg|);
    HashLength(h, block + key);
    var c := XorAll(h(block + key), msg[..n]);
    var rest := Coded(h, Update(block, c), key, msg[n..]);
    CodedFirst(h, block, key, msg);
    assert Coded(h, block, key, msg) == c + rest;
    if i == 0 {
      FirstFeedback(block, c + rest);
      XorAt(h(block + key), msg[..n], j);
    } else {
      CodedBlocks(h, Update(block, c), key, msg[n..], i - 1, j);
      LaterBlock(block, c, rest, i);
      assert (c + rest)[16 * i + j] == rest[16 * (i - 1) + j] && msg[16 * i + j] == msg[n..][16 * (i - 1) + j];
    }
  }

  lemma CodedFirst(h: Hash, block: seq<byte>, key: seq<byte>, msg: seq<byte>)
    requires IsHash(h) && |block| == BLOCKSIZE && msg != [] && |h(block + key)| == BLOCKSIZE
    ensures var n := Min(BLOCKSIZE, |msg|); var c := XorAll(h(block + key), msg[..n]);
      Coded(h, block, key, msg) == c + Coded(h, Update(block, c), key, msg[n..])
  {
  }

  lemma FirstFeedback(block: seq<byte>, coded: seq<byte>)
    ensures Feedback(block, coded, 0) == block
  {
  }

  lemma XorAt(a: seq<byte>, b: seq<byte>, j: nat)
    requires j < |b| <= |a|
    ensures XorAll(a, b)[j] == b[j] ^ a[j]
  {
    hide Xor;
    XorSame(a[j], b[j]);
  }

  lemma XorSame(a: byte, b: byte)
    ensures Xor(a, b) == b ^ a
  {
  }

  lemma LaterBlock(block: seq<byte>, c: seq<byte>, rest: seq<byte>, i: nat)
    requires i > 0 && |c| == 16 == |block| && 16 * (i - 1) <= |rest|
    ensures Feedback(Update(block, c), rest, i - 1) == Feedback(block, c + rest, i)
  {
    if i == 1 { assert (c + rest)[0..16] == c && Update(block, c) == c; }
    else { assert (c + rest)[16 * i - 16..16 * i] == rest[16 * (i - 1) - 16..16 * (i - 1)]; }
  }

  // ---------- the round trip ----------

  lemma XorBack(a: byte, b: byte)
    ensures Xor(a, Xor(a, b)) == b
  {
  }

  lemma XorAllBack(a: seq<byte>, b: seq<byte>)
    requires |b| <= |a|
    ensures XorAll(a, XorAll(a, b)) == b
  {
    hide Xor;
    forall i | 0 <= i < |b| ensures XorAll(a, XorAll(a, b))[i] == b[i] { XorBack(a[i], b[i]); }
  }

  lemma {:induction false} CodedBack(h: Hash, block: seq<byte>, key: seq<byte>, msg: seq<byte>)
    requires IsHash(h) && |block| == BLOCKSIZE
    ensures Decoded(h, block, key, Coded(h, block, key, msg)) == msg
    decreases |msg|
  {
    hide XorAll, Update, IsHash;
    if msg != [] {
      var n := Min(BLOCKSIZE, |msg|);
      HashLength(h, block + key);
      var c := XorAll(h(block + key), msg[..n]);
      var rest := Coded(h, Update(block, c), key, msg[n..]);
      assert (c + rest)[..n] == c && (c + rest)[n..] == rest;
      XorAllBack(h(block + key), msg[..n]);
      CodedBack(h, Update(block, c), key, msg[n..]);
      assert msg[..n] + msg[n..] == msg;
    }
  }

  lemma HashLength(h: Hash, s: seq<byte>)
    requires IsHash(h)
    ensures |h(s)| == BLOCKSIZE
  {
  }

  lemma SmallByte(n: nat)
    requires n <= BLOCKSIZE
    ensures (n as byte) as int == n
  {
  }

  /** Decrypting what has been encrypted with the same key gives the message back, for every message,
      key and seed that are not too long. */
  lemma TextBack(h: Hash, msg: seq<byte>, key: seq<byte>, seed: seq<byte>)
    requires IsHash(h)
    ensures Crypted(h, msg, key, seed).Ok? <==> |seed| <= BLOCKSIZE && |key| <= MAXKEY
    ensures Crypted(h, msg, key, seed).Ok? ==> Decrypted(h, Crypted(h, msg, key, seed).text, key) == Ok(msg)
  {
    hide Coded, Decoded, IsHash;
    var r := Crypted(h, msg, key, seed);
    if r.Ok? {
      SmallByte(|seed|);
      var c := Coded(h, SeedBlock(seed), key, msg);
      assert r.text[1..|seed| + 1] == seed && r.text[|seed| + 1..] == c;
      CodedBack(h, SeedBlock(seed), key, msg);
    }
  }

  // ---------- the functions ----------

  /** luaL_Buffer. */
  class Buffer {
    var data: seq<byte>

    constructor ()
      ensures data == []
    {
      data := [];
    }

    method Add(s: seq<byte>)
      modifies this
      ensures data == old(data) + s
    {
      data := data + s;
    }
  }

  /** memcpy. */
  method Copy(a: array<byte>, at: nat, s: seq<byte>)
    requires at + |s| <= a.Length
    modifies a
    ensures a[..] == old(a[..at]) + s + old(a[at + |s|..])
  {
    for i := 0 to |s|
      invariant forall j :: 0 <= j < a.Length ==> a[j] == if at <= j < at + i then s[j - at] else old(a[j])
    {
      a[at + i] := s[i];
    }
    assert a[..at] == old(a[..at]) && a[at..at + |s|] == s && a[at + |s|..] == old(a[at + |s|..]);
    assert a[..] == a[..at] + a[at..at + |s|] + a[at + |s|..];
  }

  /** initblock: the seed and the key.  None if the key is too long. */
  method InitBlock(seed: seq<byte>, key: seq<byte>, block: array<byte>) returns (ok: bool, lblock: nat)
    requires |seed| <= BLOCKSIZE && block.Length == BLOCKSIZE + MAXKEY
    modifies block
    ensures ok == (|key| <= MAXKEY)
    ensures ok ==> lblock == BLOCKSIZE + |key| && block[..lblock] == SeedBlock(seed) + key
  {
    if |key| > MAXKEY { return false, 0; }
    Copy(block, 0, Zeros(BLOCKSIZE));
    Copy(block, 0, seed);
    assert block[..BLOCKSIZE] == SeedBlock(seed);
    Copy(block, BLOCKSIZE, key);
    ok, lblock := true, BLOCKSIZE + |key|;
  }

  /** The inner loops: a piece of the text and of the hash value are combined. */
  method Combine(code: array<byte>, text: seq<byte>) returns (i: nat)
    requires code.Length == BLOCKSIZE
    modifies code
    ensures i == Min(BLOCKSIZE, |text|) && code[..i] == XorAll(old(code[..]), text[..i])
  {
    ghost var h := code[..];
    i := 0;
    while i < BLOCKSIZE && i < |text|
      invariant i <= BLOCKSIZE && i <= |text|
      invariant forall j :: 0 <= j < i ==> code[j] == Xor(h[j], text[j])
      invariant forall j :: i <= j < BLOCKSIZE ==> code[j] == h[j]
    {
      code[i] := Xor(code[i], text[i]);
      i := i + 1;
    }
  }

  /** The first half of a turn of both streams: the text is combined with the hash of the block. */
  method HashXor(h: Hash, block: array<byte>, lblock: nat, text: seq<byte>) returns (out: seq<byte>)
    requires IsHash(h) && BLOCKSIZE <= lblock <= block.Length
    ensures |h(block[..BLOCKSIZE] + block[BLOCKSIZE..lblock])| == BLOCKSIZE
    ensures out == XorAll(h(block[..BLOCKSIZE] + block[BLOCKSIZE..lblock]), text[..Min(BLOCKSIZE, |text|)])
  {
    hide IsHash, XorAll;
    assert block[..lblock] == block[..BLOCKSIZE] + block[BLOCKSIZE..lblock];
    var code := new byte[BLOCKSIZE];
    HashLength(h, block[..lblock]);
    Copy(code, 0, h(block[..lblock]));
    assert code[..] == h(block[..lblock]);
    var i := Combine(code, text);
    out := code[..i];
  }

  /** memcpy of the feedback. */
  method Feed(block: array<byte>, lblock: nat, c: seq<byte>)
    requires |c| <= BLOCKSIZE <= lblock <= block.Length
    modifies block
    ensures block[..BLOCKSIZE] == Update(old(block[..BLOCKSIZE]), c) && block[BLOCKSIZE..lblock] == old(block[BLOCKSIZE..lblock])
  {
    ghost var was := block[..];
    Copy(block, 0, c);
    assert block[..] == c + was[|c|..];
  }

  lemma CodedNothing(h: Hash, block: seq<byte>, key: seq<byte>)
    requires IsHash(h) && |block| == BLOCKSIZE
    ensures forall b: seq<byte>, k: seq<byte> :: |b| == BLOCKSIZE ==> Coded(h, b, k, []) == [] && Decoded(h, b, k, []) == []
  {
  }

  lemma CodedStep(h: Hash, block: seq<byte>, key: seq<byte>, text: seq<byte>, before: seq<byte>)
    requires IsHash(h) && |block| == BLOCKSIZE && text != []
    ensures |h(block + key)| == BLOCKSIZE
    ensures var c := XorAll(h(block + key), text[..Min(BLOCKSIZE, |text|)]);
            before + Coded(h, block, key, text) == (before + c) + Coded(h, Update(block, c), key, text[|c|..])
  {
  }

  lemma DecodedStep(h: Hash, block: seq<byte>, key: seq<byte>, text: seq<byte>, before: seq<byte>)
    requires IsHash(h) && |block| == BLOCKSIZE && text != []
    ensures |h(block + key)| == BLOCKSIZE
    ensures var c := XorAll(h(block + key), text[..Min(BLOCKSIZE, |text|)]);
            before + Decoded(h, block, key, text) == (before + c) + Decoded(h, Update(block, text[..|c|]), key, text[|c|..])
  {
  }

  /** codestream. */
  method CodeStream(h: Hash, msg: seq<byte>, block: array<byte>, lblock: nat) returns (r: seq<byte>)
    requires IsHash(h) && BLOCKSIZE <= lblock <= block.Length
    modifies block
    ensures r == Coded(h, old(block[..BLOCKSIZE]), old(block[BLOCKSIZE..lblock]), msg)
  {
    CodedNothing(h, block[..BLOCKSIZE], block[BLOCKSIZE..lblock]);
    hide IsHash, XorAll, Update, Coded;
    ghost var b0, key := block[..BLOCKSIZE], block[BLOCKSIZE..lblock];
    var b := new Buffer();
    var text := msg;
    assert b.data + Coded(h, b0, key, msg) == Coded(h, b0, key, msg);
    while text != []
      invariant block[BLOCKSIZE..lblock] == key
      invariant Coded(h, b0, key, msg) == b.data + Coded(h, block[..BLOCKSIZE], key, text)
      decreases |text|
    {
      var c := HashXor(h, block, lblock, text);
      CodedStep(h, block[..BLOCKSIZE], key, text, b.data);
      b.Add(c);
      Feed(block, lblock, c);
      text := text[|c|..];
    }
    r := b.data;
  }

  /** decodestream. */
  method DecodeStream(h: Hash, cypher: seq<byte>, block: array<byte>, lblock: nat) returns (r: seq<byte>)
    requires IsHash(h) && BLOCKSIZE <= lblock <= block.Length
    modifies block
    ensures r == Decoded(h, old(block[..BLOCKSIZE]), old(block[BLOCKSIZE..lblock]), cypher)
  {
    CodedNothing(h, block[..BLOCKSIZE], block[BLOCKSIZE..lblock]);
    hide IsHash, XorAll, Update, Decoded;
    ghost var b0, key := block[..BLOCKSIZE], block[BLOCKSIZE..lblock];
    var b := new Buffer();
    var text := cypher;
    assert b.data + Decoded(h, b0, key, cypher) == Decoded(h, b0, key, cypher);
    while text != []
      invariant block[BLOCKSIZE..lblock] == key
      invariant Decoded(h, b0, key, cypher) == b.data + Decoded(h, block[..BLOCKSIZE], key, text)
      decreases |text|
    {
      var c := HashXor(h, block, lblock, text);
      DecodedStep(h, block[..BLOCKSIZE], key, text, b.data);
      b.Add(c);
      Feed(block, lblock, text[..|c|]);
      text := text[|c|..];
    }
    r := b.data;
  }

  /** crypt. */
  method Crypt(h: Hash, msg: seq<byte>, key: seq<byte>, seed: seq<byte>) returns (r: Result)
    requires IsHash(h)
    ensures r == Crypted(h, msg, key, seed)
  {
    if |seed| > BLOCKSIZE { return SeedTooLong; }
    var block := new byte[BLOCKSIZE + MAXKEY];
    block[0] := |seed| as byte;
    Copy(block, 1, seed);
    var head := block[..|seed| + 1];
    assert head == [|seed| as byte] + seed;
    var ok, lblock := InitBlock(seed, key, block);
    if !ok { return KeyTooLong; }
    assert block[..lblock][..BLOCKSIZE] == block[..BLOCKSIZE] && block[..lblock][BLOCKSIZE..] == block[BLOCKSIZE..lblock];
    var code := CodeStream(h, msg, block, lblock);
    r := Ok(head + code);
  }

  /** decrypt. */
  method Decrypt(h: Hash, c: seq<byte>, key: seq<byte>) returns (r: Result)
    requires IsHash(h)
    ensures r == Decrypted(h, c, key)
  {
    if !IsCyphered(c) { return InvalidText; }
    var lseed := c[0] as int;
    var block := new byte[BLOCKSIZE + MAXKEY];
    var ok, lblock := InitBlock(c[1..lseed + 1], key, block);
    if !ok { return KeyTooLong; }
    assert block[..lblock][..BLOCKSIZE] == block[..BLOCKSIZE] && block[..lblock][BLOCKSIZE..] == block[BLOCKSIZE..lblock];
    var text := DecodeStream(h, c[lseed + 1..], block, lblock);
    r := Ok(text);
  }
}
