/** Encryption and decryption of texts of any length (the functions crypt and decrypt of the library). */
module DesText {
  import opened DesBits
  import opened Des

  datatype Option<T> = None | Some(value: T)

  /** OutsideBuffer: more bytes would be handed over than the function has allocated, or a negative number;
      what comes of that is not described. */
  datatype Result = Ok(text: seq<byte>) | InvalidKey | OutsideBuffer

  /** fsetkey: any key schedule of sixteen stages. */
  ghost predicate IsSchedule(setkey: seq<byte> -> seq<Stage>) { forall k: seq<byte> :: |setkey(k)| == 16 }

  /** strlen. */
  function StrLen(s: seq<byte>): (n: nat)
    ensures n <= |s|
  {
    if s == [] || s[0] == 0 then 0 else 1 + StrLen(s[1..])
  }

  predicate KeyOk(key: Option<seq<byte>>) { key.Some? && StrLen(key.value) >= 8 }

  // ---------- what the library computes ----------

  /** Every whole block is encrypted or decrypted, and the bytes after the last one are kept. */
  function Blocks(ps: Boxes, ks: seq<Stage>, decrypt: bool, t: seq<byte>): (r: seq<byte>)
    ensures |r| == |t|
    decreases |t|
  {
    if |t| < 8 then t else Block(ps, ks, decrypt, t[..8]) + Blocks(ps, ks, decrypt, t[8..])
  }

  function PadOf(n: nat): nat { (8 - n % 8) % 8 }

  function Zeros(n: nat): (r: seq<byte>)
    ensures |r| == n && forall i :: 0 <= i < n ==> r[i] == 0
  {
    seq(n, i requires 0 <= i < n => 0)
  }

  function Encrypted(ps: Boxes, ks: seq<Stage>, plain: seq<byte>): seq<byte> {
    Blocks(ps, ks, false, plain + Zeros(PadOf(|plain|))) + [PadOf(|plain|) as byte]
  }

  /** The last byte says how many bytes of padding there are. */
  predicate HasPad(c: seq<byte>) { |c| >= 1 && c[|c| - 1] as int < 128 && c[|c| - 1] as int <= |c| - 1 }

  function Decrypted(ps: Boxes, ks: seq<Stage>, c: seq<byte>): seq<byte>
    requires HasPad(c)
  {
    Blocks(ps, ks, true, c[..|c| - 1])[..|c| - 1 - c[|c| - 1] as int]
  }

  /** The last byte, read as a char with a sign. */
  function PadInfo(b: byte): int { if b as int < 128 then b as int else b as int - 256 }

  /** What decrypting gives for any text.  A last byte of 255 counts as -1, and takes in the zero byte
      behind the text. */
  function DecryptedAny(ps: Boxes, ks: seq<Stage>, c: seq<byte>): Result {
    if HasPad(c) then Ok(Decrypted(ps, ks, c))
    else if c != [] && c[|c| - 1] as int == 255 then Ok(Blocks(ps, ks, true, c[..|c| - 1]) + [0])
    else OutsideBuffer
  }

  // ---------- the round trip ----------

  lemma {:induction false} BlocksBack(ps: Boxes, ks: seq<Stage>, t: seq<byte>)
    ensures Blocks(ps, ks, true, Blocks(ps, ks, false, t)) == t
    decreases |t|
  {
    hide Block;
    if |t| >= 8 {
      var b, rest := Block(ps, ks, false, t[..8]), Blocks(ps, ks, false, t[8..]);
      assert (b + rest)[..8] == b && (b + rest)[8..] == rest;
      BlockBack(ps, ks, t[..8]);
      BlocksBack(ps, ks, t[8..]);
      assert t[..8] + t[8..] == t;
    }
  }

  lemma SmallByte(n: nat)
    requires n < 8
    ensures (n as byte) as int == n
  {
  }

  lemma {:induction false} BlockAt(ps: Boxes, ks: seq<Stage>, decrypt: bool, t: seq<byte>, i: nat)
    requires 8 * i + 8 <= |t|
    ensures Blocks(ps, ks, decrypt, t)[8 * i..8 * i + 8] == Block(ps, ks, decrypt, t[8 * i..8 * i + 8])
    decreases i
  {
    hide Block;
    if i > 0 {
      var rest := Blocks(ps, ks, decrypt, t[8..]);
      BlockAt(ps, ks, decrypt, t[8..], i - 1);
      assert t[8..][8 * (i - 1)..8 * (i - 1) + 8] == t[8 * i..8 * i + 8];
      assert Blocks(ps, ks, decrypt, t)[8 * i..8 * i + 8] == rest[8 * (i - 1)..8 * (i - 1) + 8];
    }
  }

  /** Block i of the text, with zeros behind the end. */
  predicate IsBlockOf(plain: seq<byte>, i: nat, b: seq<byte>) {
    |b| == 8 && forall j :: 0 <= j < 8 ==> b[j] == if 8 * i + j < |plain| then plain[8 * i + j] else 0
  }

  /** An encrypted text: as few whole blocks as hold the text, filled with zeros, and behind them the number of zeros. */
  lemma EncryptedParts(ps: Boxes, ks: seq<Stage>, plain: seq<byte>, i: nat)
    ensures var c := Encrypted(ps, ks, plain); var n := |c| - 1;
      && n % 8 == 0 && |plain| <= n < |plain| + 8 && c[n] as int == n - |plain|
      && (8 * i + 8 <= n ==> exists b: seq<byte> :: IsBlockOf(plain, i, b) && c[8 * i..8 * i + 8] == Block(ps, ks, false, b))
  {
    hide Block, Blocks;
    var c, pad := Encrypted(ps, ks, plain), PadOf(|plain|);
    SmallByte(pad);
    var t := plain + Zeros(pad);
    var n := |c| - 1;
    if 8 * i + 8 <= n {
      BlockAt(ps, ks, false, t, i);
      var b := t[8 * i..8 * i + 8];
      assert c[8 * i..8 * i + 8] == Blocks(ps, ks, false, t)[8 * i..8 * i + 8];
      assert IsBlockOf(plain, i, b);
    }
  }

  /** Decrypting what has been encrypted with the same key gives the text back, whatever its length. */
  lemma TextBack(ps: Boxes, ks: seq<Stage>, plain: seq<byte>)
    ensures HasPad(Encrypted(ps, ks, plain)) && Decrypted(ps, ks, Encrypted(ps, ks, plain)) == plain
  {
    hide Blocks, Block;
    var n := PadOf(|plain|);
    SmallByte(n);
    var padded := plain + Zeros(n);
    var c := Encrypted(ps, ks, plain);
    BlocksBack(ps, ks, padded);
    assert c[..|c| - 1] == Blocks(ps, ks, false, padded);
    assert padded[..|plain|] == plain;
  }

  lemma {:induction false} BlocksAppend(ps: Boxes, ks: seq<Stage>, decrypt: bool, a: seq<byte>, b: seq<byte>)
    requires |a| % 8 == 0
    ensures Blocks(ps, ks, decrypt, a + b) == Blocks(ps, ks, decrypt, a) + Blocks(ps, ks, decrypt, b)
    decreases |a|
  {
    hide Block;
    if a == [] {
      assert a + b == b;
      assert [] + Blocks(ps, ks, decrypt, b) == Blocks(ps, ks, decrypt, b);
    } else {
      assert (a + b)[..8] == a[..8] && (a + b)[8..] == a[8..] + b;
      BlocksAppend(ps, ks, decrypt, a[8..], b);
      assert Block(ps, ks, decrypt, a[..8]) + (Blocks(ps, ks, decrypt, a[8..]) + Blocks(ps, ks, decrypt, b)) == (Block(ps, ks, decrypt, a[..8]) + Blocks(ps, ks, decrypt, a[8..])) + Blocks(ps, ks, decrypt, b);
    }
  }

  // ---------- the functions ----------

  /** The state of the copying loops: whole blocks are done, and rel bytes follow. */
  ghost predicate Copied(ps: Boxes, ks: seq<Stage>, decrypt: bool, buf: seq<byte>, t: seq<byte>, rel: nat) {
    rel <= |t| && (|t| - rel) % 8 == 0 && buf == Blocks(ps, ks, decrypt, t[..|t| - rel]) + t[|t| - rel..]
  }

  lemma CopiedOne(ps: Boxes, ks: seq<Stage>, decrypt: bool, buf: seq<byte>, t: seq<byte>, rel: nat, x: byte)
    requires Copied(ps, ks, decrypt, buf, t, rel)
    ensures Copied(ps, ks, decrypt, buf + [x], t + [x], rel + 1)
  {
    var k := |t| - rel;
    assert (t + [x])[..k] == t[..k] && (t + [x])[k..] == t[k..] + [x];
  }

  lemma CopiedZero(ps: Boxes, ks: seq<Stage>, decrypt: bool, buf: seq<byte>, t: seq<byte>, pad: nat, rel: nat)
    requires Copied(ps, ks, decrypt, buf, t + Zeros(pad), rel)
    ensures Copied(ps, ks, decrypt, buf + [0], t + Zeros(pad + 1), rel + 1)
  {
    hide Copied;
    CopiedOne(ps, ks, decrypt, buf, t + Zeros(pad), rel, 0);
    assert (t + Zeros(pad)) + [0] == t + Zeros(pad + 1);
  }

  lemma CopiedBlock(ps: Boxes, ks: seq<Stage>, decrypt: bool, buf: seq<byte>, t: seq<byte>)
    requires Copied(ps, ks, decrypt, buf, t, 8)
    ensures |buf| == |t| && Copied(ps, ks, decrypt, buf[..|t| - 8] + Block(ps, ks, decrypt, buf[|t| - 8..]), t, 0)
  {
    hide Block;
    var k := |t| - 8;
    var last := t[k..];
    assert buf[..k] == Blocks(ps, ks, decrypt, t[..k]) && buf[k..] == last;
    BlocksAppend(ps, ks, decrypt, t[..k], last);
    assert t[..k] + last == t && last[..8] == last && last[8..] == [];
    assert t[..|t| - 0] == t && t[|t| - 0..] == [];
    assert Blocks(ps, ks, decrypt, last) == Block(ps, ks, decrypt, last) + [];
  }

  /** The loop that both functions have: bytes are copied, and every eighth one completes a block. */
  method CopyBlocks(c: Cipher, ks: seq<Stage>, decrypt: bool, text: seq<byte>, buf: array<byte>) returns (rel: nat)
    requires c.Valid() && |ks| == 16 && |text| <= buf.Length
    modifies buf
    ensures rel < 8 && Copied(c.ps, ks, decrypt, buf[..|text|], text, rel)
  {
    hide Copied, Cipher.Valid, Blocks, Block, Spread, Gather;
    rel := 0;
    var abs := 0;
    assert text[..0] == [] && buf[..0] == [];
    NothingCopied(c.ps, ks, decrypt);
    while abs < |text|
      invariant 0 <= abs <= |text| && rel < 8 && rel <= abs && c.Valid() && Copied(c.ps, ks, decrypt, buf[..abs], text[..abs], rel)
    {
      CopyByte(c.ps, ks, decrypt, text, buf, abs, rel);
      abs := abs + 1;
      rel := rel + 1;
      if rel == 8 {
        rel := 0;
        EncryptLast(c, ks, decrypt, buf, abs, text[..abs]);
      }
    }
    assert text[..abs] == text;
  }

  /** One byte of the text goes to the buffer. */
  method CopyByte(ghost ps: Boxes, ghost ks: seq<Stage>, ghost decrypt: bool, text: seq<byte>, buf: array<byte>, at: nat, ghost rel: nat)
    requires at < |text| <= buf.Length && Copied(ps, ks, decrypt, buf[..at], text[..at], rel)
    modifies buf
    ensures Copied(ps, ks, decrypt, buf[..at + 1], text[..at + 1], rel + 1)
  {
    hide Copied;
    CopiedOne(ps, ks, decrypt, buf[..at], text[..at], rel, text[at]);
    PutByte(buf, at, text[at]);
    assert text[..at + 1] == text[..at] + [text[at]];
  }

  method PutByte(buf: array<byte>, at: nat, x: byte)
    requires at < buf.Length
    modifies buf
    ensures buf[..at + 1] == old(buf[..at]) + [x]
  {
    buf[at] := x;
  }

  lemma NothingCopied(ps: Boxes, ks: seq<Stage>, decrypt: bool)
    ensures Copied(ps, ks, decrypt, [], [], 0)
  {
  }

  /** The call of fencrypt for the last eight bytes that have been copied. */
  method EncryptLast(c: Cipher, ks: seq<Stage>, decrypt: bool, buf: array<byte>, abs: nat, ghost t: seq<byte>)
    requires c.Valid() && |ks| == 16 && 8 <= abs <= buf.Length && abs == |t|
    requires Copied(c.ps, ks, decrypt, buf[..abs], t, 8)
    modifies buf
    ensures c.Valid() && Copied(c.ps, ks, decrypt, buf[..abs], t, 0)
  {
    hide Copied, Block;
    CopiedBlock(c.ps, ks, decrypt, buf[..abs], t);
    ghost var was := buf[..];
    assert was[..abs][..abs - 8] == was[..abs - 8] && was[..abs][abs - 8..] == was[abs - 8..abs];
    c.Fencrypt(buf, abs - 8, decrypt, ks);
    assert buf[..][..abs] == buf[..abs];
  }

  /** des56_crypt. */
  method Crypt(c: Cipher, plain: seq<byte>, key: Option<seq<byte>>, setkey: seq<byte> -> seq<Stage>) returns (r: Result)
    requires c.Valid() && IsSchedule(setkey)
    ensures r == if KeyOk(key) then Ok(Encrypted(c.ps, setkey(key.value[..8]), plain)) else InvalidKey
  {
    if !KeyOk(key) { return InvalidKey; }
    hide Blocks, Cipher.Valid;
    var ks := setkey(key.value[..8]);
    var buf := new byte[|plain| + 8];
    var pad := EncryptAll(c, ks, plain, buf);
    PutByte(buf, |plain| + pad, pad as byte);
    r := Ok(buf[..|plain| + pad + 1]);
  }

  /** The part of des56_crypt that fills the buffer. */
  method EncryptAll(c: Cipher, ks: seq<Stage>, plain: seq<byte>, buf: array<byte>) returns (pad: nat)
    requires c.Valid() && |ks| == 16 && buf.Length == |plain| + 8
    modifies buf
    ensures pad == PadOf(|plain|) < 8 && buf[..|plain| + pad] == Blocks(c.ps, ks, false, plain + Zeros(pad))
  {
    assert plain + Zeros(0) == plain;
    hide Copied, Blocks, Cipher.Valid, PadOf, Zeros;
    var rel := CopyBlocks(c, ks, false, plain, buf);
    CopiedCount(c.ps, ks, false, buf[..|plain|], plain, rel);
    pad := 0;
    if rel != 0 { pad := PadBlock(c, ks, buf, rel, |plain|, plain); }
    CopiedAll(c.ps, ks, false, buf[..|plain| + pad], plain + Zeros(pad));
  }

  method PutZero(c: Cipher, ghost ks: seq<Stage>, buf: array<byte>, abs: nat, ghost plain: seq<byte>, ghost pad: nat, ghost rel: nat)
    requires c.Valid() && abs < buf.Length && Copied(c.ps, ks, false, buf[..abs], plain + Zeros(pad), rel)
    modifies buf
    ensures c.Valid() && Copied(c.ps, ks, false, buf[..abs + 1], plain + Zeros(pad + 1), rel + 1)
  {
    hide Copied, Cipher.Valid, Zeros;
    CopiedZero(c.ps, ks, false, buf[..abs], plain, pad, rel);
    PutByte(buf, abs, 0);
  }

  /** The last block is filled with zeros. */
  method FillZeros(c: Cipher, ghost ks: seq<Stage>, buf: array<byte>, rel0: nat, n: nat, ghost plain: seq<byte>) returns (pad: nat)
    requires c.Valid() && rel0 < 8 && n == |plain| && n + 8 <= buf.Length && Copied(c.ps, ks, false, buf[..n], plain + Zeros(0), rel0)
    modifies buf
    ensures c.Valid() && pad == 8 - rel0 && Copied(c.ps, ks, false, buf[..n + pad], plain + Zeros(pad), 8)
  {
    hide Copied, Cipher.Valid, Zeros;
    pad := 0;
    var rel := rel0;
    while rel < 8
      invariant rel0 <= rel <= 8 && pad == rel - rel0 && c.Valid()
      invariant Copied(c.ps, ks, false, buf[..n + pad], plain + Zeros(pad), rel)
      decreases 8 - rel
    {
      PutZero(c, ks, buf, n + pad, plain, pad, rel);
      pad := pad + 1;
      rel := rel + 1;
    }
  }

  method PadBlock(c: Cipher, ks: seq<Stage>, buf: array<byte>, rel0: nat, n: nat, ghost plain: seq<byte>) returns (pad: nat)
    requires c.Valid() && |ks| == 16 && 0 < rel0 < 8 && rel0 <= n == |plain| && n + 8 <= buf.Length && Copied(c.ps, ks, false, buf[..n], plain, rel0)
    modifies buf
    ensures pad == 8 - rel0 && Copied(c.ps, ks, false, buf[..n + pad], plain + Zeros(pad), 0)
  {
    assert plain + Zeros(0) == plain;
    hide Copied, Block, Blocks, Cipher.Valid, Zeros;
    pad := FillZeros(c, ks, buf, rel0, n, plain);
    EncryptLast(c, ks, false, buf, n + pad, plain + Zeros(pad));
  }

  lemma CopiedCount(ps: Boxes, ks: seq<Stage>, decrypt: bool, buf: seq<byte>, t: seq<byte>, rel: nat)
    requires Copied(ps, ks, decrypt, buf, t, rel) && rel < 8
    ensures |buf| == |t| && rel == |t| % 8 <= |t| && PadOf(|t|) == (if rel == 0 then 0 else 8 - rel)
  {
    hide Blocks;
    var k := (|t| - rel) / 8;
    assert |t| == 8 * k + rel;
  }

  lemma CopiedAll(ps: Boxes, ks: seq<Stage>, decrypt: bool, buf: seq<byte>, t: seq<byte>)
    requires Copied(ps, ks, decrypt, buf, t, 0)
    ensures buf == Blocks(ps, ks, decrypt, t)
  {
    assert t[..|t| - 0] == t && t[|t| - 0..] == [];
  }

  lemma CopiedRest(ps: Boxes, ks: seq<Stage>, decrypt: bool, buf: seq<byte>, t: seq<byte>, rel: nat)
    requires Copied(ps, ks, decrypt, buf, t, rel) && rel < 8
    ensures buf == Blocks(ps, ks, decrypt, t)
  {
    hide Block;
    var k := |t| - rel;
    BlocksAppend(ps, ks, decrypt, t[..k], t[k..]);
    assert t[..k] + t[k..] == t;
  }

  lemma NothingDecrypted(ps: Boxes, ks: seq<Stage>)
    ensures DecryptedAny(ps, ks, []) == OutsideBuffer
  {
  }

  /** What is taken of the buffer that holds the decrypted blocks and a zero. */
  lemma TakenText(ps: Boxes, ks: seq<Stage>, c: seq<byte>, buf: seq<byte>)
    requires c != [] && |buf| == |c| && buf[..|c| - 1] == Blocks(ps, ks, true, c[..|c| - 1]) && buf[|c| - 1] == 0
    ensures var n, pad := |c| - 1, PadInfo(c[|c| - 1]);
      DecryptedAny(ps, ks, c) == if n - pad < 0 || n - pad > |buf| then OutsideBuffer else Ok(buf[..n - pad])
  {
    hide Blocks;
    var n, pad := |c| - 1, PadInfo(c[|c| - 1]);
    assert buf == buf[..n] + [0];
    if 0 <= pad <= n { assert buf[..n][..n - pad] == buf[..n - pad]; }
  }

  /** des56_decrypt.  The last byte of the text is taken for the length of the padding, whatever it is;
      the result keeps inside the buffer exactly if that length is not more than there is, or is -1. */
  method Decrypt(c: Cipher, cyphered: seq<byte>, key: Option<seq<byte>>, setkey: seq<byte> -> seq<Stage>) returns (r: Result)
    requires c.Valid() && IsSchedule(setkey)
    ensures r == if KeyOk(key) then DecryptedAny(c.ps, setkey(key.value[..8]), cyphered) else InvalidKey
    ensures KeyOk(key) ==> (r.OutsideBuffer? <==> cyphered == [] || (var pad := PadInfo(cyphered[|cyphered| - 1]); pad > |cyphered| - 1 || pad < -1))
  {
    hide Copied, Blocks, Cipher.Valid, DecryptedAny, PadInfo;
    if !KeyOk(key) { return InvalidKey; }
    if cyphered == [] { NothingDecrypted(c.ps, setkey(key.value[..8])); return OutsideBuffer; }
    var padinfo, n := PadInfo(cyphered[|cyphered| - 1]), |cyphered| - 1;
    var buf := new byte[n + 1];
    var ks := setkey(key.value[..8]);
    var rel := CopyBlocks(c, ks, true, cyphered[..n], buf);
    CopiedRest(c.ps, ks, true, buf[..n], cyphered[..n], rel);
    PutByte(buf, n, 0);
    TakenText(c.ps, ks, cyphered, buf[..]);
    if n - padinfo < 0 || n - padinfo > buf.Length { return OutsideBuffer; }
    r := Ok(buf[..n - padinfo]);
  }
}
