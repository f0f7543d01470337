/** Encryption and decryption of one block by DES, and of texts, block by block. */
module Des {
  import opened DesBits

  datatype Stage = Stage(h: word, l: word)
  datatype Halves = Halves(l: word, r: word)

  /** The contents of the tables wPS: any function will do. */
  type Boxes = (nat, word) -> word

  // ---------- rounds ----------

  function Or4(a: word, b: word, c: word, d: word): word { a | b | c | d }

  /** What the first four boxes add to the left half, and the last four. */
  function FirstBoxes(ps: Boxes, r: word, h: word): word {
    var t := (r >> 15) | (r << 17);
    Or4(ps(0, ((t >> 12) ^ (h >> 24)) & 63), ps(1, ((t >> 8) ^ (h >> 16)) & 63), ps(2, ((t >> 4) ^ (h >> 8)) & 63), ps(3, (t ^ h) & 63))
  }

  function LastBoxes(ps: Boxes, r: word, l: word): word {
    var t := (r >> 15) | (r << 17);
    Or4(ps(4, ((r >> 11) ^ (l >> 24)) & 63), ps(5, ((r >> 7) ^ (l >> 16)) & 63), ps(6, ((r >> 3) ^ (l >> 8)) & 63), ps(7, ((t >> 16) ^ l) & 63))
  }

  function Xor(a: word, b: word): word { a ^ b }

  function Round(ps: Boxes, x: Halves, k: Stage): Halves {
    Halves(x.r, Xor(Xor(x.l, FirstBoxes(ps, x.r, k.h)), LastBoxes(ps, x.r, k.l)))
  }

  function Rounds(ps: Boxes, x: Halves, ks: seq<Stage>): Halves
    decreases |ks|
  {
    if ks == [] then x else Rounds(ps, Round(ps, x, ks[0]), ks[1..])
  }

  function Swapped(x: Halves): Halves { Halves(x.r, x.l) }

  function Reversed(ks: seq<Stage>): (r: seq<Stage>)
    ensures |r| == |ks|
  {
    seq(|ks|, i requires 0 <= i < |ks| => ks[|ks| - 1 - i])
  }

  lemma XorTwice(a: word, b: word, c: word)
    ensures Xor(Xor(Xor(Xor(a, b), c), b), c) == a
  {
  }

  /** A round undoes itself, with the halves exchanged. */
  lemma RoundBack(ps: Boxes, x: Halves, k: Stage)
    ensures Round(ps, Swapped(Round(ps, x, k)), k) == Swapped(x)
  {
    hide Xor, FirstBoxes, LastBoxes;
    XorTwice(x.l, FirstBoxes(ps, x.r, k.h), LastBoxes(ps, x.r, k.l));
  }

  lemma {:induction false} RoundsLast(ps: Boxes, x: Halves, ks: seq<Stage>, k: Stage)
    ensures Rounds(ps, x, ks + [k]) == Round(ps, Rounds(ps, x, ks), k)
    decreases |ks|
  {
    hide Round;
    if ks == [] {
      assert [] + [k] == [k] && [k][1..] == [];
    } else {
      assert (ks + [k])[1..] == ks[1..] + [k];
      RoundsLast(ps, Round(ps, x, ks[0]), ks[1..], k);
    }
  }

  /** The rounds with the keys in the opposite order undo the rounds. */
  lemma {:induction false} RoundsBack(ps: Boxes, x: Halves, ks: seq<Stage>)
    ensures Rounds(ps, Swapped(Rounds(ps, x, ks)), Reversed(ks)) == Swapped(x)
    decreases |ks|
  {
    hide Round;
    if ks != [] {
      var y := Round(ps, x, ks[0]);
      RoundsBack(ps, y, ks[1..]);
      assert Reversed(ks) == Reversed(ks[1..]) + [ks[0]];
      RoundsLast(ps, Swapped(Rounds(ps, x, ks)), Reversed(ks[1..]), ks[0]);
      RoundBack(ps, x, ks[0]);
    }
  }

  // ---------- blocks ----------

  function KeyOrder(ks: seq<Stage>, decrypt: bool): seq<Stage> { if decrypt then Reversed(ks) else ks }

  /** One block, encrypted or decrypted. */
  function Block(ps: Boxes, ks: seq<Stage>, decrypt: bool, b: seq<byte>): (r: seq<byte>)
    requires |b| == 8
    ensures |r| == 8
  {
    var x := Rounds(ps, Halves(LeftHalf(b, 0), RightHalf(b, 0)), KeyOrder(ks, decrypt));
    Output(x.l, x.r)
  }

  /** Decryption inverts encryption, for any key schedule and any contents of the boxes. */
  lemma BlockBack(ps: Boxes, ks: seq<Stage>, b: seq<byte>)
    requires |b| == 8
    ensures Block(ps, ks, true, Block(ps, ks, false, b)) == b
  {
    hide LeftHalf, RightHalf, Output, Rounds;
    var x := Halves(LeftHalf(b, 0), RightHalf(b, 0));
    var y := Rounds(ps, x, ks);
    HalvesOfOutput(y.l, y.r);
    RoundsBack(ps, x, ks);
    OutputOfHalves(b);
  }

  // ---------- the stages ----------

  /** The six bits of the right half that go to box i: each box begins four bits below the one before it, and the bits
      go round from bit 31 to bit 0. */
  function RightBits(r: word, i: nat): word
    requires i < 8
  {
    match i
    case 0 => ((r >> 27) | (r << 5)) & 63
    case 1 => (r >> 23) & 63
    case 2 => (r >> 19) & 63
    case 3 => (r >> 15) & 63
    case 4 => (r >> 11) & 63
    case 5 => (r >> 7) & 63
    case 6 => (r >> 3) & 63
    case _ => ((r >> 31) | (r << 1)) & 63
  }

  /** The six bits of the key of a stage for box i: the lower bits of a byte, from the highest byte of both words down. */
  function KeyBits(k: Stage, i: nat): word
    requires i < 8
  {
    match i
    case 0 => (k.h >> 24) & 63
    case 1 => (k.h >> 16) & 63
    case 2 => (k.h >> 8) & 63
    case 3 => k.h & 63
    case 4 => (k.l >> 24) & 63
    case 5 => (k.l >> 16) & 63
    case 6 => (k.l >> 8) & 63
    case _ => k.l & 63
  }

  function BoxInput(r: word, k: Stage, i: nat): word
    requires i < 8
  {
    RightBits(r, i) ^ KeyBits(k, i)
  }

  /** What the boxes make of the right half and the key of a stage. */
  function BoxesOf(ps: Boxes, r: word, k: Stage): word {
    Sum(ps(0, BoxInput(r, k, 0)), ps(1, BoxInput(r, k, 1)), ps(2, BoxInput(r, k, 2)), ps(3, BoxInput(r, k, 3)),
        ps(4, BoxInput(r, k, 4)), ps(5, BoxInput(r, k, 5)), ps(6, BoxInput(r, k, 6)), ps(7, BoxInput(r, k, 7)))
  }

  function Sum(a: word, b: word, c: word, d: word, e: word, f: word, g: word, h: word): word { (a | b | c | d) ^ (e | f | g | h) }

  /** One stage: the right half goes to the left, and what the boxes make of it is added to the left half. */
  predicate IsStage(ps: Boxes, x: Halves, y: Halves, k: Stage) { y.l == x.r && y.r == x.l ^ BoxesOf(ps, x.r, k) }

  lemma Joined(l: word, a: word, b: word, c: word, d: word, e: word, f: word, g: word, h: word)
    ensures Xor(Xor(l, Or4(a, b, c, d)), Or4(e, f, g, h)) == l ^ Sum(a, b, c, d, e, f, g, h)
  {
  }

  lemma FirstInputs(r: word, k: Stage)
    ensures var t := (r >> 15) | (r << 17);
      && ((t >> 12) ^ (k.h >> 24)) & 63 == BoxInput(r, k, 0) && ((t >> 8) ^ (k.h >> 16)) & 63 == BoxInput(r, k, 1)
      && ((t >> 4) ^ (k.h >> 8)) & 63 == BoxInput(r, k, 2) && (t ^ k.h) & 63 == BoxInput(r, k, 3)
  {
  }

  lemma LastInputs(r: word, k: Stage)
    ensures var t := (r >> 15) | (r << 17);
      && ((r >> 11) ^ (k.l >> 24)) & 63 == BoxInput(r, k, 4) && ((r >> 7) ^ (k.l >> 16)) & 63 == BoxInput(r, k, 5)
      && ((r >> 3) ^ (k.l >> 8)) & 63 == BoxInput(r, k, 6) && ((t >> 16) ^ k.l) & 63 == BoxInput(r, k, 7)
  {
  }

  lemma FirstAre(ps: Boxes, r: word, k: Stage)
    ensures FirstBoxes(ps, r, k.h) == Or4(ps(0, BoxInput(r, k, 0)), ps(1, BoxInput(r, k, 1)), ps(2, BoxInput(r, k, 2)), ps(3, BoxInput(r, k, 3)))
  {
    hide Or4, BoxInput;
    FirstInputs(r, k);
  }

  lemma LastAre(ps: Boxes, r: word, k: Stage)
    ensures LastBoxes(ps, r, k.l) == Or4(ps(4, BoxInput(r, k, 4)), ps(5, BoxInput(r, k, 5)), ps(6, BoxInput(r, k, 6)), ps(7, BoxInput(r, k, 7)))
  {
    hide Or4, BoxInput;
    LastInputs(r, k);
  }

  lemma BoxesJoined(ps: Boxes, l: word, r: word, k: Stage)
    ensures l ^ BoxesOf(ps, r, k) == Xor(Xor(l, Or4(ps(0, BoxInput(r, k, 0)), ps(1, BoxInput(r, k, 1)), ps(2, BoxInput(r, k, 2)), ps(3, BoxInput(r, k, 3)))),
                                        Or4(ps(4, BoxInput(r, k, 4)), ps(5, BoxInput(r, k, 5)), ps(6, BoxInput(r, k, 6)), ps(7, BoxInput(r, k, 7))))
  {
    hide BoxInput, Xor, Or4, Sum;
    Joined(l, ps(0, BoxInput(r, k, 0)), ps(1, BoxInput(r, k, 1)), ps(2, BoxInput(r, k, 2)), ps(3, BoxInput(r, k, 3)),
           ps(4, BoxInput(r, k, 4)), ps(5, BoxInput(r, k, 5)), ps(6, BoxInput(r, k, 6)), ps(7, BoxInput(r, k, 7)));
  }

  lemma RoundIsStage(ps: Boxes, x: Halves, k: Stage)
    ensures IsStage(ps, x, Round(ps, x, k), k)
  {
    hide BoxInput, FirstBoxes, LastBoxes, BoxesOf, Xor, Or4;
    FirstAre(ps, x.r, k);
    LastAre(ps, x.r, k);
    BoxesJoined(ps, x.l, x.r, k);
  }

  lemma {:induction false} RoundsAreStages(ps: Boxes, x: Halves, ks: seq<Stage>) returns (xs: seq<Halves>)
    ensures |xs| == |ks| + 1 && xs[0] == x && xs[|ks|] == Rounds(ps, x, ks)
    ensures forall n :: 0 <= n < |ks| ==> IsStage(ps, xs[n], xs[n + 1], ks[n])
    decreases |ks|
  {
    hide Round, IsStage;
    xs := [x];
    if ks != [] {
      RoundIsStage(ps, x, ks[0]);
      var ys := RoundsAreStages(ps, Round(ps, x, ks[0]), ks[1..]);
      xs := [x] + ys;
    }
  }

  /** A block goes through sixteen stages, from its two halves after the initial permutation to the output, with the
      keys from the first one on to encrypt and from the last one on to decrypt. */
  lemma BlockStages(ps: Boxes, ks: seq<Stage>, decrypt: bool, b: seq<byte>) returns (xs: seq<Halves>)
    requires |b| == 8 && |ks| == 16
    ensures |xs| == 17 && xs[0] == Halves(LeftHalf(b, 0), RightHalf(b, 0)) && Block(ps, ks, decrypt, b) == Output(xs[16].l, xs[16].r)
    ensures forall n :: 0 <= n < 16 ==> IsStage(ps, xs[n], xs[n + 1], if decrypt then ks[15 - n] else ks[n])
  {
    hide Rounds, IsStage, LeftHalf, RightHalf, Output;
    xs := RoundsAreStages(ps, Halves(LeftHalf(b, 0), RightHalf(b, 0)), KeyOrder(ks, decrypt));
  }

  // ---------- the block cipher in place ----------

  class Cipher {
    /** wL_I8, wO_L4, and wPS. */
    const wL: array<word>
    const wO: array<word>
    const ps: Boxes

    ghost predicate Valid()
      reads this, wL, wO
    {
      && wL.Length == 0x56 && (forall i :: 0 <= i < 0x56 ==> wL[i] == Spread(i as word))
      && wO.Length == 16 && (forall i :: 0 <= i < 16 ==> wO[i] == Gather(i as word))
    }

    /** buildtables: the two permutation tables. */
    constructor (ps: Boxes)
      ensures Valid() && this.ps == ps && fresh(wL) && fresh(wO)
    {
      this.ps := ps;
      wL, wO := new word[0x56], new word[16];
      new;
      for i := 0 to 0x56
        invariant forall j :: 0 <= j < i ==> wL[j] == Spread(j as word)
      {
        var v: word := 0;
        if (i as word) & 64 != 0 { v := 0x1000000; }
        if (i as word) & 16 != 0 { v := v | 0x10000; }
        if (i as word) & 4 != 0 { v := v | 0x100; }
        if (i as word) & 1 != 0 { v := v | 1; }
        wL[i] := v;
      }
      for i := 0 to 16
        invariant forall j :: 0 <= j < i ==> wO[j] == Gather(j as word)
        invariant forall j :: 0 <= j < 0x56 ==> wL[j] == Spread(j as word)
      {
        var v: word := 0;
        if (i as word) & 1 != 0 { v := 0x1000000; }
        if (i as word) & 2 != 0 { v := v | 0x10000; }
        if (i as word) & 4 != 0 { v := v | 0x100; }
        if (i as word) & 8 != 0 { v := v | 1; }
        wO[i] := v;
      }
    }

    /** fencrypt, on the eight bytes of block from off on. */
    method Fencrypt(block: array<byte>, off: nat, decrypt: bool, ks: seq<Stage>)
      requires Valid() && off + 8 <= block.Length && |ks| == 16
      modifies block
      ensures block[..] == old(block[..off]) + Block(ps, ks, decrypt, old(block[off..off + 8])) + old(block[off + 8..])
    {
      hide LeftHalf, RightHalf, Rounds, FirstWord, SecondWord, ByteOf, Spread, Gather;
      ghost var was := block[..];
      assert was[off..off + 8] == block[off..off + 8];
      var L, R := Permute(block, off);
      L, R := Rounds16(L, R, decrypt, ks);
      var first, second := OutWords(L, R);
      PutWord(block, off + 4, second);
      PutWord(block, off, first);
      Written(was, off, WordBytes(first), WordBytes(second));
    }

    /** The last lines of fencrypt: four bytes, from the last one down. */
    method PutWord(block: array<byte>, at: nat, w: word)
      requires at + 4 <= block.Length
      modifies block
      ensures block[..] == old(block[..at]) + WordBytes(w) + old(block[at + 4..])
    {
      hide ByteOf;
      block[at + 3] := ByteOf(w, 0);
      block[at + 2] := ByteOf(w, 1);
      block[at + 1] := ByteOf(w, 2);
      block[at] := ByteOf(w, 3);
    }

    /** The initial permutation of fencrypt. */
    method Permute(block: array<byte>, off: nat) returns (L: word, R: word)
      requires Valid() && off + 8 <= block.Length
      ensures L == LeftHalf(block[off..off + 8], 0) && R == RightHalf(block[off..off + 8], 0)
    {
      ghost var b := block[off..off + 8];
      hide Spread, Gather;
      L, R := 0, 0;
      var i := 8;
      while i > 0
        invariant 0 <= i <= 8 && L == LeftHalf(b, i) && R == RightHalf(b, i)
      {
        i := i - 1;
        assert b[i] == block[off + i];
        var v := block[off + i] as word;
        InTable(v);
        L := Shifted(wL[(v & 0x55) as int], L);
        R := Shifted(wL[((v >> 1) & 0x55) as int], R);
      }
    }

    /** The sixteen rounds of fencrypt; ksp goes up, or down. */
    method Rounds16(l0: word, r0: word, decrypt: bool, ks: seq<Stage>) returns (L: word, R: word)
      requires |ks| == 16
      ensures Halves(L, R) == Rounds(ps, Halves(l0, r0), KeyOrder(ks, decrypt))
    {
      hide Xor, FirstBoxes, LastBoxes;
      L, R := l0, r0;
      ghost var order := KeyOrder(ks, decrypt);
      assert order[0..] == order;
      var n, ksp := 0, if decrypt then 15 else 0;
      while n < 16
        invariant 0 <= n <= 16 && (n < 16 ==> ksp == if decrypt then 15 - n else n)
        invariant Rounds(ps, Halves(l0, r0), order) == Rounds(ps, Halves(L, R), order[n..])
      {
        var k := ks[ksp];
        assert order[n..][0] == k && order[n..][1..] == order[n + 1..];
        L := Xor(L, FirstBoxes(ps, R, k.h));
        L := Xor(L, LastBoxes(ps, R, k.l));
        var tR := L;
        L := R;
        R := tR;
        ksp := if decrypt then ksp - 1 else ksp + 1;
        n := n + 1;
      }
      assert order[n..] == [];
    }

    /** The final permutation of fencrypt. */
    method OutWords(L: word, R: word) returns (first: word, second: word)
      requires Valid()
      ensures first == FirstWord(L, R) && second == SecondWord(L, R)
    {
      var f0, f1, f2, f3 := FP(L, R), FP(L >> 8, R >> 8), FP(L >> 16, R >> 16), FP(L >> 24, R >> 24);
      var s0, s1, s2, s3 := FP(L >> 4, R >> 4), FP(L >> 12, R >> 12), FP(L >> 20, R >> 20), FP(L >> 28, R >> 28);
      hide Up, Fp;
      first := Up(f0, Up(f1, Up(f2, f3)));
      second := Up(s0, Up(s1, Up(s2, s3)));
    }

    /** The macro FP, by table. */
    function FP(l: word, r: word): (f: word)
      requires Valid()
      reads this, wL, wO
      ensures f == Fp(l, r)
    {
      InNibble(l);
      InNibble(r);
      Pair(wO[(l & 15) as int], wO[(r & 15) as int])
    }
  }

  lemma Written(was: seq<byte>, off: nat, first: seq<byte>, second: seq<byte>)
    requires off + 8 <= |was| && |first| == 4 && |second| == 4
    ensures var w := was[..off + 4] + second + was[off + 8..];
            w[..off] + first + w[off + 4..] == was[..off] + (first + second) + was[off + 8..]
  {
  }

  lemma AsIndex(x: word)
    requires x <= 0x55
    ensures 0 <= x as int < 0x56 && (x as int) as word == x
  {
  }

  lemma InTable(v: word)
    ensures 0 <= (v & 0x55) as int < 0x56 && 0 <= ((v >> 1) & 0x55) as int < 0x56
    ensures ((v & 0x55) as int) as word == v & 0x55 && (((v >> 1) & 0x55) as int) as word == (v >> 1) & 0x55
  {
    AsIndex(v & 0x55);
    AsIndex((v >> 1) & 0x55);
  }

  lemma InNibble(v: word)
    ensures 0 <= (v & 15) as int < 16 && ((v & 15) as int) as word == v & 15
  {
  }
}
