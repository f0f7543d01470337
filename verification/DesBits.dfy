/** The bit permutations around the rounds of DES, by table and by shift as the code has them.  The
    final one undoes the initial one, with the halves exchanged. */
module DesBits {
  type byte = bv8
  type word = bv32

  // ---------- tables ----------

  /** An entry of wL_I8: bits 0, 2, 4 and 6 go to the lowest bits of four bytes. */
  function Spread(i: word): word {
    (if i & 64 != 0 then 0x1000000 else 0) | (if i & 16 != 0 then 0x10000 else 0) | (if i & 4 != 0 then 0x100 else 0) | (if i & 1 != 0 then 1 else 0)
  }

  /** An entry of wO_L4. */
  function Gather(i: word): word {
    (if i & 1 != 0 then 0x1000000 else 0) | (if i & 2 != 0 then 0x10000 else 0) | (if i & 4 != 0 then 0x100 else 0) | (if i & 8 != 0 then 1 else 0)
  }

  // ---------- the initial permutation ----------

  function Shifted(s: word, w: word): word { s | (w << 1) }

  /** The bits 0, 2, 4 and 6 of a byte, and the bits 1, 3, 5 and 7. */
  function Even(b: byte): word { Spread((b as word) & 0x55) }
  function Odd(b: byte): word { Spread(((b as word) >> 1) & 0x55) }

  /** The left half: the bytes from i on, each one spread, the later ones shifted further. */
  function LeftHalf(b: seq<byte>, i: nat): word
    requires i <= |b|
    decreases |b| - i
  {
    if i == |b| then 0 else Shifted(Even(b[i]), LeftHalf(b, i + 1))
  }

  function RightHalf(b: seq<byte>, i: nat): word
    requires i <= |b|
    decreases |b| - i
  {
    if i == |b| then 0 else Shifted(Odd(b[i]), RightHalf(b, i + 1))
  }

  // ---------- the final permutation ----------

  function Pair(a: word, b: word): word { (a << 1) | b }

  /** FP, on the halves shifted already. */
  function Fp(l: word, r: word): word { Pair(Gather(l & 15), Gather(r & 15)) }

  function Up(p: word, q: word): word { p | (q << 2) }

  function Join(p0: word, p1: word, p2: word, p3: word): word { Up(p0, Up(p1, Up(p2, p3))) }

  /** The first four bytes, and the last four. */
  function FirstWord(l: word, r: word): word { Join(Fp(l, r), Fp(l >> 8, r >> 8), Fp(l >> 16, r >> 16), Fp(l >> 24, r >> 24)) }
  function SecondWord(l: word, r: word): word { Join(Fp(l >> 4, r >> 4), Fp(l >> 12, r >> 12), Fp(l >> 20, r >> 20), Fp(l >> 28, r >> 28)) }

  function ByteOf(w: word, q: nat): byte
    requires q < 4
  {
    Part(w, q) as byte
  }

  function Part(w: word, q: nat): (r: word)
    requires q < 4
    ensures r <= 255
  {
    if q == 0 then w & 255 else if q == 1 then (w >> 8) & 255 else if q == 2 then (w >> 16) & 255 else (w >> 24) & 255
  }

  function WordBytes(w: word): (r: seq<byte>)
    ensures |r| == 4
  {
    [ByteOf(w, 3), ByteOf(w, 2), ByteOf(w, 1), ByteOf(w, 0)]
  }

  /** The block that is written from the two halves. */
  function Output(l: word, r: word): (b: seq<byte>)
    ensures |b| == 8
  {
    WordBytes(FirstWord(l, r)) + WordBytes(SecondWord(l, r))
  }

  // ---------- lanes ----------

  /** Bits i, 8+i, 16+i and 24+i of a word. */
  function Lane(x: word, i: nat): word
    requires i < 8
  {
    if i == 0 then x & 0x01010101 else if i == 1 then (x >> 1) & 0x01010101 else if i == 2 then (x >> 2) & 0x01010101
    else if i == 3 then (x >> 3) & 0x01010101 else if i == 4 then (x >> 4) & 0x01010101 else if i == 5 then (x >> 5) & 0x01010101
    else if i == 6 then (x >> 6) & 0x01010101 else (x >> 7) & 0x01010101
  }

  lemma LanesShift(w: word, s: word)
    requires s & 0x01010101 == s && Lane(w, 7) == 0
    ensures Lane(Shifted(s, w), 0) == s
    ensures Lane(Shifted(s, w), 1) == Lane(w, 0) && Lane(Shifted(s, w), 2) == Lane(w, 1) && Lane(Shifted(s, w), 3) == Lane(w, 2)
    ensures Lane(Shifted(s, w), 4) == Lane(w, 3) && Lane(Shifted(s, w), 5) == Lane(w, 4) && Lane(Shifted(s, w), 6) == Lane(w, 5)
    ensures Lane(Shifted(s, w), 7) == Lane(w, 6)
  {
  }

  lemma LaneStep(w: word, s: word, j: nat)
    requires IsLane(s) && Lane(w, 7) == 0 && j < 8
    ensures Lane(Shifted(s, w), j) == if j == 0 then s else Lane(w, j - 1)
  {
    LanesShift(w, s);
    hide Lane, Shifted;
  }

  predicate IsLane(s: word) { s & 0x01010101 == s }

  lemma LaneZero(i: nat)
    requires i < 8
    ensures Lane(0, i) == 0
  {
  }

  /** A word is the sum of its lanes. */
  lemma LanesDetermine(x: word, y: word)
    requires Lane(x, 0) == Lane(y, 0) && Lane(x, 1) == Lane(y, 1) && Lane(x, 2) == Lane(y, 2) && Lane(x, 3) == Lane(y, 3)
    requires Lane(x, 4) == Lane(y, 4) && Lane(x, 5) == Lane(y, 5) && Lane(x, 6) == Lane(y, 6) && Lane(x, 7) == Lane(y, 7)
    ensures x == y
  {
  }

  /** The bits of a byte in its halves: bits 0, 2, 4 and 6, and bits 1, 3, 5 and 7, each at the lowest place of a byte. */
  lemma HalfBits(b: byte)
    ensures Even(b) == (if b & 1 != 0 then 0x1 else 0) + (if b & 4 != 0 then 0x100 else 0) + (if b & 16 != 0 then 0x10000 else 0) + (if b & 64 != 0 then 0x1000000 else 0)
    ensures Odd(b) == (if b & 2 != 0 then 0x1 else 0) + (if b & 8 != 0 then 0x100 else 0) + (if b & 32 != 0 then 0x10000 else 0) + (if b & 128 != 0 then 0x1000000 else 0)
  {
  }

  lemma SpreadIsLane(i: word)
    ensures IsLane(Spread(i))
  {
  }

  /** Lane i of the halves holds the even and the odd bits of byte i. */
  lemma {:induction false} HalfLanes(b: seq<byte>, n: nat, j: nat)
    requires n <= |b| <= 8 && j < 8
    ensures Lane(LeftHalf(b, n), j) == if n + j < |b| then Even(b[n + j]) else 0
    ensures Lane(RightHalf(b, n), j) == if n + j < |b| then Odd(b[n + j]) else 0
    decreases |b| - n
  {
    hide Lane, Spread, Shifted;
    if n < |b| {
      HalfLanes(b, n + 1, 7);
      if j > 0 { HalfLanes(b, n + 1, j - 1); }
      SpreadIsLane((b[n] as word) & 0x55);
      SpreadIsLane(((b[n] as word) >> 1) & 0x55);
      LaneStep(LeftHalf(b, n + 1), Even(b[n]), j);
      LaneStep(RightHalf(b, n + 1), Odd(b[n]), j);
    } else {
      LaneZero(j);
    }
  }

  // ---------- the bytes that are written ----------

  /** Spread the other way. */
  function Compress(s: word): word { (s & 1) | ((s & 0x100) >> 6) | ((s & 0x10000) >> 12) | ((s & 0x1000000) >> 18) }

  /** Gather without the table. */
  function Gathered(x: word): word { ((x & 1) << 24) | ((x & 2) << 15) | ((x & 4) << 6) | ((x & 8) >> 3) }

  lemma GatherIs(x: word)
    ensures Gather(x & 15) == Gathered(x)
  {
  }

  lemma FpIs(l: word, r: word)
    ensures Fp(l, r) == Pair(Gathered(l), Gathered(r))
  {
    hide Gather, Gathered, Pair;
    GatherIs(l);
    GatherIs(r);
  }

  lemma UpPairs(a: word, b: word, c: word, d: word)
    ensures Up(Pair(a, b), Pair(c, d)) == Pair(Up(a, c), Up(b, d))
  {
  }

  lemma JoinPairs(a0: word, a1: word, a2: word, a3: word, b0: word, b1: word, b2: word, b3: word)
    ensures Join(Pair(a0, b0), Pair(a1, b1), Pair(a2, b2), Pair(a3, b3)) == Pair(Join(a0, a1, a2, a3), Join(b0, b1, b2, b3))
  {
    hide Pair, Up;
    UpPairs(a2, b2, a3, b3);
    UpPairs(a1, b1, Up(a2, a3), Up(b2, b3));
    UpPairs(a0, b0, Up(a1, Up(a2, a3)), Up(b1, Up(b2, b3)));
  }

  function FirstHalf(x: word): word { Join(Gathered(x), Gathered(x >> 8), Gathered(x >> 16), Gathered(x >> 24)) }
  function SecondHalf(x: word): word { Join(Gathered(x >> 4), Gathered(x >> 12), Gathered(x >> 20), Gathered(x >> 28)) }

  lemma FirstWordIs(l: word, r: word)
    ensures FirstWord(l, r) == Pair(FirstHalf(l), FirstHalf(r))
  {
    hide Join, Pair, Gathered, Fp;
    FpIs(l, r); FpIs(l >> 8, r >> 8); FpIs(l >> 16, r >> 16); FpIs(l >> 24, r >> 24);
    JoinPairs(Gathered(l), Gathered(l >> 8), Gathered(l >> 16), Gathered(l >> 24), Gathered(r), Gathered(r >> 8), Gathered(r >> 16), Gathered(r >> 24));
  }

  lemma SecondWordIs(l: word, r: word)
    ensures SecondWord(l, r) == Pair(SecondHalf(l), SecondHalf(r))
  {
    hide Join, Pair, Gathered, Fp;
    FpIs(l >> 4, r >> 4); FpIs(l >> 12, r >> 12); FpIs(l >> 20, r >> 20); FpIs(l >> 28, r >> 28);
    JoinPairs(Gathered(l >> 4), Gathered(l >> 12), Gathered(l >> 20), Gathered(l >> 28), Gathered(r >> 4), Gathered(r >> 12), Gathered(r >> 20), Gathered(r >> 28));
  }

  lemma FirstHalfBytes(x: word)
    ensures Part(FirstHalf(x), 3) == Compress(Lane(x, 0)) && Part(FirstHalf(x), 2) == Compress(Lane(x, 1))
    ensures Part(FirstHalf(x), 1) == Compress(Lane(x, 2)) && Part(FirstHalf(x), 0) == Compress(Lane(x, 3))
  {
  }

  lemma SecondHalfBytes(x: word)
    ensures Part(SecondHalf(x), 3) == Compress(Lane(x, 4)) && Part(SecondHalf(x), 2) == Compress(Lane(x, 5))
    ensures Part(SecondHalf(x), 1) == Compress(Lane(x, 6)) && Part(SecondHalf(x), 0) == Compress(Lane(x, 7))
  {
  }

  predicate NoOdd(a: word) { a & 0xAAAAAAAA == 0 }

  lemma HalfNoOdd(x: word)
    ensures NoOdd(FirstHalf(x)) && NoOdd(SecondHalf(x))
  {
  }

  /** Two even parts make a byte. */
  function PairByte(a: word, b: word): byte { (((a << 1) | b) & 255) as byte }

  lemma PairBytes(a: word, b: word)
    requires NoOdd(a) && NoOdd(b)
    ensures ByteOf(Pair(a, b), 3) == PairByte(Part(a, 3), Part(b, 3)) && ByteOf(Pair(a, b), 2) == PairByte(Part(a, 2), Part(b, 2))
    ensures ByteOf(Pair(a, b), 1) == PairByte(Part(a, 1), Part(b, 1)) && ByteOf(Pair(a, b), 0) == PairByte(Part(a, 0), Part(b, 0))
  {
  }

  /** Byte i of the output has lane i of the left half in its odd bits, and of the right half in its even bits. */
  predicate OutputByte(b: byte, l: word, r: word, i: nat)
    requires i < 8
  {
    b == PairByte(Compress(Lane(l, i)), Compress(Lane(r, i)))
  }

  lemma FirstBytes(l: word, r: word)
    ensures OutputByte(ByteOf(FirstWord(l, r), 3), l, r, 0) && OutputByte(ByteOf(FirstWord(l, r), 2), l, r, 1)
    ensures OutputByte(ByteOf(FirstWord(l, r), 1), l, r, 2) && OutputByte(ByteOf(FirstWord(l, r), 0), l, r, 3)
  {
    hide FirstWord, FirstHalf, Pair, PairByte, Compress, Lane, ByteOf, NoOdd, Part;
    HalfNoOdd(l);
    HalfNoOdd(r);
    FirstWordIs(l, r);
    PairBytes(FirstHalf(l), FirstHalf(r));
    FirstHalfBytes(l);
    FirstHalfBytes(r);
  }

  lemma SecondBytes(l: word, r: word)
    ensures OutputByte(ByteOf(SecondWord(l, r), 3), l, r, 4) && OutputByte(ByteOf(SecondWord(l, r), 2), l, r, 5)
    ensures OutputByte(ByteOf(SecondWord(l, r), 1), l, r, 6) && OutputByte(ByteOf(SecondWord(l, r), 0), l, r, 7)
  {
    hide SecondWord, SecondHalf, Pair, PairByte, Compress, Lane, ByteOf, NoOdd, Part;
    HalfNoOdd(l);
    HalfNoOdd(r);
    SecondWordIs(l, r);
    PairBytes(SecondHalf(l), SecondHalf(r));
    SecondHalfBytes(l);
    SecondHalfBytes(r);
  }

  lemma OutputBytes(l: word, r: word, i: nat)
    requires i < 8
    ensures OutputByte(Output(l, r)[i], l, r, i)
  {
    hide FirstWord, SecondWord, ByteOf, OutputByte;
    FirstBytes(l, r);
    SecondBytes(l, r);
  }

  // ---------- the two permutations ----------

  lemma ByteFromParts(b: byte)
    ensures PairByte(Compress(Odd(b)), Compress(Even(b))) == b
  {
  }

  lemma PartsFromByte(s: word, t: word)
    requires IsLane(s) && IsLane(t)
    ensures Even(PairByte(Compress(s), Compress(t))) == t && Odd(PairByte(Compress(s), Compress(t))) == s
  {
  }

  lemma LaneIsLane(x: word, i: nat)
    requires i < 8
    ensures IsLane(Lane(x, i))
  {
  }

  /** The halves of a block, exchanged, give the block back. */
  lemma OutputOfHalves(b: seq<byte>)
    requires |b| == 8
    ensures Output(RightHalf(b, 0), LeftHalf(b, 0)) == b
  {
    hide Output, LeftHalf, RightHalf, Lane, PairByte, Compress, Even, Odd;
    forall i | 0 <= i < 8 ensures Output(RightHalf(b, 0), LeftHalf(b, 0))[i] == b[i] {
      OutputBytes(RightHalf(b, 0), LeftHalf(b, 0), i);
      HalfLanes(b, 0, i);
      ByteFromParts(b[i]);
    }
  }

  /** The output of two halves has them, exchanged, as its own. */
  lemma HalvesOfOutput(l: word, r: word)
    ensures LeftHalf(Output(l, r), 0) == r && RightHalf(Output(l, r), 0) == l
  {
    hide Output, LeftHalf, RightHalf, Lane, PairByte, Compress, Even, Odd;
    var b := Output(l, r);
    forall i: nat | i < 8 ensures Lane(LeftHalf(b, 0), i) == Lane(r, i) && Lane(RightHalf(b, 0), i) == Lane(l, i) {
      OutputBytes(l, r, i);
      HalfLanes(b, 0, i);
      LaneIsLane(l, i);
      LaneIsLane(r, i);
      PartsFromByte(Lane(l, i), Lane(r, i));
    }
    LanesDetermine(LeftHalf(b, 0), r);
    LanesDetermine(RightHalf(b, 0), l);
  }
}
