/** The MD5 message digest, sections 3.1 to 3.5 of RFC 1321, as functions of the
    whole message: the reference the streaming class is measured against. */
module Md5Reference {

  type word = x: int | 0 <= x < 0x1_0000_0000
  type byte = x: int | 0 <= x < 256

  // ---------- section 3.4: one block ----------

  datatype State = State(a: word, b: word, c: word, d: word)

  const INITIAL := State(0x67452301, 0xefcdab89, 0x98badcfe, 0x10325476)

  const S11 := 7
  const S12 := 12
  const S13 := 17
  const S14 := 22
  const S21 := 5
  const S22 := 9
  const S23 := 14
  const S24 := 20
  const S31 := 4
  const S32 := 11
  const S33 := 16
  const S34 := 23
  const S41 := 6
  const S42 := 10
  const S43 := 15
  const S44 := 21

  function F(x: bv32, y: bv32, z: bv32): bv32 { (x & y) | (!x & z) }
  function G(x: bv32, y: bv32, z: bv32): bv32 { (x & z) | (y & !z) }
  function H(x: bv32, y: bv32, z: bv32): bv32 { x ^ y ^ z }
  function I(x: bv32, y: bv32, z: bv32): bv32 { y ^ (x | !z) }

  /** Amounts of rotation, and the numbers of the operations, in all and in a round. */
  type amount = n: nat | n <= 32
  type operation = i: nat | i < 64
  type inRound = i: nat | i < 16

  function RotateLeft(x: bv32, n: amount): bv32 {
    (x << n) | (x >> (32 - n))
  }

  /** b + ((a + mix + x + ac) <<< s), all modulo 2^32. */
  function Mixed(a: word, b: word, mix: bv32, x: word, s: amount, ac: word): word {
    (RotateLeft(a as bv32 + mix + x as bv32 + ac as bv32, s) + b as bv32) as word
  }

  function FF(a: word, b: word, c: word, d: word, x: word, s: amount, ac: word): word {
    Mixed(a, b, F(b as bv32, c as bv32, d as bv32), x, s, ac)
  }

  function GG(a: word, b: word, c: word, d: word, x: word, s: amount, ac: word): word {
    Mixed(a, b, G(b as bv32, c as bv32, d as bv32), x, s, ac)
  }

  function HH(a: word, b: word, c: word, d: word, x: word, s: amount, ac: word): word {
    Mixed(a, b, H(b as bv32, c as bv32, d as bv32), x, s, ac)
  }

  function II(a: word, b: word, c: word, d: word, x: word, s: amount, ac: word): word {
    Mixed(a, b, I(b as bv32, c as bv32, d as bv32), x, s, ac)
  }

  /** The constants of section 3.4: the integer part of 2^32 times abs(sin(i + 1)). */
  function T(i: operation): word {
    if i < 16 then T1(i) else if i < 32 then T2(i - 16) else if i < 48 then T3(i - 32) else T4(i - 48)
  }

  function T1(i: inRound): word {
    match i
    case 0 => 0xd76aa478
    case 1 => 0xe8c7b756
    case 2 => 0x242070db
    case 3 => 0xc1bdceee
    case 4 => 0xf57c0faf
    case 5 => 0x4787c62a
    case 6 => 0xa8304613
    case 7 => 0xfd469501
    case 8 => 0x698098d8
    case 9 => 0x8b44f7af
    case 10 => 0xffff5bb1
    case 11 => 0x895cd7be
    case 12 => 0x6b901122
    case 13 => 0xfd987193
    case 14 => 0xa679438e
    case _ => 0x49b40821
  }

  function T2(i: inRound): word {
    match i
    case 0 => 0xf61e2562
    case 1 => 0xc040b340
    case 2 => 0x265e5a51
    case 3 => 0xe9b6c7aa
    case 4 => 0xd62f105d
    case 5 => 0x02441453
    case 6 => 0xd8a1e681
    case 7 => 0xe7d3fbc8
    case 8 => 0x21e1cde6
    case 9 => 0xc33707d6
    case 10 => 0xf4d50d87
    case 11 => 0x455a14ed
    case 12 => 0xa9e3e905
    case 13 => 0xfcefa3f8
    case 14 => 0x676f02d9
    case _ => 0x8d2a4c8a
  }

  function T3(i: inRound): word {
    match i
    case 0 => 0xfffa3942
    case 1 => 0x8771f681
    case 2 => 0x6d9d6122
    case 3 => 0xfde5380c
    case 4 => 0xa4beea44
    case 5 => 0x4bdecfa9
    case 6 => 0xf6bb4b60
    case 7 => 0xbebfbc70
    case 8 => 0x289b7ec6
    case 9 => 0xeaa127fa
    case 10 => 0xd4ef3085
    case 11 => 0x04881d05
    case 12 => 0xd9d4d039
    case 13 => 0xe6db99e5
    case 14 => 0x1fa27cf8
    case _ => 0xc4ac5665
  }

  function T4(i: inRound): word {
    match i
    case 0 => 0xf4292244
    case 1 => 0x432aff97
    case 2 => 0xab9423a7
    case 3 => 0xfc93a039
    case 4 => 0x655b59c3
    case 5 => 0x8f0ccc92
    case 6 => 0xffeff47d
    case 7 => 0x85845dd1
    case 8 => 0x6fa87e4f
    case 9 => 0xfe2ce6e0
    case 10 => 0xa3014314
    case 11 => 0x4e0811a1
    case 12 => 0xf7537e82
    case 13 => 0xbd3af235
    case 14 => 0x2ad7d2bb
    case _ => 0xeb86d391
  }

  function Shift(i: operation): amount {
    match (i / 16, i % 4)
    case (0, 0) => 7
    case (0, 1) => 12
    case (0, 2) => 17
    case (0, _) => 22
    case (1, 0) => 5
    case (1, 1) => 9
    case (1, 2) => 14
    case (1, _) => 20
    case (2, 0) => 4
    case (2, 1) => 11
    case (2, 2) => 16
    case (2, _) => 23
    case (_, 0) => 6
    case (_, 1) => 10
    case (_, 2) => 15
    case (_, _) => 21
  }

  /** The i-th of the 64 operations. The register written becomes the new `b`;
      the others move one place on. */
  function Step(s: State, x: seq<word>, i: nat): State
    requires |x| == 16 && i < 64
  {
    var written :=
      if i < 16 then FF(s.a, s.b, s.c, s.d, x[i], Shift(i), T(i))
      else if i < 32 then GG(s.a, s.b, s.c, s.d, x[(5 * i + 1) % 16], Shift(i), T(i))
      else if i < 48 then HH(s.a, s.b, s.c, s.d, x[(3 * i + 5) % 16], Shift(i), T(i))
      else II(s.a, s.b, s.c, s.d, x[7 * i % 16], Shift(i), T(i));
    State(s.d, written, s.b, s.c)
  }

  /** Operations i, i + 1, ..., i + n - 1. */
  function Steps(s: State, x: seq<word>, i: nat, n: nat): State
    requires |x| == 16 && i + n <= 64
  {
    if n == 0 then s else Step(Steps(s, x, i, n - 1), x, i + n - 1)
  }

  function Add(x: word, y: word): word {
    (x + y) % 0x1_0000_0000
  }

  /** The sixteen words of a block, least significant byte first. */
  function WordAt(block: seq<byte>, i: nat): word
    requires 4 * i + 4 <= |block|
  {
    block[4 * i] as int + block[4 * i + 1] as int * 0x100 +
    block[4 * i + 2] as int * 0x1_0000 + block[4 * i + 3] as int * 0x100_0000
  }

  function Words(block: seq<byte>): (x: seq<word>)
    requires |block| == 64
    ensures |x| == 16
  {
    seq(16, i requires 0 <= i < 16 => WordAt(block, i))
  }

  function Transform(s: State, block: seq<byte>): State
    requires |block| == 64
  {
    var t := Steps(s, Words(block), 0, 64);
    State(Add(s.a, t.a), Add(s.b, t.b), Add(s.c, t.c), Add(s.d, t.d))
  }

  /** The blocks of `data`, one after the other. */
  function Fold(s: State, data: seq<byte>): State
    requires |data| % 64 == 0
  {
    if data == [] then s
    else Transform(Fold(s, data[..|data| - 64]), data[|data| - 64..])
  }

  // ---------- sections 3.1, 3.2 and 3.5: padding, length, output ----------

  function Zeros(n: nat): (z: seq<byte>)
    ensures |z| == n && forall i :: 0 <= i < n ==> z[i] == 0
  {
    seq(n, _ => 0)
  }

  /** The four bytes of a word, least significant first. */
  function WordBytes(w: word): (b: seq<byte>)
    ensures |b| == 4
  {
    [w % 0x100, w / 0x100 % 0x100, w / 0x1_0000 % 0x100, w / 0x100_0000]
  }

  function WordsBytes(ws: seq<word>): (b: seq<byte>)
    ensures |b| == 4 * |ws|
  {
    if ws == [] then [] else WordsBytes(ws[..|ws| - 1]) + WordBytes(ws[|ws| - 1])
  }

  /** The length of the message in bits, modulo 2^64, low-order word first. */
  function LengthBytes(message: seq<byte>): (b: seq<byte>)
    ensures |b| == 8
  {
    var bits := 8 * |message| % 0x1_0000_0000_0000_0000;
    WordBytes(bits % 0x1_0000_0000) + WordBytes(bits / 0x1_0000_0000)
  }

  /** How many padding bytes bring the length to 56 modulo 64; at least one. */
  function PadLength(n: nat): (p: nat)
    ensures 1 <= p <= 64 && (n + p + 8) % 64 == 0
  {
    if n % 64 < 56 then 56 - n % 64 else 120 - n % 64
  }

  function Padding(n: nat): (p: seq<byte>)
    requires n > 0
    ensures |p| == n
  {
    [0x80] + Zeros(n - 1)
  }

  function Padded(message: seq<byte>): (p: seq<byte>)
    ensures |p| % 64 == 0
  {
    assert |LengthBytes(message)| == 8;
    message + Padding(PadLength(|message|)) + LengthBytes(message)
  }

  function StateBytes(s: State): (b: seq<byte>)
    ensures |b| == 16
  {
    WordBytes(s.a) + WordBytes(s.b) + WordBytes(s.c) + WordBytes(s.d)
  }

  /** The digest of a message. */
  function Md5(message: seq<byte>): seq<byte> {
    StateBytes(Fold(INITIAL, Padded(message)))
  }

  // ---------- what the words are made of ----------

  /** F chooses between y and z by the bits of x, G by those of z; H is the parity, and
      I is y, complemented where z is 0 or x is 1. */
  lemma SelectF(x: bv32, y: bv32, z: bv32)
    ensures x & F(x, y, z) == x & y
    ensures !x & F(x, y, z) == !x & z
    ensures G(x, y, z) == F(z, x, y)
  {
  }

  lemma ParityH(x: bv32, y: bv32, z: bv32)
    ensures H(x, y, z) ^ z == x ^ y
  {
  }

  lemma FlipI(x: bv32, y: bv32, z: bv32)
    ensures !z & I(x, y, z) == !z & !y
    ensures z & I(x, y, z) == z & (x ^ y)
  {
  }

  lemma RotateBy4(x: bv32)
    ensures RotateLeft(x, 4) == x * 0x10 + x / 0x1000_0000
  {
  }

  lemma RotateBy5(x: bv32)
    ensures RotateLeft(x, 5) == x * 0x20 + x / 0x800_0000
  {
  }

  lemma RotateBy6(x: bv32)
    ensures RotateLeft(x, 6) == x * 0x40 + x / 0x400_0000
  {
  }

  lemma RotateBy7(x: bv32)
    ensures RotateLeft(x, 7) == x * 0x80 + x / 0x200_0000
  {
  }

  lemma RotateBy9(x: bv32)
    ensures RotateLeft(x, 9) == x * 0x200 + x / 0x80_0000
  {
  }

  lemma RotateBy10(x: bv32)
    ensures RotateLeft(x, 10) == x * 0x400 + x / 0x40_0000
  {
  }

  lemma RotateBy11(x: bv32)
    ensures RotateLeft(x, 11) == x * 0x800 + x / 0x20_0000
  {
  }

  lemma RotateBy12(x: bv32)
    ensures RotateLeft(x, 12) == x * 0x1000 + x / 0x10_0000
  {
  }

  lemma RotateBy14(x: bv32)
    ensures RotateLeft(x, 14) == x * 0x4000 + x / 0x4_0000
  {
  }

  lemma RotateBy15(x: bv32)
    ensures RotateLeft(x, 15) == x * 0x8000 + x / 0x2_0000
  {
  }

  lemma RotateBy16(x: bv32)
    ensures RotateLeft(x, 16) == x * 0x1_0000 + x / 0x1_0000
  {
  }

  lemma RotateBy17(x: bv32)
    ensures RotateLeft(x, 17) == x * 0x2_0000 + x / 0x8000
  {
  }

  lemma RotateBy20(x: bv32)
    ensures RotateLeft(x, 20) == x * 0x10_0000 + x / 0x1000
  {
  }

  lemma RotateBy21(x: bv32)
    ensures RotateLeft(x, 21) == x * 0x20_0000 + x / 0x800
  {
  }

  lemma RotateBy22(x: bv32)
    ensures RotateLeft(x, 22) == x * 0x40_0000 + x / 0x400
  {
  }

  lemma RotateBy23(x: bv32)
    ensures RotateLeft(x, 23) == x * 0x80_0000 + x / 0x200
  {
  }

  /** Rotation by s: modulo 2^32, x times 2^s plus x divided by 2^(32 - s), for the
      amounts of the four rounds. */
  lemma Rotations(x: bv32)
    ensures RotateLeft(x, 7) == x * 0x80 + x / 0x200_0000
    ensures RotateLeft(x, 12) == x * 0x1000 + x / 0x10_0000
    ensures RotateLeft(x, 17) == x * 0x2_0000 + x / 0x8000
    ensures RotateLeft(x, 22) == x * 0x40_0000 + x / 0x400
    ensures RotateLeft(x, 5) == x * 0x20 + x / 0x800_0000
    ensures RotateLeft(x, 9) == x * 0x200 + x / 0x80_0000
    ensures RotateLeft(x, 14) == x * 0x4000 + x / 0x4_0000
    ensures RotateLeft(x, 20) == x * 0x10_0000 + x / 0x1000
    ensures RotateLeft(x, 4) == x * 0x10 + x / 0x1000_0000
    ensures RotateLeft(x, 11) == x * 0x800 + x / 0x20_0000
    ensures RotateLeft(x, 16) == x * 0x1_0000 + x / 0x1_0000
    ensures RotateLeft(x, 23) == x * 0x80_0000 + x / 0x200
    ensures RotateLeft(x, 6) == x * 0x40 + x / 0x400_0000
    ensures RotateLeft(x, 10) == x * 0x400 + x / 0x40_0000
    ensures RotateLeft(x, 15) == x * 0x8000 + x / 0x2_0000
    ensures RotateLeft(x, 21) == x * 0x20_0000 + x / 0x800
  {
    hide RotateLeft;
    RotateBy7(x);
    RotateBy12(x);
    RotateBy17(x);
    RotateBy22(x);
    RotateBy5(x);
    RotateBy9(x);
    RotateBy14(x);
    RotateBy20(x);
    RotateBy4(x);
    RotateBy11(x);
    RotateBy16(x);
    RotateBy23(x);
    RotateBy6(x);
    RotateBy10(x);
    RotateBy15(x);
    RotateBy21(x);
  }

  /** A word is read from its own bytes, the least significant first. */
  lemma WordBytesRead(w: word)
    ensures WordAt(WordBytes(w), 0) == w
    ensures WordBytes(0x0403_0201) == [0x01, 0x02, 0x03, 0x04]
  {
    var q, r := w / 0x100, w / 0x1_0000;
    assert q == 0x100 * (q / 0x100) + q % 0x100 && r == q / 0x100;
    assert r == 0x100 * (r / 0x100) + r % 0x100 && w / 0x100_0000 == r / 0x100;
  }

  // ---------- lemmas ----------

  lemma StepsNone(s: State, x: seq<word>, i: nat)
    requires |x| == 16 && i <= 64
    ensures Steps(s, x, i, 0) == s
  {
  }

  lemma StepsNext(s: State, x: seq<word>, i: nat, n: nat)
    requires |x| == 16 && i + n < 64
    ensures Steps(s, x, i, n + 1) == Step(Steps(s, x, i, n), x, i + n)
  {
  }

  lemma {:induction false} StepsJoin(s: State, x: seq<word>, i: nat, m: nat, n: nat)
    requires |x| == 16 && i + m + n <= 64
    ensures Steps(Steps(s, x, i, m), x, i + m, n) == Steps(s, x, i, m + n)
    decreases n
  {
    hide Step;
    if n > 0 {
      StepsJoin(s, x, i, m, n - 1);
      StepsNext(Steps(s, x, i, m), x, i + m, n - 1);
      StepsNext(s, x, i, m + n - 1);
    }
  }

  /** Folding distributes over concatenation of whole blocks. */
  lemma FoldNext(s: State, done: seq<byte>, block: seq<byte>)
    requires |done| % 64 == 0 && |block| == 64
    ensures |done + block| % 64 == 0
    ensures Fold(s, done + block) == Transform(Fold(s, done), block)
  {
    hide Transform;
    var all := done + block;
    assert all[..|all| - 64] == done && all[|all| - 64..] == block;
  }

  /** Lengths in whole blocks. */
  lemma Blocks(m: nat, n: nat)
    requires m % 64 == 0 && n % 64 == 0 && n > 0
    ensures n >= 64 && (n - 64) % 64 == 0 && (m + n) % 64 == 0 && (m + (n - 64)) % 64 == 0
  {
  }

  lemma FoldJoinNext(s: State, x: seq<byte>, y: seq<byte>, block: seq<byte>)
    requires |x| % 64 == 0 && |y| % 64 == 0 && |block| == 64
    requires (|x| + |y|) % 64 == 0 && Fold(s, x + y) == Fold(Fold(s, x), y)
    ensures |y + block| % 64 == 0 && |x + (y + block)| % 64 == 0
    ensures Fold(s, x + (y + block)) == Fold(Fold(s, x), y + block)
  {
    hide *;
    FoldNext(s, x + y, block);
    FoldNext(Fold(s, x), y, block);
    assert x + (y + block) == (x + y) + block;
  }

  lemma {:induction false} FoldJoin(s: State, x: seq<byte>, y: seq<byte>)
    requires |x| % 64 == 0 && |y| % 64 == 0
    ensures (|x| + |y|) % 64 == 0 && Fold(s, x + y) == Fold(Fold(s, x), y)
    decreases |y|
  {
    hide Transform;
    if y == [] {
      assert x + y == x;
    } else {
      hide Fold;
      Blocks(|x|, |y|);
      var n := |y| - 64;
      FoldJoin(s, x, y[..n]);
      FoldJoinNext(s, x, y[..n], y[n..]);
      assert y[..n] + y[n..] == y;
    }
  }

  lemma FoldOne(s: State, block: seq<byte>)
    requires |block| == 64
    ensures Fold(s, block) == Transform(s, block)
  {
    hide Transform;
    assert block[..0] == [] && block[0..] == block;
  }
}
