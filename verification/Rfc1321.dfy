/**
  The digest defined by RFC 1321, sections 3.1 to 3.5: over bits, with the 64 in-place operations
  written out as the RFC lists them.
 */
module Rfc1321 {

  type Word = bv32

  datatype Registers = Registers(a: Word, b: Word, c: Word, d: Word)

  // ----- section 2: bits, bytes and words -----

  /** The bits of a byte, the high-order bit first. */
  function BitsOfByte(b: bv8): seq<bool> {
    [b & 0x80 != 0, b & 0x40 != 0, b & 0x20 != 0, b & 0x10 != 0, b & 8 != 0, b & 4 != 0, b & 2 != 0, b & 1 != 0]
  }

  function Bit(on: bool, weight: bv8): bv8 { if on then weight else 0 }

  function ByteOfBits(s: seq<bool>): bv8
    requires |s| == 8
  {
    Bit(s[0], 0x80) | Bit(s[1], 0x40) | Bit(s[2], 0x20) | Bit(s[3], 0x10)
    | Bit(s[4], 8) | Bit(s[5], 4) | Bit(s[6], 2) | Bit(s[7], 1)
  }

  function Bits(bytes: seq<bv8>): seq<bool> {
    seq(8 * |bytes|, j requires 0 <= j < 8 * |bytes| => BitsOfByte(bytes[j / 8])[j % 8])
  }

  function Bytes(bits: seq<bool>): seq<bv8> {
    seq(|bits| / 8, i requires 0 <= i < |bits| / 8 => ByteOfBits(bits[8 * i..8 * i + 8]))
  }

  /** Four bytes as a word, the low-order byte first. */
  function WordOfBytes(b0: bv8, b1: bv8, b2: bv8, b3: bv8): Word {
    (b0 as Word) | ((b1 as Word) << 8) | ((b2 as Word) << 16) | ((b3 as Word) << 24)
  }

  function Words(bytes: seq<bv8>): seq<Word> {
    seq(|bytes| / 4, i requires 0 <= i < |bytes| / 4 =>
      WordOfBytes(bytes[4 * i], bytes[4 * i + 1], bytes[4 * i + 2], bytes[4 * i + 3]))
  }

  // ----- sections 3.1 and 3.2: padding and length -----

  /** The number of zero bits that bring the length, with the one bit, to 448 modulo 512. */
  function ZeroBits(length: nat): nat { (447 - length) % 512 }

  function PaddedBits(message: seq<bool>): seq<bool> {
    message + [true] + seq(ZeroBits(|message|), _ => false)
  }

  function LowWord(length: bv64): Word { (length & 0xffff_ffff) as Word }

  function HighWord(length: bv64): Word { (length >> 32) as Word }

  function LengthWords(length: bv64): seq<Word> { [LowWord(length), HighWord(length)] }

  /** The message words: the padded bits, then the length in bits as two words, low-order word first. */
  function MessageWords(message: seq<bool>, length: bv64): seq<Word> {
    Words(Bytes(PaddedBits(message))) + LengthWords(length)
  }

  // ----- section 3.3: the initial registers -----

  const INITIAL := Registers(0x67452301, 0xefcdab89, 0x98badcfe, 0x10325476)

  // ----- section 3.4: processing in 16-word blocks -----

  function F(x: Word, y: Word, z: Word): Word { (x & y) | (!x & z) }

  function G(x: Word, y: Word, z: Word): Word { (x & z) | (y & !z) }

  function H(x: Word, y: Word, z: Word): Word { x ^ y ^ z }

  function I(x: Word, y: Word, z: Word): Word { y ^ (x | !z) }

  /** Addition of words, modulo 2^32. */
  function Plus(x: Word, y: Word): Word { x + y }

  function Total(w: Word, x: Word, y: Word, z: Word): Word { w + x + y + z }

  type WordIndex = k: nat | k < 16

  type Shift = s: bv6 | s < 32

  type TableIndex = i: nat | 1 <= i <= 64 witness 1

  function RotateLeft(x: Word, s: Shift): Word { (x << s) | (x >> (32 - s)) }

  /** The 64-element table constructed from the sine function, T[1] to T[64]. */
  const T: seq<Word> := [
    0xd76aa478, 0xe8c7b756, 0x242070db, 0xc1bdceee, 0xf57c0faf, 0x4787c62a, 0xa8304613, 0xfd469501,
    0x698098d8, 0x8b44f7af, 0xffff5bb1, 0x895cd7be, 0x6b901122, 0xfd987193, 0xa679438e, 0x49b40821,
    0xf61e2562, 0xc040b340, 0x265e5a51, 0xe9b6c7aa, 0xd62f105d, 0x02441453, 0xd8a1e681, 0xe7d3fbc8,
    0x21e1cde6, 0xc33707d6, 0xf4d50d87, 0x455a14ed, 0xa9e3e905, 0xfcefa3f8, 0x676f02d9, 0x8d2a4c8a,
    0xfffa3942, 0x8771f681, 0x6d9d6122, 0xfde5380c, 0xa4beea44, 0x4bdecfa9, 0xf6bb4b60, 0xbebfbc70,
    0x289b7ec6, 0xeaa127fa, 0xd4ef3085, 0x04881d05, 0xd9d4d039, 0xe6db99e5, 0x1fa27cf8, 0xc4ac5665,
    0xf4292244, 0x432aff97, 0xab9423a7, 0xfc93a039, 0x655b59c3, 0x8f0ccc92, 0xffeff47d, 0x85845dd1,
    0x6fa87e4f, 0xfe2ce6e0, 0xa3014314, 0x4e0811a1, 0xf7537e82, 0xbd3af235, 0x2ad7d2bb, 0xeb86d391
  ]

  /** The order in which an operation takes the registers: it updates the first of them. */
  datatype Order = ABCD | DABC | CDAB | BCDA

  /** One operation [abcd k s i] */
  datatype Op = Op(order: Order, k: WordIndex, s: Shift, i: TableIndex)

  const ROUND_1: seq<Op> := [
    Op(ABCD, 0, 7, 1), Op(DABC, 1, 12, 2), Op(CDAB, 2, 17, 3), Op(BCDA, 3, 22, 4),
    Op(ABCD, 4, 7, 5), Op(DABC, 5, 12, 6), Op(CDAB, 6, 17, 7), Op(BCDA, 7, 22, 8),
    Op(ABCD, 8, 7, 9), Op(DABC, 9, 12, 10), Op(CDAB, 10, 17, 11), Op(BCDA, 11, 22, 12),
    Op(ABCD, 12, 7, 13), Op(DABC, 13, 12, 14), Op(CDAB, 14, 17, 15), Op(BCDA, 15, 22, 16)
  ]

  const ROUND_2: seq<Op> := [
    Op(ABCD, 1, 5, 17), Op(DABC, 6, 9, 18), Op(CDAB, 11, 14, 19), Op(BCDA, 0, 20, 20),
    Op(ABCD, 5, 5, 21), Op(DABC, 10, 9, 22), Op(CDAB, 15, 14, 23), Op(BCDA, 4, 20, 24),
    Op(ABCD, 9, 5, 25), Op(DABC, 14, 9, 26), Op(CDAB, 3, 14, 27), Op(BCDA, 8, 20, 28),
    Op(ABCD, 13, 5, 29), Op(DABC, 2, 9, 30), Op(CDAB, 7, 14, 31), Op(BCDA, 12, 20, 32)
  ]

  const ROUND_3: seq<Op> := [
    Op(ABCD, 5, 4, 33), Op(DABC, 8, 11, 34), Op(CDAB, 11, 16, 35), Op(BCDA, 14, 23, 36),
    Op(ABCD, 1, 4, 37), Op(DABC, 4, 11, 38), Op(CDAB, 7, 16, 39), Op(BCDA, 10, 23, 40),
    Op(ABCD, 13, 4, 41), Op(DABC, 0, 11, 42), Op(CDAB, 3, 16, 43), Op(BCDA, 6, 23, 44),
    Op(ABCD, 9, 4, 45), Op(DABC, 12, 11, 46), Op(CDAB, 15, 16, 47), Op(BCDA, 2, 23, 48)
  ]

  const ROUND_4: seq<Op> := [
    Op(ABCD, 0, 6, 49), Op(DABC, 7, 10, 50), Op(CDAB, 14, 15, 51), Op(BCDA, 5, 21, 52),
    Op(ABCD, 12, 6, 53), Op(DABC, 3, 10, 54), Op(CDAB, 10, 15, 55), Op(BCDA, 1, 21, 56),
    Op(ABCD, 8, 6, 57), Op(DABC, 15, 10, 58), Op(CDAB, 6, 15, 59), Op(BCDA, 13, 21, 60),
    Op(ABCD, 4, 6, 61), Op(DABC, 11, 10, 62), Op(CDAB, 2, 15, 63), Op(BCDA, 9, 21, 64)
  ]

  function Operation(n: nat): Op
    requires n < 64
  {
    if n < 16 then ROUND_1[n]
    else if n < 32 then ROUND_2[n - 16]
    else if n < 48 then ROUND_3[n - 32]
    else ROUND_4[n - 48]
  }

  function Auxiliary(n: nat, x: Word, y: Word, z: Word): Word {
    if n < 16 then F(x, y, z) else if n < 32 then G(x, y, z) else if n < 48 then H(x, y, z) else I(x, y, z)
  }

  /** The registers in the order in which an operation takes them. */
  function Arguments(order: Order, r: Registers): Registers {
    match order
    case ABCD => r
    case DABC => Registers(r.d, r.a, r.b, r.c)
    case CDAB => Registers(r.c, r.d, r.a, r.b)
    case BCDA => Registers(r.b, r.c, r.d, r.a)
  }

  /** Assignment to the first of the registers, in that order. */
  function Store(order: Order, r: Registers, w: Word): Registers {
    match order
    case ABCD => r.(a := w)
    case DABC => r.(d := w)
    case CDAB => r.(c := w)
    case BCDA => r.(b := w)
  }

  /** The value assigned: b + ((a + f(b,c,d) + X[k] + T[i]) <<< s) */
  function Assigned(s: Shift, f: Word, xk: Word, ti: Word, v: Registers): Word {
    Plus(v.b, RotateLeft(Total(v.a, f, xk, ti), s))
  }

  /** The `n`-th operation (from 0), in place. */
  function Perform(n: nat, x: seq<Word>, r: Registers): Registers
    requires n < 64 && |x| == 16
  {
    var op := Operation(n);
    var v := Arguments(op.order, r);
    Store(op.order, r, Assigned(op.s, Auxiliary(n, v.b, v.c, v.d), x[op.k], T[op.i - 1], v))
  }

  /** The registers after the first `n` operations. */
  function Operations(n: nat, x: seq<Word>, r: Registers): Registers
    requires n <= 64 && |x| == 16
  {
    if n == 0 then r else Perform(n - 1, x, Operations(n - 1, x, r))
  }

  function Sum(r: Registers, s: Registers): Registers {
    Registers(Plus(r.a, s.a), Plus(r.b, s.b), Plus(r.c, s.c), Plus(r.d, s.d))
  }

  /** One block: all operations, then the addition of the registers as they were before. */
  function Block(x: seq<Word>, r: Registers): Registers
    requires |x| == 16
  {
    Sum(r, Operations(|T|, x, r))
  }

  /** The registers after the first `n` blocks. */
  function Blocks(n: nat, m: seq<Word>): Registers
    requires 16 * n <= |m|
  {
    if n == 0 then INITIAL else Block(m[16 * (n - 1)..16 * n], Blocks(n - 1, m))
  }

  // ----- section 3.5: output -----

  /** A word as four bytes, the low-order byte first. */
  function BytesOfWord(w: Word): seq<bv8> {
    [(w & 0xff) as bv8, ((w >> 8) & 0xff) as bv8, ((w >> 16) & 0xff) as bv8, ((w >> 24) & 0xff) as bv8]
  }

  function Output(r: Registers): seq<bv8> {
    BytesOfWord(r.a) + BytesOfWord(r.b) + BytesOfWord(r.c) + BytesOfWord(r.d)
  }

  function AllBlocks(m: seq<Word>): seq<bv8> { Output(Blocks(|m| / 16, m)) }

  /** The message digest of a byte string, a message of eight bits per byte. */
  function Digest(data: seq<bv8>): seq<bv8>
    requires 8 * |data| < 0x1_0000_0000_0000_0000
  {
    AllBlocks(MessageWords(Bits(data), (8 * |data|) as bv64))
  }

  // ----- what the word operations mean -----

  /** The rotations of round 1: what is pushed out at the top comes in at the bottom. */
  lemma {:induction false} RotatedInRound1(x: Word)
    ensures RotateLeft(x, 7) == (x << 7) | (x >> 25)
    ensures RotateLeft(x, 12) == (x << 12) | (x >> 20)
    ensures RotateLeft(x, 17) == (x << 17) | (x >> 15)
    ensures RotateLeft(x, 22) == (x << 22) | (x >> 10)
  {}

  /** The rotations of round 2: what is pushed out at the top comes in at the bottom. */
  lemma {:induction false} RotatedInRound2(x: Word)
    ensures RotateLeft(x, 5) == (x << 5) | (x >> 27)
    ensures RotateLeft(x, 9) == (x << 9) | (x >> 23)
    ensures RotateLeft(x, 14) == (x << 14) | (x >> 18)
    ensures RotateLeft(x, 20) == (x << 20) | (x >> 12)
  {}

  /** The rotations of round 3: what is pushed out at the top comes in at the bottom. */
  lemma {:induction false} RotatedInRound3(x: Word)
    ensures RotateLeft(x, 4) == (x << 4) | (x >> 28)
    ensures RotateLeft(x, 11) == (x << 11) | (x >> 21)
    ensures RotateLeft(x, 16) == (x << 16) | (x >> 16)
    ensures RotateLeft(x, 23) == (x << 23) | (x >> 9)
  {}

  /** The rotations of round 4: what is pushed out at the top comes in at the bottom. */
  lemma {:induction false} RotatedInRound4(x: Word)
    ensures RotateLeft(x, 6) == (x << 6) | (x >> 26)
    ensures RotateLeft(x, 10) == (x << 10) | (x >> 22)
    ensures RotateLeft(x, 15) == (x << 15) | (x >> 17)
    ensures RotateLeft(x, 21) == (x << 21) | (x >> 11)
  {}

  /** The four bytes of a word read back as the word. */
  lemma {:induction false} WordReadsBack(w: Word)
    ensures |BytesOfWord(w)| == 4
    ensures WordOfBytes(BytesOfWord(w)[0], BytesOfWord(w)[1], BytesOfWord(w)[2], BytesOfWord(w)[3]) == w
  {}

  /** The sixteen bytes of the output read back as the four registers, in order. */
  lemma {:induction false} OutputReadsBack(r: Registers)
    ensures Words(Output(r)) == [r.a, r.b, r.c, r.d]
  {
    WordReadsBack(r.a);
    WordReadsBack(r.b);
    WordReadsBack(r.c);
    WordReadsBack(r.d);
  }
}
