/** The hand-written MD5 of src/ja3.rs, proved to compute the digest of RFC 1321. */
module Md5 {
  import opened Rfc1321

  /** The shift table, operation by operation. */
  const S: seq<Shift> :=
    [7, 12, 17, 22, 7, 12, 17, 22, 7, 12, 17, 22, 7, 12, 17, 22] +
    [5, 9, 14, 20, 5, 9, 14, 20, 5, 9, 14, 20, 5, 9, 14, 20] +
    [4, 11, 16, 23, 4, 11, 16, 23, 4, 11, 16, 23, 4, 11, 16, 23] +
    [6, 10, 15, 21, 6, 10, 15, 21, 6, 10, 15, 21, 6, 10, 15, 21]

  /** The table of constants. */
  const K: seq<Word> := [
    0xd76aa478, 0xe8c7b756, 0x242070db, 0xc1bdceee, 0xf57c0faf, 0x4787c62a, 0xa8304613, 0xfd469501,
    0x698098d8, 0x8b44f7af, 0xffff5bb1, 0x895cd7be, 0x6b901122, 0xfd987193, 0xa679438e, 0x49b40821,
    0xf61e2562, 0xc040b340, 0x265e5a51, 0xe9b6c7aa, 0xd62f105d, 0x02441453, 0xd8a1e681, 0xe7d3fbc8,
    0x21e1cde6, 0xc33707d6, 0xf4d50d87, 0x455a14ed, 0xa9e3e905, 0xfcefa3f8, 0x676f02d9, 0x8d2a4c8a,
    0xfffa3942, 0x8771f681, 0x6d9d6122, 0xfde5380c, 0xa4beea44, 0x4bdecfa9, 0xf6bb4b60, 0xbebfbc70,
    0x289b7ec6, 0xeaa127fa, 0xd4ef3085, 0x04881d05, 0xd9d4d039, 0xe6db99e5, 0x1fa27cf8, 0xc4ac5665,
    0xf4292244, 0x432aff97, 0xab9423a7, 0xfc93a039, 0x655b59c3, 0x8f0ccc92, 0xffeff47d, 0x85845dd1,
    0x6fa87e4f, 0xfe2ce6e0, 0xa3014314, 0x4e0811a1, 0xf7537e82, 0xbd3af235, 0x2ad7d2bb, 0xeb86d391
  ]

  lemma {:induction false} TablesAgree()
    ensures K == T
  {}

  /** The message word that operation `i` reads, as a formula of `i`. */
  function WordRead(i: nat): nat {
    if i < 16 then i
    else if i < 32 then (5 * i + 1) % 16
    else if i < 48 then (3 * i + 5) % 16
    else (7 * i) % 16
  }

  /** The nonlinear function of step `i`, as the source writes it for its rotating registers. */
  function Mix(i: nat, bb: Word, cc: Word, dd: Word): Word {
    if i < 16 then (bb & cc) | (!bb & dd)
    else if i < 32 then (dd & bb) | (!dd & cc)
    else if i < 48 then bb ^ cc ^ dd
    else cc ^ (bb | !dd)
  }

  function OrderOf(i: nat): Order {
    if i % 4 == 0 then ABCD else if i % 4 == 1 then DABC else if i % 4 == 2 then CDAB else BCDA
  }

  lemma {:induction false} Round1Table(i: nat)
    requires i < 16
    ensures ROUND_1[i] == Op(OrderOf(i), WordRead(i), S[i], i + 1)
  {
    match i
    case 0 => case 1 => case 2 => case 3 => case 4 => case 5 => case 6 => case 7 =>
    case 8 => case 9 => case 10 => case 11 => case 12 => case 13 => case 14 =>
    case _ =>
  }

  lemma {:induction false} Round2Table(i: nat)
    requires 16 <= i < 32
    ensures ROUND_2[i - 16] == Op(OrderOf(i), WordRead(i), S[i], i + 1)
  {
    match i
    case 16 => case 17 => case 18 => case 19 => case 20 => case 21 => case 22 => case 23 =>
    case 24 => case 25 => case 26 => case 27 => case 28 => case 29 => case 30 =>
    case _ =>
  }

  lemma {:induction false} Round3Table(i: nat)
    requires 32 <= i < 48
    ensures ROUND_3[i - 32] == Op(OrderOf(i), WordRead(i), S[i], i + 1)
  {
    match i
    case 32 => case 33 => case 34 => case 35 => case 36 => case 37 => case 38 => case 39 =>
    case 40 => case 41 => case 42 => case 43 => case 44 => case 45 => case 46 =>
    case _ =>
  }

  lemma {:induction false} Round4Table(i: nat)
    requires 48 <= i < 64
    ensures ROUND_4[i - 48] == Op(OrderOf(i), WordRead(i), S[i], i + 1)
  {
    match i
    case 48 => case 49 => case 50 => case 51 => case 52 => case 53 => case 54 => case 55 =>
    case 56 => case 57 => case 58 => case 59 => case 60 => case 61 => case 62 =>
    case _ =>
  }

  /** The formulas and the shift table reproduce the RFC's list of operations. */
  lemma {:induction false} OperationTable(i: nat)
    requires i < 64
    ensures Operation(i) == Op(OrderOf(i), WordRead(i), S[i], i + 1)
  {
    if i < 16 { Round1Table(i); }
    else if i < 32 { Round2Table(i); }
    else if i < 48 { Round3Table(i); }
    else { Round4Table(i); }
  }

  lemma {:induction false} MixIsG(x: Word, y: Word, z: Word)
    ensures (z & x) | (!z & y) == G(x, y, z)
  {}

  lemma {:induction false} MixInRound1(i: nat, x: Word, y: Word, z: Word)
    requires i < 16
    ensures Mix(i, x, y, z) == Auxiliary(i, x, y, z)
  {}

  lemma {:induction false} MixInRound2(i: nat, x: Word, y: Word, z: Word)
    requires 16 <= i < 32
    ensures Mix(i, x, y, z) == Auxiliary(i, x, y, z)
  {
    MixIsG(x, y, z);
  }

  lemma {:induction false} MixInRound3(i: nat, x: Word, y: Word, z: Word)
    requires 32 <= i < 48
    ensures Mix(i, x, y, z) == Auxiliary(i, x, y, z)
  {}

  lemma {:induction false} MixInRound4(i: nat, x: Word, y: Word, z: Word)
    requires 48 <= i
    ensures Mix(i, x, y, z) == Auxiliary(i, x, y, z)
  {}

  lemma {:induction false} MixIsAuxiliary(i: nat, x: Word, y: Word, z: Word)
    ensures Mix(i, x, y, z) == Auxiliary(i, x, y, z)
  {
    if i < 16 { MixInRound1(i, x, y, z); }
    else if i < 32 { MixInRound2(i, x, y, z); }
    else if i < 48 { MixInRound3(i, x, y, z); }
    else { MixInRound4(i, x, y, z); }
  }

  /** How the rotating registers present the RFC's registers before step `i`. */
  function Rotated(i: nat, r: Registers): Registers { Arguments(OrderOf(i), r) }

  /** The new value of `bb`: the source adds the table entry before the message word. */
  function NewBb(s: Shift, f: Word, word: Word, t: Word, v: Registers): Word {
    Plus(v.b, RotateLeft(Total(v.a, f, t, word), s))
  }

  lemma {:induction false} TotalInAnyOrder(w: Word, x: Word, y: Word, z: Word)
    ensures Total(w, x, y, z) == Total(w, x, z, y)
  {}

  lemma {:induction false} NewBbIsAssigned(s: Shift, f: Word, word: Word, t: Word, v: Registers)
    ensures NewBb(s, f, word, t, v) == Assigned(s, f, word, t, v)
  {
    TotalInAnyOrder(v.a, f, t, word);
  }

  function NextOrder(o: Order): Order {
    match o
    case ABCD => DABC
    case DABC => CDAB
    case CDAB => BCDA
    case BCDA => ABCD
  }

  lemma {:induction false} OrdersRotate(i: nat)
    ensures OrderOf(i + 1) == NextOrder(OrderOf(i))
  {}

  lemma {:induction false} RotatingIsStoring(o: Order, r: Registers, w: Word)
    ensures var v := Arguments(o, r); Arguments(NextOrder(o), Store(o, r, w)) == Registers(v.d, w, v.b, v.c)
  {}

  /** One pass of the single rotating loop body does what the RFC's operation does in place. */
  lemma {:induction false} StepRefines(i: nat, m: seq<Word>, r: Registers, v: Registers)
    requires i < 64 && |m| == 16 && v == Rotated(i, r)
    ensures WordRead(i) < 16
    ensures var w := NewBb(S[i], Mix(i, v.b, v.c, v.d), m[WordRead(i)], T[i], v);
            Rotated(i + 1, Perform(i, m, r)) == Registers(v.d, w, v.b, v.c)
  {
    OperationTable(i);
    var f := Mix(i, v.b, v.c, v.d);
    MixIsAuxiliary(i, v.b, v.c, v.d);
    NewBbIsAssigned(S[i], f, m[WordRead(i)], T[i], v);
    OrdersRotate(i);
    RotatingIsStoring(OrderOf(i), r, NewBb(S[i], f, m[WordRead(i)], T[i], v));
  }

  // ----- padding -----

  /** The number of zero bytes that the padding loop appends. */
  function ZeroBytes(n: nat): nat { (55 - n) % 64 }

  function Padded(data: seq<bv8>): seq<bv8> { data + [0x80] + seq(ZeroBytes(|data|), _ => 0) }

  lemma {:induction false} ByteReadsBack(b: bv8)
    ensures ByteOfBits(BitsOfByte(b)) == b
  {}

  lemma {:induction false} ZeroBitsAreBytes(n: nat)
    ensures ZeroBits(8 * n) == 8 * ZeroBytes(n) + 7
  {
    var q, r := (55 - n) / 64, ZeroBytes(n);
    assert 55 - n == 64 * q + r && 447 - 8 * n == 512 * q + (8 * r + 7);
  }

  lemma {:induction false} BitsAt(data: seq<bv8>, i: nat)
    requires i < |data|
    ensures Bits(data)[8 * i..8 * i + 8] == BitsOfByte(data[i])
  {
    forall j | 0 <= j < 8 ensures Bits(data)[8 * i + j] == BitsOfByte(data[i])[j] { BitAt(data, i, j); }
  }

  lemma {:induction false} BitAt(data: seq<bv8>, i: nat, j: nat)
    requires i < |data| && j < 8
    ensures Bits(data)[8 * i + j] == BitsOfByte(data[i])[j]
  {
    assert (8 * i + j) / 8 == i && (8 * i + j) % 8 == j;
  }

  lemma {:induction false} PaddingBits()
    ensures BitsOfByte(0x80) == [true, false, false, false, false, false, false, false]
    ensures BitsOfByte(0) == [false, false, false, false, false, false, false, false]
  {}

  lemma {:induction false} MessageByteBits(data: seq<bv8>, i: nat)
    requires i < |data|
    ensures PaddedBits(Bits(data))[8 * i..8 * i + 8] == BitsOfByte(Padded(data)[i])
  {
    BitsAt(data, i);
    assert PaddedBits(Bits(data))[8 * i..8 * i + 8] == Bits(data)[8 * i..8 * i + 8];
  }

  lemma {:induction false} PaddingByteBits(data: seq<bv8>, i: nat)
    requires |data| <= i < |Padded(data)|
    ensures 8 * i + 8 <= |PaddedBits(Bits(data))|
    ensures PaddedBits(Bits(data))[8 * i..8 * i + 8] == BitsOfByte(Padded(data)[i])
  {
    ZeroBitsAreBytes(|data|);
    PaddingBits();
    var bits, n := PaddedBits(Bits(data)), |Bits(data)|;
    assert forall k :: n < k < |bits| ==> bits[k] == false;
    assert bits[n] == true;
  }

  /** The byte padding of the source is the bit padding of the RFC. */
  lemma {:induction false} PaddingIsPadding(data: seq<bv8>)
    ensures Bytes(PaddedBits(Bits(data))) == Padded(data)
    ensures |Padded(data)| % 64 == 56
  {
    ZeroBitsAreBytes(|data|);
    forall i | 0 <= i < |Padded(data)|
      ensures Bytes(PaddedBits(Bits(data)))[i] == Padded(data)[i]
    {
      PaddedByte(data, i);
    }
    PaddedLength(|data|);
  }

  lemma {:induction false} PaddedByte(data: seq<bv8>, i: nat)
    requires i < |Padded(data)|
    ensures 8 * i + 8 <= |PaddedBits(Bits(data))|
    ensures ByteOfBits(PaddedBits(Bits(data))[8 * i..8 * i + 8]) == Padded(data)[i]
  {
    if i < |data| { MessageByteBits(data, i); } else { PaddingByteBits(data, i); }
    ByteReadsBack(Padded(data)[i]);
  }

  lemma {:induction false} PaddedLength(n: nat)
    ensures (n + 1 + ZeroBytes(n)) % 64 == 56
  {
    var q := (55 - n) / 64;
    assert n + 1 + ZeroBytes(n) == 56 + 64 * (-q);
  }

  /** `u64::to_le_bytes` */
  function LeBytes(x: bv64): seq<bv8> {
    [(x & 0xff) as bv8, ((x >> 8) & 0xff) as bv8, ((x >> 16) & 0xff) as bv8, ((x >> 24) & 0xff) as bv8,
     ((x >> 32) & 0xff) as bv8, ((x >> 40) & 0xff) as bv8, ((x >> 48) & 0xff) as bv8, ((x >> 56) & 0xff) as bv8]
  }

  lemma {:induction false} LeBytesAreWords(x: bv64)
    ensures WordOfBytes(LeBytes(x)[0], LeBytes(x)[1], LeBytes(x)[2], LeBytes(x)[3]) == LowWord(x)
    ensures WordOfBytes(LeBytes(x)[4], LeBytes(x)[5], LeBytes(x)[6], LeBytes(x)[7]) == HighWord(x)
  {}

  lemma {:induction false} WordAt(bytes: seq<bv8>, i: nat)
    requires 4 * i + 4 <= |bytes|
    ensures i < |Words(bytes)|
    ensures Words(bytes)[i] == WordOfBytes(bytes[4 * i], bytes[4 * i + 1], bytes[4 * i + 2], bytes[4 * i + 3])
  {}

  lemma {:induction false} WordsOfPart(bytes: seq<bv8>, lo: nat, n: nat)
    requires 4 * (lo + n) <= |bytes|
    ensures lo + n <= |Words(bytes)| && Words(bytes[4 * lo..4 * (lo + n)]) == Words(bytes)[lo..lo + n]
  {
    var part := bytes[4 * lo..4 * (lo + n)];
    assert |part| == 4 * n;
    forall i | 0 <= i < n ensures Words(part)[i] == Words(bytes)[lo + i] {
      WordOfPart(bytes, lo, n, i);
    }
  }

  lemma {:induction false} WordOfPart(bytes: seq<bv8>, lo: nat, n: nat, i: nat)
    requires 4 * (lo + n) <= |bytes| && i < n
    ensures var part := bytes[4 * lo..4 * (lo + n)];
            i < |Words(part)| && lo + i < |Words(bytes)| && Words(part)[i] == Words(bytes)[lo + i]
  {
    WordAt(bytes[4 * lo..4 * (lo + n)], i);
    WordAt(bytes, lo + i);
  }

  lemma {:induction false} WordsAppend(p: seq<bv8>, l: seq<bv8>)
    requires |p| % 4 == 0
    ensures Words(p + l) == Words(p) + Words(l)
  {
    var k := |p| / 4;
    forall i | 0 <= i < |Words(p + l)| ensures Words(p + l)[i] == (Words(p) + Words(l))[i] {
      WordAt(p + l, i);
      if i < k { WordAt(p, i); } else { WordAt(l, i - k); }
    }
  }

  lemma {:induction false} LeBytesAreLength(x: bv64)
    ensures Words(LeBytes(x)) == LengthWords(x)
  {
    LeBytesAreWords(x);
    WordAt(LeBytes(x), 0);
    WordAt(LeBytes(x), 1);
    assert |Words(LeBytes(x))| == 2;
  }

  /** The bytes that the source processes are the words that the RFC processes. */
  lemma {:induction false} MessageIsPadded(data: seq<bv8>, length: bv64)
    ensures Words(Padded(data) + LeBytes(length)) == MessageWords(Bits(data), length)
  {
    PaddingIsPadding(data);
    LeBytesAreLength(length);
    WholeBlocks(|Padded(data)|);
    WordsAppend(Padded(data), LeBytes(length));
  }

  lemma {:induction false} WholeBlocks(n: nat)
    requires n % 64 == 56
    ensures (n + 8) % 64 == 0 && n % 4 == 0
  {
    var q := n / 64;
    assert n + 8 == 64 * (q + 1) && n == 4 * (16 * q + 14);
  }

  // ----- the algorithm -----

  /** The padding loop, and the length in bits. */
  method Pad(data: seq<bv8>) returns (padded: seq<bv8>)
    requires 8 * |data| < 0x1_0000_0000_0000_0000
    ensures padded == Padded(data) + LeBytes((8 * |data|) as bv64)
  {
    var bitLen := (8 * |data|) as bv64;
    padded := data;
    padded := padded + [0x80];
    ghost var zeros: nat := 0;
    while |padded| % 64 != 56
      invariant zeros <= ZeroBytes(|data|) && padded == data + [0x80] + seq(zeros, _ => 0)
      decreases ZeroBytes(|data|) - zeros
    {
      PaddedLength(|data|);
      padded := padded + [0];
      zeros := zeros + 1;
    }
    FirstStop(|data|, zeros);
    padded := padded + LeBytes(bitLen);
  }

  lemma {:induction false} FirstStop(n: nat, zeros: nat)
    requires zeros <= ZeroBytes(n) && (n + 1 + zeros) % 64 == 56
    ensures zeros == ZeroBytes(n)
  {
    PaddedLength(n);
    var p, q := (n + 1 + zeros) / 64, (n + 1 + ZeroBytes(n)) / 64;
    assert ZeroBytes(n) - zeros == 64 * (q - p);
  }

  lemma {:induction false} RotatedFully(i: nat, r: Registers)
    requires i % 4 == 0
    ensures Rotated(i, r) == r
  {}

  /**
    The body of the step loop: whichever registers `r` the rotating ones present, they now present those after
    operation `i`.
   */
  method Step(i: nat, m: seq<Word>, a: Word, b: Word, c: Word, d: Word, ghost r: Registers)
    returns (aa: Word, bb: Word, cc: Word, dd: Word)
    requires i < 64 && |m| == 16 && Registers(a, b, c, d) == Rotated(i, r)
    ensures Registers(aa, bb, cc, dd) == Rotated(i + 1, Perform(i, m, r))
  {
    StepRefines(i, m, r, Registers(a, b, c, d));
    var f, g := Mix(i, b, c, d), WordRead(i);
    var temp := d;
    dd := c;
    cc := b;
    TablesAgree();
    bb := NewBb(S[i], f, m[g], K[i], Registers(a, b, c, d));
    aa := temp;
  }

  lemma {:induction false} OneMoreOperation(i: nat, m: seq<Word>, r: Registers)
    requires i < 64 && |m| == 16
    ensures Operations(i + 1, m, r) == Perform(i, m, Operations(i, m, r))
  {}

  /** The 64 steps on rotating registers. */
  method Steps(m: seq<Word>, a: Word, b: Word, c: Word, d: Word) returns (aa: Word, bb: Word, cc: Word, dd: Word)
    requires |m| == 16
    ensures Registers(aa, bb, cc, dd) == Operations(|T|, m, Registers(a, b, c, d))
  {
    aa, bb, cc, dd := a, b, c, d;
    ghost var before := Registers(a, b, c, d);
    ghost var r := before;
    TablesAgree();
    for i := 0 to |K|
      invariant r == Operations(i, m, before)
      invariant Registers(aa, bb, cc, dd) == Rotated(i, r)
    {
      OneMoreOperation(i, m, before);
      aa, bb, cc, dd := Step(i, m, aa, bb, cc, dd, r);
      r := Perform(i, m, r);
    }
    RotatedFully(|T|, r);
  }

  method DecodeBlock(chunk: seq<bv8>) returns (m: seq<Word>)
    requires |chunk| == 64
    ensures m == Words(chunk)
  {
    m := [];
    for i := 0 to 16
      invariant m == Words(chunk)[..i]
    {
      var start := 4 * i;
      WordAt(chunk, i);
      m := m + [WordOfBytes(chunk[start], chunk[start + 1], chunk[start + 2], chunk[start + 3])];
    }
  }

  method ProcessBlock(chunk: seq<bv8>, a: Word, b: Word, c: Word, d: Word)
    returns (a': Word, b': Word, c': Word, d': Word)
    requires |chunk| == 64
    ensures Registers(a', b', c', d') == Block(Words(chunk), Registers(a, b, c, d))
  {
    var m := DecodeBlock(chunk);
    var aa, bb, cc, dd := Steps(m, a, b, c, d);
    a' := Plus(a, aa);
    b' := Plus(b, bb);
    c' := Plus(c, cc);
    d' := Plus(d, dd);
  }

  lemma {:induction false} OneMoreBlock(n: nat, m: seq<Word>, bytes: seq<bv8>, r: Registers) returns (next: Registers)
    requires 64 * (n + 1) <= |bytes| && m == Words(bytes)
    requires 16 * n <= |m| && r == Blocks(n, m)
    ensures |m| >= 16 * (n + 1) && next == Block(Words(bytes[64 * n..64 * n + 64]), r) == Blocks(n + 1, m)
  {
    WordsOfPart(bytes, 16 * n, 16);
    next := Block(Words(bytes[64 * n..64 * n + 64]), r);
  }

  lemma {:induction false} WordsInBlocks(n: nat)
    ensures (n / 4) / 16 == n / 64
  {}

  lemma {:induction false} BlockWithin(n: nat, length: nat)
    requires n < length / 64
    ensures 64 * (n + 1) <= length
  {}

  /** The block loop. */
  method ProcessAll(padded: seq<bv8>) returns (out: seq<bv8>)
    requires |padded| % 64 == 0
    ensures out == AllBlocks(Words(padded))
  {
    var a: Word, b: Word, c: Word, d: Word := 0x67452301, 0xefcdab89, 0x98badcfe, 0x10325476;
    ghost var m := Words(padded);
    ghost var r := Blocks(0, m);
    for n := 0 to |padded| / 64
      invariant 16 * n <= |m| && r == Blocks(n, m) && Registers(a, b, c, d) == r
    {
      BlockWithin(n, |padded|);
      var chunk := padded[64 * n..64 * n + 64];
      a, b, c, d := ProcessBlock(chunk, a, b, c, d);
      r := OneMoreBlock(n, m, padded, r);
    }
    WordsInBlocks(|padded|);
    out := Output(Registers(a, b, c, d));
  }

  /** For every byte string whose length in bits fits 64 bits, the digest of RFC 1321. */
  method Md5(data: seq<bv8>) returns (out: seq<bv8>)
    requires 8 * |data| < 0x1_0000_0000_0000_0000
    ensures out == Digest(data)
  {
    var padded := Pad(data);
    MessageIsPadded(data, (8 * |data|) as bv64);
    PaddedLength(|data|);
    WholeBlocks(|Padded(data)|);
    out := ProcessAll(padded);
  }
}
