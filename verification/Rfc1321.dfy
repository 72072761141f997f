/**
 * The MD5 message digest as RFC 1321 defines it (sections 3.1 to 3.5): a pure, one-shot
 * function on a byte sequence.  This module is the reference that the streaming
 * implementation in module Md5 is proved against.
 */
module Rfc1321 {

  type Byte = x: int | 0 <= x < 256

  const TWO_TO_32: int := 0x1_0000_0000
  const TWO_TO_64: int := 0x1_0000_0000_0000_0000

  /** A 32-bit word. */
  datatype Word = Word(bits: bv32)

  /** The four chaining registers A, B, C, D. */
  datatype Regs = Regs(a: Word, b: Word, c: Word, d: Word)

  // Section 3.3: the initial register values, low-order bytes first 01 23 45 67 | 89 ab cd ef | ...
  const INIT: Regs := Regs(Word(0x67452301), Word(0xefcdab89), Word(0x98badcfe), Word(0x10325476))

  // ------------------------------------------------------------------
  // Section 3.4: the auxiliary functions and the 64 steps of one block
  // ------------------------------------------------------------------

  function F(x: Word, y: Word, z: Word): Word { Word((x.bits & y.bits) | (!x.bits & z.bits)) }

  function G(x: Word, y: Word, z: Word): Word { Word((x.bits & z.bits) | (y.bits & !z.bits)) }

  function H(x: Word, y: Word, z: Word): Word { Word(x.bits ^ y.bits ^ z.bits) }

  function I(x: Word, y: Word, z: Word): Word { Word(y.bits ^ (x.bits | !z.bits)) }

  /** The auxiliary function of step i: one per round of sixteen steps. */
  function Mix(i: nat, x: Word, y: Word, z: Word): Word
    requires i < 64
  {
    if i < 16 then F(x, y, z)
    else if i < 32 then G(x, y, z)
    else if i < 48 then H(x, y, z)
    else I(x, y, z)
  }

  /** Which of the sixteen words of the block step i adds. */
  function WordIndex(i: nat): (k: nat)
    requires i < 64
    ensures k < 16
  {
    if i < 16 then i
    else if i < 32 then (5 * i + 1) % 16
    else if i < 48 then (3 * i + 5) % 16
    else (7 * i) % 16
  }

  /** How far step i rotates. */
  function Shift(i: nat): (s: bv6)
    requires i < 64
    ensures 0 < s < 32
  {
    var j := i % 4;
    if i < 16 then (if j == 0 then 7 else if j == 1 then 12 else if j == 2 then 17 else 22)
    else if i < 32 then (if j == 0 then 5 else if j == 1 then 9 else if j == 2 then 14 else 20)
    else if i < 48 then (if j == 0 then 4 else if j == 1 then 11 else if j == 2 then 16 else 23)
    else (if j == 0 then 6 else if j == 1 then 10 else if j == 2 then 15 else 21)
  }

  /** The sine table, round by round: T(i) is the integer part of 2^32 * |sin(i + 1)|. */
  function T(i: nat): Word
    requires i < 64
  {
    if i < 16 then T1to16(i)
    else if i < 32 then T17to32(i - 16)
    else if i < 48 then T33to48(i - 32)
    else T49to64(i - 48)
  }

  function T1to16(j: nat): Word
    requires j < 16
  {
    match j
    case 0 => Word(0xd76aa478)
    case 1 => Word(0xe8c7b756)
    case 2 => Word(0x242070db)
    case 3 => Word(0xc1bdceee)
    case 4 => Word(0xf57c0faf)
    case 5 => Word(0x4787c62a)
    case 6 => Word(0xa8304613)
    case 7 => Word(0xfd469501)
    case 8 => Word(0x698098d8)
    case 9 => Word(0x8b44f7af)
    case 10 => Word(0xffff5bb1)
    case 11 => Word(0x895cd7be)
    case 12 => Word(0x6b901122)
    case 13 => Word(0xfd987193)
    case 14 => Word(0xa679438e)
    case _ => Word(0x49b40821)
  }

  function T17to32(j: nat): Word
    requires j < 16
  {
    match j
    case 0 => Word(0xf61e2562)
    case 1 => Word(0xc040b340)
    case 2 => Word(0x265e5a51)
    case 3 => Word(0xe9b6c7aa)
    case 4 => Word(0xd62f105d)
    case 5 => Word(0x02441453)
    case 6 => Word(0xd8a1e681)
    case 7 => Word(0xe7d3fbc8)
    case 8 => Word(0x21e1cde6)
    case 9 => Word(0xc33707d6)
    case 10 => Word(0xf4d50d87)
    case 11 => Word(0x455a14ed)
    case 12 => Word(0xa9e3e905)
    case 13 => Word(0xfcefa3f8)
    case 14 => Word(0x676f02d9)
    case _ => Word(0x8d2a4c8a)
  }

  function T33to48(j: nat): Word
    requires j < 16
  {
    match j
    case 0 => Word(0xfffa3942)
    case 1 => Word(0x8771f681)
    case 2 => Word(0x6d9d6122)
    case 3 => Word(0xfde5380c)
    case 4 => Word(0xa4beea44)
    case 5 => Word(0x4bdecfa9)
    case 6 => Word(0xf6bb4b60)
    case 7 => Word(0xbebfbc70)
    case 8 => Word(0x289b7ec6)
    case 9 => Word(0xeaa127fa)
    case 10 => Word(0xd4ef3085)
    case 11 => Word(0x04881d05)
    case 12 => Word(0xd9d4d039)
    case 13 => Word(0xe6db99e5)
    case 14 => Word(0x1fa27cf8)
    case _ => Word(0xc4ac5665)
  }

  function T49to64(j: nat): Word
    requires j < 16
  {
    match j
    case 0 => Word(0xf4292244)
    case 1 => Word(0x432aff97)
    case 2 => Word(0xab9423a7)
    case 3 => Word(0xfc93a039)
    case 4 => Word(0x655b59c3)
    case 5 => Word(0x8f0ccc92)
    case 6 => Word(0xffeff47d)
    case 7 => Word(0x85845dd1)
    case 8 => Word(0x6fa87e4f)
    case 9 => Word(0xfe2ce6e0)
    case 10 => Word(0xa3014314)
    case 11 => Word(0x4e0811a1)
    case 12 => Word(0xf7537e82)
    case 13 => Word(0xbd3af235)
    case 14 => Word(0x2ad7d2bb)
    case _ => Word(0xeb86d391)
  }

  /** Addition of words, modulo 2^32. */
  function Plus(x: Word, y: Word): Word { Word(x.bits + y.bits) }

  /** Circular left shift by one position, and by n positions. */
  function RotateByOne(x: Word): Word { Word((x.bits << 1) | (x.bits >> 31)) }

  function Rotate(x: Word, n: bv6): Word
    requires n < 32
    decreases n
  {
    if n == 0 then x else RotateByOne(Rotate(x, n - 1))
  }

  /** The operation [abcd k s i]: b + ((a + f + X[k] + T[i]) <<< s), f being the mixed b, c, d. */
  function Operation(a: Word, f: Word, b: Word, xk: Word, s: bv6, ti: Word): Word
    requires s < 32
  {
    Plus(b, Rotate(Plus(Plus(Plus(a, f), xk), ti), s))
  }

  function NewValue(r: Regs, x: seq<Word>, i: nat): Word
    requires |x| == 16 && i < 64
  {
    Operation(r.a, Mix(i, r.b, r.c, r.d), r.b, x[WordIndex(i)], Shift(i), T(i))
  }

  /** One step: the new value lands in A's place and the registers rotate. */
  function Step(r: Regs, x: seq<Word>, i: nat): Regs
    requires |x| == 16 && i < 64
  {
    Regs(r.d, NewValue(r, x, i), r.b, r.c)
  }

  /** Steps i, i+1, ..., j-1. */
  function Steps(r: Regs, x: seq<Word>, i: nat, j: nat): Regs
    requires |x| == 16 && i <= j <= 64
    decreases j - i
  {
    if i == j then r else Steps(Step(r, x, i), x, i + 1, j)
  }

  // ------------------------------------------------------------------
  // Words, blocks and the digest
  // ------------------------------------------------------------------

  function Pow256(k: nat): (p: nat)
    ensures p > 0
  {
    if k == 0 then 1 else 256 * Pow256(k - 1)
  }

  /** The k low-order bytes of n, low-order byte first. */
  function LittleEndian(n: nat, k: nat): (s: seq<Byte>)
    ensures |s| == k
  {
    if k == 0 then [] else [n % 256] + LittleEndian(n / 256, k - 1)
  }

  /** Four bytes as a word, low-order byte first (section 2). */
  function WordOf(b0: Byte, b1: Byte, b2: Byte, b3: Byte): Word
  {
    Word((b0 + b1 * 0x100 + b2 * 0x1_0000 + b3 * 0x100_0000) as bv32)
  }

  function Words(block: seq<Byte>): (x: seq<Word>)
    requires |block| == 64
    ensures |x| == 16
  {
    seq(16, k requires 0 <= k < 16 =>
      WordOf(block[4 * k], block[4 * k + 1], block[4 * k + 2], block[4 * k + 3]))
  }

  /** Section 3.4 for one block: sixty-four steps, then add the registers as they were before. */
  function BlockUpdate(r: Regs, block: seq<Byte>): Regs
    requires |block| == 64
  {
    var s := Steps(r, Words(block), 0, 64);
    Regs(Plus(r.a, s.a), Plus(r.b, s.b), Plus(r.c, s.c), Plus(r.d, s.d))
  }

  /** All full blocks of m, in order; what is left after the last full block is ignored. */
  function Absorb(r: Regs, m: seq<Byte>): Regs
    decreases |m|
  {
    if |m| < 64 then r else Absorb(BlockUpdate(r, m[..64]), m[64..])
  }

  /** Section 3.1: how many zero bytes follow the 0x80 byte. */
  function ZeroCount(n: nat): nat { (119 - n % 64) % 64 }

  function Zeros(k: nat): (s: seq<Byte>)
    ensures |s| == k
  {
    seq(k, _ => 0)
  }

  /** Sections 3.1 and 3.2: one 1 bit, zero bits, and the bit length modulo 2^64. */
  function Pad(m: seq<Byte>): seq<Byte>
  {
    m + [0x80] + Zeros(ZeroCount(|m|)) + LittleEndian(8 * |m| % TWO_TO_64, 8)
  }

  function WordBytes(w: Word): (s: seq<Byte>)
    ensures |s| == 4
  {
    LittleEndian(w.bits as nat, 4)
  }

  /** Section 3.5: the digest of a whole message. */
  function Digest(m: seq<Byte>): (d: seq<Byte>)
    ensures |d| == 16
  {
    var r := Absorb(INIT, Pad(m));
    WordBytes(r.a) + WordBytes(r.b) + WordBytes(r.c) + WordBytes(r.d)
  }

  // ------------------------------------------------------------------
  // Facts about the reference
  // ------------------------------------------------------------------

  /** F selects: bits of y where x has ones, bits of z where it has zeros. */
  lemma FSelects(x: Word, y: Word, z: Word)
    ensures F(x, y, z).bits & x.bits == y.bits & x.bits
    ensures F(x, y, z).bits & !x.bits == z.bits & !x.bits
  {
  }

  /** G selects by z: bits of x where z has ones, bits of y where it has zeros. */
  lemma GSelects(x: Word, y: Word, z: Word)
    ensures G(x, y, z).bits & z.bits == x.bits & z.bits
    ensures G(x, y, z).bits & !z.bits == y.bits & !z.bits
  {
  }

  /** H is x where y and z agree, and its complement where they differ. */
  lemma HIsParity(x: Word, y: Word, z: Word)
    ensures H(x, y, z).bits & !(y.bits ^ z.bits) == x.bits & !(y.bits ^ z.bits)
    ensures H(x, y, z).bits & (y.bits ^ z.bits) == !x.bits & (y.bits ^ z.bits)
  {
  }

  /** I is the parity of x and y where z has ones, and the complement of y where it has zeros. */
  lemma IByCases(x: Word, y: Word, z: Word)
    ensures I(x, y, z).bits & z.bits == (x.bits ^ y.bits) & z.bits
    ensures I(x, y, z).bits & !z.bits == !y.bits & !z.bits
  {
  }

  lemma FourBytesOf(b0: Byte, b1: Byte, b2: Byte, b3: Byte)
    ensures LittleEndian(b0 + b1 * 0x100 + b2 * 0x1_0000 + b3 * 0x100_0000, 4) == [b0, b1, b2, b3]
  {
    var n3: int := b3;
    var n2 := b2 + 0x100 * n3;
    var n1 := b1 + 0x100 * n2;
    FirstByteOf(b3, 0, 0);
    FirstByteOf(b2, n3, 1);
    FirstByteOf(b1, n2, 2);
    FirstByteOf(b0, n1, 3);
  }

  lemma FirstByteOf(b: Byte, n: nat, k: nat)
    ensures LittleEndian(b + 0x100 * n, k + 1) == [b] + LittleEndian(n, k)
  {
  }

  lemma WordIs(b0: Byte, b1: Byte, b2: Byte, b3: Byte, w: Word)
    requires w.bits as int == b0 + b1 * 0x100 + b2 * 0x1_0000 + b3 * 0x100_0000
    ensures WordOf(b0, b1, b2, b3) == w
  {
  }

  /** A word put together from the bytes it is taken apart into is the same word. */
  lemma WordRoundTrip(w: Word)
    ensures
      var b := WordBytes(w);
      WordOf(b[0], b[1], b[2], b[3]) == w
  {
    hide LittleEndian, WordOf;
    var b := WordBytes(w);
    BytesOf(w.bits as nat);
    WordIs(b[0], b[1], b[2], b[3], w);
  }

  lemma BytesOf(n: nat)
    requires n < 0x1_0000_0000
    ensures
      var b := LittleEndian(n, 4);
      var b0: int, b1: int, b2: int, b3: int := b[0], b[1], b[2], b[3];
      b0 + b1 * 0x100 + b2 * 0x1_0000 + b3 * 0x100_0000 == n
  {
    var n1 := n / 0x100;
    var n2 := n1 / 0x100;
    var n3 := n2 / 0x100;
    assert LittleEndian(n, 4) == [n % 0x100] + LittleEndian(n1, 3);
    assert LittleEndian(n1, 3) == [n1 % 0x100] + LittleEndian(n2, 2);
    assert LittleEndian(n2, 2) == [n2 % 0x100] + LittleEndian(n3, 1);
    assert LittleEndian(n3, 1) == [n3 % 0x100] + LittleEndian(0, 0);
  }

  /** Padding adds between 1 and 64 bytes, reaches 56 modulo 64, and leaves no partial block. */
  lemma PadFillsBlocks(m: seq<Byte>)
    ensures 1 <= 1 + ZeroCount(|m|) <= 64
    ensures (|m| + 1 + ZeroCount(|m|)) % 64 == 56
    ensures |Pad(m)| % 64 == 0
  {
    hide LittleEndian, Zeros;
    var q, r := |m| / 64, |m| % 64;
    assert |m| == 64 * q + r;
    assert ZeroCount(|m|) == if r <= 55 then 55 - r else 119 - r;
  }

  /** n shifted right by k bytes. */
  function ShiftRight8(n: nat, k: nat): nat
  {
    if k == 0 then n else ShiftRight8(n / 256, k - 1)
  }

  lemma {:induction false} LittleEndianAt(n: nat, k: nat, i: nat)
    requires i < k
    ensures LittleEndian(n, k)[i] == ShiftRight8(n, i) % 256
  {
    if i == 0 {
    } else {
      LittleEndianAt(n / 256, k - 1, i - 1);
    }
  }

  /** The bytes of a number whose high part is hi and whose j low-order bytes make up lo. */
  lemma {:induction false} LittleEndianSplit(lo: nat, hi: nat, j: nat, k: nat)
    requires lo < Pow256(j)
    ensures LittleEndian(lo + Pow256(j) * hi, j + k) == LittleEndian(lo, j) + LittleEndian(hi, k)
  {
    if j == 0 {
    } else {
      var p := Pow256(j - 1);
      var n := lo + Pow256(j) * hi;
      assert Pow256(j) * hi == 256 * (p * hi) by { assert (256 * p) * hi == 256 * (p * hi); }
      assert n % 256 == lo % 256 && n / 256 == lo / 256 + p * hi;
      LittleEndianSplit(lo / 256, hi, j - 1, k);
    }
  }

  lemma {:induction false} LittleEndianInjective(n: nat, m: nat, k: nat)
    requires n < Pow256(k) && m < Pow256(k)
    requires LittleEndian(n, k) == LittleEndian(m, k)
    ensures n == m
  {
    if k == 0 {
    } else {
      assert LittleEndian(n, k)[0] == n % 256 && LittleEndian(m, k)[0] == m % 256;
      assert LittleEndian(n, k)[1..] == LittleEndian(n / 256, k - 1);
      assert LittleEndian(m, k)[1..] == LittleEndian(m / 256, k - 1);
      LittleEndianInjective(n / 256, m / 256, k - 1);
    }
  }

  lemma EightBytes()
    ensures Pow256(8) == TWO_TO_64
  {
  }

  lemma PadEnds(m: seq<Byte>)
    ensures |Pad(m)| >= |m| + 8
    ensures Pad(m)[..|m|] == m
    ensures Pad(m)[|Pad(m)| - 8..] == LittleEndian(8 * |m| % TWO_TO_64, 8)
  {
    hide LittleEndian, Zeros, ZeroCount;
  }

  /** Messages shorter than 2^61 bytes never share their padded form. */
  lemma PadInjective(m1: seq<Byte>, m2: seq<Byte>)
    requires 8 * |m1| < TWO_TO_64 && 8 * |m2| < TWO_TO_64
    requires Pad(m1) == Pad(m2)
    ensures m1 == m2
  {
    hide LittleEndian, Pow256, Pad;
    PadEnds(m1);
    PadEnds(m2);
    EightBytes();
    LittleEndianInjective(8 * |m1|, 8 * |m2|, 8);
  }

  /** Absorbing p and then q is absorbing p + q, when p ends on a block boundary. */
  lemma {:induction false} AbsorbConcat(r: Regs, p: seq<Byte>, q: seq<Byte>)
    requires |p| % 64 == 0
    ensures Absorb(r, p + q) == Absorb(Absorb(r, p), q)
    decreases |p|
  {
    hide BlockUpdate;
    if p == [] {
      assert p + q == q;
    } else {
      var pq := p + q;
      assert |p| >= 64;
      assert pq[..64] == p[..64];
      assert pq[64..] == p[64..] + q;
      var r1 := BlockUpdate(r, p[..64]);
      AbsorbConcat(r1, p[64..], q);
      assert Absorb(r, pq) == Absorb(r1, pq[64..]);
      assert Absorb(r, p) == Absorb(r1, p[64..]);
    }
  }

  lemma AbsorbBlock(r: Regs, p: seq<Byte>, block: seq<Byte>)
    requires |p| % 64 == 0 && |block| == 64
    ensures Absorb(r, p + block) == BlockUpdate(Absorb(r, p), block)
  {
    hide BlockUpdate;
    AbsorbConcat(r, p, block);
    assert block[..64] == block;
  }

  lemma AbsorbTail(r: Regs, p: seq<Byte>, tail: seq<Byte>)
    requires |p| % 64 == 0 && |tail| < 64
    ensures Absorb(r, p + tail) == Absorb(r, p)
  {
    hide BlockUpdate;
    AbsorbConcat(r, p, tail);
  }
}
