/**
 * The streaming MD5 of package/luci-0.11/contrib/lar/md5.c: a state object that is fed a
 * message in pieces of any size.  Every method is proved against the one-shot digest of
 * module Rfc1321.
 */
module Md5 {
  import opened Rfc1321
  import opened Md5Rounds

  const INT_MAX: int := 0x7FFF_FFFF

  /** md5_word_t, for the two halves of the bit counter. */
  type Uint32 = x: int | 0 <= x < TWO_TO_32

  /** The C expression (md5_byte_t)(x >> (8 * k)). */
  function ByteAt(x: nat, k: nat): Byte
  {
    ShiftRight8(x, k) % 256
  }

  /** The bytes that md5_append takes: none when nbytes is not positive. */
  function Taken(data: seq<Byte>, nbytes: int): seq<Byte>
    requires nbytes <= |data|
  {
    if nbytes <= 0 then [] else data[..nbytes]
  }

  /** What the two counter words hold after n message bytes. */
  ghost predicate CountsBits(lo: Uint32, hi: Uint32, n: nat)
  {
    lo + TWO_TO_32 * hi == 8 * n % TWO_TO_64
  }

  /** t is what remains of m after its last full block. */
  ghost predicate IsTail(m: seq<Byte>, t: seq<Byte>)
  {
    |t| == |m| % 64 && m[|m| - |t|..] == t
  }

  class State {
    const count: array<Uint32>
    const abcd: array<Word>
    const buf: array<Byte>
    /** Every byte appended so far. */
    ghost var msg: seq<Byte>

    ghost function Registers(): Regs
      requires abcd.Length == 4
      reads abcd
    {
      Regs(abcd[0], abcd[1], abcd[2], abcd[3])
    }

    /** The registers hold the full blocks of msg, the buffer its tail, the counter its length. */
    ghost predicate Valid()
      reads this, count, abcd, buf
    {
      && count.Length == 2 && abcd.Length == 4 && buf.Length == 64
      && CountsBits(count[0], count[1], |msg|)
      && Registers() == Absorb(INIT, msg)
      && IsTail(msg, buf[..|msg| % 64])
    }

    /** md5_init */
    constructor Init()
      ensures Valid() && msg == []
      ensures fresh(count) && fresh(abcd) && fresh(buf)
    {
      count := new Uint32[2](_ => 0);
      abcd := new Word[] [Word(0x67452301), Word(T_MASK ^ 0x10325476), Word(T_MASK ^ 0x67452301), Word(0x10325476)];
      buf := new Byte[64](_ => 0);
      msg := [];
    }

    /** md5_process: one block into the registers. */
    method Process(data: seq<Byte>)
      requires abcd.Length == 4 && |data| == 64
      modifies abcd
      ensures Registers() == BlockUpdate(old(Registers()), data)
    {
      hide Steps, Plus, WordOf;
      var x := new Word[16];
      for i := 0 to 16
        invariant x[..i] == Words(data)[..i]
        invariant Registers() == old(Registers())
      {
        x[i] := WordOf(data[4 * i], data[4 * i + 1], data[4 * i + 2], data[4 * i + 3]);
      }
      var xs := x[..];
      assert xs == Words(data);
      var a, b, c, d := abcd[0], abcd[1], abcd[2], abcd[3];
      a, b, c, d := Round1(a, b, c, d, xs);
      a, b, c, d := Round2(a, b, c, d, xs);
      a, b, c, d := Round3(a, b, c, d, xs);
      a, b, c, d := Round4(a, b, c, d, xs);
      StepsCompose(old(Registers()), xs);
      abcd[0], abcd[1], abcd[2], abcd[3] := Plus(abcd[0], a), Plus(abcd[1], b), Plus(abcd[2], c), Plus(abcd[3], d);
    }

    /** The message-length update inside md5_append, with its manual carry. */
    method AddToCount(nbytes: int)
      requires count.Length == 2 && CountsBits(count[0], count[1], |msg|)
      requires 0 < nbytes <= INT_MAX
      modifies count
      ensures CountsBits(count[0], count[1], |msg| + nbytes)
    {
      hide CountsBits;
      CountAfter(count[0], count[1], |msg|, nbytes);
      var nbits: Uint32 := nbytes * 8 % TWO_TO_32;
      count[1] := (count[1] + nbytes / 0x2000_0000) % TWO_TO_32;
      count[0] := (count[0] + nbits) % TWO_TO_32;
      if count[0] < nbits {
        count[1] := (count[1] + 1) % TWO_TO_32;
      }
    }

    /** The initial partial block inside md5_append: fill up the buffer, process it when full. */
    method TopUp(data: seq<Byte>, nbytes: nat, offset: nat, ghost whole: seq<Byte>) returns (copy: nat)
      requires buf.Length == 64 && abcd.Length == 4
      requires 0 < offset < 64 && nbytes <= |data|
      requires |whole| % 64 == 0 && Registers() == Absorb(INIT, whole)
      modifies buf, abcd
      ensures copy == if offset + nbytes > 64 then 64 - offset else nbytes
      ensures buf[..offset + copy] == old(buf[..offset]) + data[..copy]
      ensures offset + copy < 64 ==> Registers() == Absorb(INIT, whole)
      ensures offset + copy == 64 ==> Registers() == Absorb(INIT, whole + (old(buf[..offset]) + data[..copy]))
    {
      hide BlockUpdate, Absorb;
      copy := if offset + nbytes > 64 then 64 - offset else nbytes;
      ghost var filled := buf[..offset] + data[..copy];
      CopyInto(buf, offset, data[..copy]);
      assert buf[..offset + copy] == filled;
      if offset + copy == 64 {
        AbsorbBlock(INIT, whole, filled);
        assert buf[..] == filled;
        Process(buf[..]);
      }
    }

    /** The loop over full blocks inside md5_append: from position start on, as far as whole blocks go. */
    method ProcessFullBlocks(data: seq<Byte>, start: nat, nbytes: nat, ghost whole: seq<Byte>) returns (p: nat)
      requires abcd.Length == 4 && start <= nbytes <= |data|
      requires |whole| % 64 == 0 && Registers() == Absorb(INIT, whole)
      modifies abcd
      ensures start <= p <= nbytes && nbytes - p < 64
      ensures |whole + data[start..p]| % 64 == 0
      ensures Registers() == Absorb(INIT, whole + data[start..p])
    {
      hide BlockUpdate, Absorb;
      p := start;
      var left := nbytes - start;
      assert whole + data[start..start] == whole;
      while left >= 64
        invariant start <= p && 0 <= left && p + left == nbytes
        invariant |whole + data[start..p]| % 64 == 0
        invariant Registers() == Absorb(INIT, whole + data[start..p])
      {
        AbsorbBlock(INIT, whole + data[start..p], data[p..p + 64]);
        assert data[start..p + 64] == data[start..p] + data[p..p + 64];
        Regroup(whole, data[start..p], data[p..p + 64]);
        Process(data[p..p + 64]);
        p, left := p + 64, left - 64;
      }
    }

    /** md5_append */
    method Append(data: seq<Byte>, nbytes: int)
      requires Valid()
      requires nbytes <= |data|
      requires |msg| % 64 + nbytes <= INT_MAX
      modifies this`msg, count, abcd, buf
      ensures Valid()
      ensures msg == old(msg) + Taken(data, nbytes)
    {
      hide BlockUpdate, Absorb, CountsBits;
      var p := 0;
      var left := nbytes;
      var offset := (count[0] / 8) % 64;
      OffsetIsTail(count[0], count[1], |msg|);

      if nbytes <= 0 {
        assert msg + [] == msg;
        return;
      }

      // The counter first: offset still refers to what came before.
      AddToCount(nbytes);

      ghost var tail := buf[..offset];
      ghost var whole := msg[..|msg| - offset];
      assert msg == whole + tail;
      WholeAndTail(whole, tail);
      assert Registers() == Absorb(INIT, whole);
      msg := msg + data[..nbytes];

      // Bytes are waiting in the buffer: the data must fill it before a block can go.
      if offset != 0 {
        var copy := TopUp(data, nbytes, offset, whole);
        FirstPiece(whole, tail, data, copy, nbytes);
        if offset + copy < 64 {
          WholeAndTail(whole, tail + data[..copy]);
          return;
        }
        whole := whole + (tail + data[..copy]);
        p := p + copy;
        left := left - copy;
      } else {
        FirstPiece(whole, tail, data, 0, nbytes);
      }
      assert msg == whole + data[p..nbytes];

      // From here on whole blocks come straight out of the data.
      ghost var from := p;
      p := ProcessFullBlocks(data, p, nbytes, whole);
      left := nbytes - p;
      NextPiece(whole, data, from, p, nbytes);
      whole := whole + data[from..p];

      // What is left waits at the front of the buffer.
      if left != 0 {
        CopyInto(buf, 0, data[p..nbytes]);
      }
      assert buf[..left] == data[p..nbytes];
      WholeAndTail(whole, data[p..nbytes]);
    }

    /** The first loop of md5_finish: the bit counter as eight bytes. */
    method SaveLength() returns (bytes: seq<Byte>)
      requires count.Length == 2 && CountsBits(count[0], count[1], |msg|)
      ensures bytes == LittleEndian(8 * |msg| % TWO_TO_64, 8)
    {
      hide CountsBits, ByteAt, LittleEndian;
      var data := new Byte[8];
      for i := 0 to 8
        invariant forall k :: 0 <= k < i ==> data[k] == ByteAt(count[k / 4], k % 4)
      {
        data[i] := ByteAt(count[i / 4], i % 4);
      }
      bytes := data[..];
      SavedLength(count[0], count[1], |msg|, bytes);
    }

    /** The last loop of md5_finish: the registers as sixteen bytes. */
    method Output() returns (bytes: seq<Byte>)
      requires abcd.Length == 4
      ensures
        var r := Registers();
        bytes == WordBytes(r.a) + WordBytes(r.b) + WordBytes(r.c) + WordBytes(r.d)
    {
      hide ByteAt, WordBytes;
      var out := new Byte[16];
      for i := 0 to 16
        invariant forall k :: 0 <= k < i ==> out[k] == ByteAt(abcd[k / 4].bits as nat, k % 4)
      {
        out[i] := ByteAt(abcd[i / 4].bits as nat, i % 4);
      }
      bytes := out[..];
      ghost var r := Registers();
      assert forall k :: 0 <= k < 16 ==> abcd[k / 4] == [r.a, r.b, r.c, r.d][k / 4];
      DigestBytes(r, bytes);
    }

    /** md5_finish */
    method Finish() returns (digest: seq<Byte>)
      requires Valid()
      modifies this`msg, count, abcd, buf
      ensures Valid()
      ensures msg == Pad(old(msg))
      ensures digest == Digest(old(msg))
    {
      hide Absorb, CountsBits, ByteAt, WordBytes, Digest, LittleEndian;
      var pad := [0x80] + Zeros(63);

      // The counter is read now, because padding goes through Append too.
      var data := SaveLength();

      // A 0x80 byte and zeros, until eight bytes are missing from a block.
      var padding := (55 - count[0] / 8) % TWO_TO_32 % 64 + 1;
      PaddingFormula(count[0], count[1], |msg|);
      assert pad[..padding] == [0x80] + Zeros(ZeroCount(|msg|));
      Append(pad, padding);
      // Those eight bytes complete the last block.
      PadFillsBlocks(old(msg));
      Append(data, 8);
      assert data[..8] == data;
      assert msg == Pad(old(msg));

      digest := Output();
      DigestIs(old(msg));
    }
  }

  lemma Regroup(a: seq<Byte>, b: seq<Byte>, c: seq<Byte>)
    ensures a + (b + c) == a + b + c
  {
  }

  lemma NextPiece(whole: seq<Byte>, data: seq<Byte>, from: nat, p: nat, n: nat)
    requires from <= p <= n <= |data|
    ensures whole + data[from..n] == whole + data[from..p] + data[p..n]
  {
  }

  lemma FirstPiece(whole: seq<Byte>, tail: seq<Byte>, data: seq<Byte>, copy: nat, n: nat)
    requires copy <= n <= |data|
    ensures whole + tail + data[..n] == whole + (tail + data[..copy]) + data[copy..n]
    ensures copy == n ==> whole + tail + data[..n] == whole + (tail + data[..copy])
    ensures tail == [] && copy == 0 ==> whole + tail + data[..n] == whole + data[0..n]
  {
  }

  /** Whole blocks followed by a shorter tail: what Valid says of their concatenation. */
  lemma WholeAndTail(whole: seq<Byte>, tail: seq<Byte>)
    requires |whole| % 64 == 0 && |tail| < 64
    ensures IsTail(whole + tail, tail)
    ensures Absorb(INIT, whole + tail) == Absorb(INIT, whole)
  {
    hide Absorb;
    AbsorbTail(INIT, whole, tail);
  }

  function Concat(pieces: seq<seq<Byte>>): seq<Byte>
  {
    if pieces == [] then [] else Concat(pieces[..|pieces| - 1]) + pieces[|pieces| - 1]
  }

  /** Digest a file that arrives in reads of at most 1024 bytes: however it is cut up, the digest is its contents'. */
  method FileDigest(pieces: seq<seq<Byte>>) returns (digest: seq<Byte>)
    requires forall i :: 0 <= i < |pieces| ==> 0 < |pieces[i]| <= 1024
    ensures digest == Digest(Concat(pieces))
  {
    hide Digest, Absorb;
    var state := new State.Init();
    for i := 0 to |pieces|
      invariant fresh(state) && fresh(state.count) && fresh(state.abcd) && fresh(state.buf)
      invariant state.Valid() && state.msg == Concat(pieces[..i])
    {
      state.Append(pieces[i], |pieces[i]|);
      assert pieces[..i + 1][..i] == pieces[..i];
      assert pieces[i][..|pieces[i]|] == pieces[i];
    }
    assert pieces[..|pieces|] == pieces;
    digest := state.Finish();
  }

  /** memcpy(dst + at, src, |src|) */
  method CopyInto(dst: array<Byte>, at: nat, src: seq<Byte>)
    requires at + |src| <= dst.Length
    modifies dst
    ensures dst[..] == old(dst[..at]) + src + old(dst[at + |src|..])
  {
    forall i | 0 <= i < |src| {
      dst[at + i] := src[i];
    }
  }

  lemma StepsConcat(r: Regs, x: seq<Word>, i: nat, j: nat, k: nat)
    requires |x| == 16 && i <= j <= k <= 64
    ensures Steps(r, x, i, k) == Steps(Steps(r, x, i, j), x, j, k)
    decreases j - i
  {
    hide Step;
    if i < j {
      StepsConcat(Step(r, x, i), x, i + 1, j, k);
    }
  }

  lemma StepsCompose(r: Regs, x: seq<Word>)
    requires |x| == 16
    ensures Steps(r, x, 0, 64) == Steps(Steps(Steps(Steps(r, x, 0, 16), x, 16, 32), x, 32, 48), x, 48, 64)
  {
    hide Steps;
    var r1 := Steps(r, x, 0, 16);
    var r2 := Steps(r1, x, 16, 32);
    StepsConcat(r, x, 0, 16, 64);
    StepsConcat(r1, x, 16, 32, 64);
    StepsConcat(r2, x, 32, 48, 64);
  }

  /** The buffer offset is read off the low counter word alone. */
  lemma OffsetIsTail(lo: Uint32, hi: Uint32, n: nat)
    requires CountsBits(lo, hi, n)
    ensures lo / 8 % 64 == n % 64
  {
    var q := 8 * n / TWO_TO_64;
    assert 8 * n == TWO_TO_64 * q + lo + TWO_TO_32 * hi;
    SameModulo64(lo / 8, n, 0x80_0000_0000_0000 * q + 0x80_0000 * hi);
  }

  lemma SameModulo64(a: nat, n: nat, k: nat)
    requires n == a + 64 * k
    ensures a % 64 == n % 64
  {
  }

  /** The counter update with its manual carry is addition modulo 2^64. */
  lemma CountAfter(lo: Uint32, hi: Uint32, n: nat, nbytes: nat)
    requires CountsBits(lo, hi, n) && nbytes <= INT_MAX
    ensures
      var nbits := nbytes * 8 % TWO_TO_32;
      var hi1 := (hi + nbytes / 0x2000_0000) % TWO_TO_32;
      var lo' := (lo + nbits) % TWO_TO_32;
      var hi' := if lo' < nbits then (hi1 + 1) % TWO_TO_32 else hi1;
      CountsBits(lo', hi', n + nbytes)
  {
    hide CountsBits;
    var nbits := nbytes * 8 % TWO_TO_32;
    var h := nbytes / 0x2000_0000;
    assert 8 * nbytes == nbits + TWO_TO_32 * h;
    CarryIsExact(lo, hi, n, nbits, h);
  }

  lemma CarryIsExact(lo: Uint32, hi: Uint32, n: nat, nbits: Uint32, h: nat)
    requires CountsBits(lo, hi, n) && h < 4
    requires (nbits + TWO_TO_32 * h) % 8 == 0
    ensures
      var hi1 := (hi + h) % TWO_TO_32;
      var lo' := (lo + nbits) % TWO_TO_32;
      var hi' := if lo' < nbits then (hi1 + 1) % TWO_TO_32 else hi1;
      CountsBits(lo', hi', n + (nbits + TWO_TO_32 * h) / 8)
  {
    Wrap(lo + nbits);
    Wrap(hi + h);
    Wrap((hi + h) % TWO_TO_32 + 1);
    var carry := if lo + nbits >= TWO_TO_32 then 1 else 0;
    var lo' := lo + nbits - TWO_TO_32 * carry;
    var over := if hi + h + carry >= TWO_TO_32 then 1 else 0;
    var hi' := hi + h + carry - TWO_TO_32 * over;
    var q := 8 * n / TWO_TO_64;
    RemainderIs(8 * n + nbits + TWO_TO_32 * h, q + over, lo' + TWO_TO_32 * hi');
  }

  lemma Wrap(x: nat)
    requires x < 2 * TWO_TO_32
    ensures x % TWO_TO_32 == if x < TWO_TO_32 then x else x - TWO_TO_32
  {
  }

  lemma RemainderIs(x: nat, q: nat, r: nat)
    requires x == TWO_TO_64 * q + r && r < TWO_TO_64
    ensures x % TWO_TO_64 == r
  {
  }

  lemma FourBytes()
    ensures Pow256(4) == TWO_TO_32
  {
  }

  /** The eight bytes saved by the loop are the bit length, low-order byte first. */
  lemma SavedLength(lo: Uint32, hi: Uint32, n: nat, data: seq<Byte>)
    requires CountsBits(lo, hi, n) && |data| == 8
    requires forall k :: 0 <= k < 8 ==> data[k] == ByteAt(if k < 4 then lo else hi, k % 4)
    ensures data == LittleEndian(8 * n % TWO_TO_64, 8)
  {
    hide LittleEndian, ShiftRight8;
    forall k | 0 <= k < 8
      ensures data[k] == (LittleEndian(lo, 4) + LittleEndian(hi, 4))[k]
    {
      LittleEndianAt(if k < 4 then lo else hi, 4, k % 4);
    }
    FourBytes();
    LittleEndianSplit(lo, hi, 4, 4);
  }

  /** The wrapped formula for the padding adds the 0x80 byte and the zeros the reference asks for. */
  lemma PaddingFormula(lo: Uint32, hi: Uint32, n: nat)
    requires CountsBits(lo, hi, n)
    ensures (55 - lo / 8) % TWO_TO_32 % 64 == ZeroCount(n)
  {
    OffsetIsTail(lo, hi, n);
  }

  lemma DigestIs(m: seq<Byte>)
    ensures
      var r := Absorb(INIT, Pad(m));
      Digest(m) == WordBytes(r.a) + WordBytes(r.b) + WordBytes(r.c) + WordBytes(r.d)
  {
    hide Absorb, Pad, WordBytes;
  }

  lemma DigestBytes(r: Regs, out: seq<Byte>)
    requires |out| == 16
    requires forall k :: 0 <= k < 16 ==>
      out[k] == ByteAt([r.a, r.b, r.c, r.d][k / 4].bits as nat, k % 4)
    ensures out == WordBytes(r.a) + WordBytes(r.b) + WordBytes(r.c) + WordBytes(r.d)
  {
    hide LittleEndian, ShiftRight8;
    forall k | 0 <= k < 16
      ensures out[k] == (WordBytes(r.a) + WordBytes(r.b) + WordBytes(r.c) + WordBytes(r.d))[k]
    {
      LittleEndianAt([r.a, r.b, r.c, r.d][k / 4].bits as nat, 4, k % 4);
    }
  }
}
