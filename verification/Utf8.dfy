/**
 * The UTF-8 encoder and decoder of packages_12.09/libs/libiconv/src/iconv.c (lines 132-245),
 * and RFC 3629's claim that they are inverse to each other.
 */
module Utf8 {
  type Octet = bv8

  type Wchar = bv32

  // The leading byte of a 2-, 3- or 4-byte sequence, and the continuation bytes for bits 0, 6 and 12 up.
  function Lead2(c: Wchar): Octet { (((c >> 6) & 0x1F) | 0xC0) as Octet }

  function Lead3(c: Wchar): Octet { (((c >> 12) & 0x0F) | 0xE0) as Octet }

  function Lead4(c: Wchar): Octet { (((c >> 18) & 0x07) | 0xF0) as Octet }

  function Tail0(c: Wchar): Octet { ((c & 0x3F) | 0x80) as Octet }

  function Tail6(c: Wchar): Octet { (((c >> 6) & 0x3F) | 0x80) as Octet }

  function Tail12(c: Wchar): Octet { (((c >> 12) & 0x3F) | 0x80) as Octet }

  /** utf8enc_wchar: the bytes it writes. */
  function Encode(c: Wchar): (s: seq<Octet>)
    ensures 1 <= |s| <= 4
  {
    if c <= 0x7F then [c as Octet]
    else if c <= 0x7FF then [Lead2(c), Tail0(c)]
    else if c <= 0xFFFF then [Lead3(c), Tail6(c), Tail0(c)]
    else if c <= 0x10FFFF then [Lead4(c), Tail12(c), Tail6(c), Tail0(c)]
    else ['?' as int as Octet]
  }

  /** The result of looking at the front of the input. */
  datatype Decoded = Char(c: Wchar, length: nat) | Illegal | Starved

  /** The length a leading byte announces, or -1. */
  function SequenceLength(b: Octet): int
  {
    if b & 0xE0 == 0xC0 then 2
    else if b & 0xF0 == 0xE0 then 3
    else if b & 0xF8 == 0xF0 then 4
    else if b & 0xFC == 0xF8 then 5
    else if b & 0xFE == 0xFC then 6
    else -1
  }

  /** A byte that can begin nothing. */
  predicate IsStray(b: Octet) { b > 0x7F && SequenceLength(b) == -1 }

  predicate IsOverlong(s: seq<Octet>, n: int)
    requires n <= |s|
  {
    if n == 2 then (s[0] >> 1) == 0x60 && (s[1] >> 6) == 0x02
    else if n == 3 then s[0] == 0xE0 && (s[1] >> 5) == 0x04 && (s[2] >> 6) == 0x02
    else if n == 4 then s[0] == 0xF0 && (s[1] >> 4) == 0x08 && (s[2] >> 6) == 0x02 && (s[3] >> 6) == 0x02
    else false
  }

  predicate IsSurrogateSequence(s: seq<Octet>, n: int)
    requires n <= |s|
  {
    n == 3 && s[0] == 0xED && s[1] >= 0xA0 && s[1] <= 0xBF
  }

  predicate IsIllegalSequence(s: seq<Octet>, n: int)
    requires n <= |s|
  {
    n == 3 && s[0] == 0xEF && s[1] == 0xBF && s[2] >= 0xBE && s[2] <= 0xBF
  }

  /** Shift the payload of one continuation byte into c. */
  function Push(c: Wchar, b: Octet): Wchar { (c << 6) | (b & 0x3F) as Wchar }

  predicate IsTail(b: Octet) { 0x80 <= b <= 0xBF }

  /** The continuation bytes from position i on, shifted into c; Illegal at the first that is none. */
  function Continue(c: Wchar, s: seq<Octet>, i: nat, n: nat): Decoded
    requires i <= n <= |s|
    decreases n - i
  {
    if i == n then Char(c, n)
    else if !IsTail(s[i]) then Illegal
    else Continue(Push(c, s[i]), s, i + 1, n)
  }

  /** The payload bits of a leading byte of an n-byte sequence. */
  function LeadBits(b: Octet, n: int): Wchar
    requires 1 < n < 5
  {
    (b & (if n == 2 then 0x7F >> 2 else if n == 3 then 0x7F >> 3 else 0x7F >> 4)) as Wchar
  }

  /**
   * utf8dec_wchar.  The comparison with the space left is unsigned, so a byte that announces no length
   * counts as starved.
   */
  function Decode(s: seq<Octet>): (d: Decoded)
    requires s != []
    ensures d.Char? ==> 0 < d.length <= |s|
  {
    if s[0] <= 0x7F then Char(s[0] as Wchar, 1)
    else
      var n := SequenceLength(s[0]);
      if n == -1 || n > |s| then Starved
      else if 1 < n < 5 then
        if IsOverlong(s, n) || IsSurrogateSequence(s, n) || IsIllegalSequence(s, n) then Illegal
        else ContinueLength(LeadBits(s[0], n), s, 1, n); Continue(LeadBits(s[0], n), s, 1, n)
      else Illegal
  }

  lemma {:induction false} ContinueLength(c: Wchar, s: seq<Octet>, i: nat, n: nat)
    requires i <= n <= |s|
    ensures Continue(c, s, i, n).Char? ==> Continue(c, s, i, n).length == n
    ensures !Continue(c, s, i, n).Starved?
    decreases n - i
  {
    if i == n || !IsTail(s[i]) {
    } else {
      ContinueLength(Push(c, s[i]), s, i + 1, n);
    }
  }

  /** utf8dec_wchar with its loop. */
  method DecodeWchar(s: seq<Octet>) returns (d: Decoded)
    requires s != []
    ensures d == Decode(s)
  {
    if s[0] <= 0x7F {
      return Char(s[0] as Wchar, 1);
    }
    var n := SequenceLength(s[0]);
    if n == -1 || n > |s| {
      return Starved;
    }
    if 1 < n < 5 {
      if IsOverlong(s, n) || IsSurrogateSequence(s, n) || IsIllegalSequence(s, n) {
        return Illegal;
      }
      var c := LeadBits(s[0], n);
      var i := 1;
      while i < n
        invariant 1 <= i <= n
        invariant Continue(c, s, i, n) == Continue(LeadBits(s[0], n), s, 1, n)
      {
        if s[i] < 0x80 || s[i] > 0xBF {
          return Illegal;
        }
        c := (c << 6) | (s[i] & 0x3F) as Wchar;
        i := i + 1;
      }
      return Char(c, n);
    }
    return Illegal;
  }

  // ------------------------------------------------------------------
  // The reference
  // ------------------------------------------------------------------

  /** A Unicode scalar value. */
  predicate IsScalar(c: Wchar)
  {
    c < 0xD800 || 0xE000 <= c <= 0x10FFFF
  }

  /** The characters the decoder accepts: all scalar values but U+FFFE and U+FFFF. */
  predicate IsAccepted(c: Wchar)
  {
    IsScalar(c) && c != 0xFFFE && c != 0xFFFF
  }

  // ------------------------------------------------------------------
  // Sequences of one length, bit by bit
  // ------------------------------------------------------------------

  /** The first n bytes are none of the sequences that the decoder looks for and rejects. */
  predicate Legal(s: seq<Octet>, n: int)
    requires n <= |s|
  {
    !IsOverlong(s, n) && !IsSurrogateSequence(s, n) && !IsIllegalSequence(s, n)
  }

  lemma LeadIsLead(c: Wchar)
    ensures Lead2(c) > 0x7F && SequenceLength(Lead2(c)) == 2
    ensures Lead3(c) > 0x7F && SequenceLength(Lead3(c)) == 3
    ensures Lead4(c) > 0x7F && SequenceLength(Lead4(c)) == 4
  {
  }

  lemma TailIsTail(c: Wchar)
    ensures IsTail(Tail0(c)) && IsTail(Tail6(c)) && IsTail(Tail12(c))
  {
  }

  lemma Legal2(c: Wchar, s: seq<Octet>)
    requires 0x7F < c <= 0x7FF && |s| >= 2 && s[0] == Lead2(c)
    ensures Legal(s, 2)
  {
  }

  lemma Legal3(c: Wchar, s: seq<Octet>)
    requires 0x7FF < c <= 0xFFFF && IsAccepted(c) && |s| >= 3
    requires s[0] == Lead3(c) && s[1] == Tail6(c) && s[2] == Tail0(c)
    ensures Legal(s, 3)
  {
  }

  lemma Legal4(c: Wchar, s: seq<Octet>)
    requires 0xFFFF < c <= 0x10FFFF && |s| >= 4 && s[0] == Lead4(c) && s[1] == Tail12(c)
    ensures Legal(s, 4)
  {
  }

  lemma Push2(c: Wchar)
    requires c <= 0x7FF
    ensures Push(LeadBits(Lead2(c), 2), Tail0(c)) == c
  {
  }

  lemma Push3(c: Wchar)
    requires c <= 0xFFFF
    ensures Push(Push(LeadBits(Lead3(c), 3), Tail6(c)), Tail0(c)) == c
  {
  }

  lemma Push4(c: Wchar)
    requires c <= 0x10FFFF
    ensures Push(Push(Push(LeadBits(Lead4(c), 4), Tail12(c)), Tail6(c)), Tail0(c)) == c
  {
  }

  lemma Unpush2(b0: Octet, b1: Octet)
    requires SequenceLength(b0) == 2 && IsTail(b1)
    ensures
      var c := Push(LeadBits(b0, 2), b1);
      b0 == Lead2(c) && b1 == Tail0(c) && c <= 0x7FF
  {
  }

  lemma Unpush3(b0: Octet, b1: Octet, b2: Octet)
    requires SequenceLength(b0) == 3 && IsTail(b1) && IsTail(b2)
    ensures
      var c := Push(Push(LeadBits(b0, 3), b1), b2);
      b0 == Lead3(c) && b1 == Tail6(c) && b2 == Tail0(c) && c <= 0xFFFF
  {
  }

  lemma Unpush4(b0: Octet, b1: Octet, b2: Octet, b3: Octet)
    requires SequenceLength(b0) == 4 && IsTail(b1) && IsTail(b2) && IsTail(b3)
    ensures
      var c := Push(Push(Push(LeadBits(b0, 4), b1), b2), b3);
      b0 == Lead4(c) && b1 == Tail12(c) && b2 == Tail6(c) && b3 == Tail0(c)
  {
  }

  /** A character below the range of its sequence is overlong; the other rejections are by value. */
  lemma Illegal2(c: Wchar, s: seq<Octet>)
    requires c <= 0x7FF && |s| >= 2 && s[0] == Lead2(c) && s[1] == Tail0(c) && Legal(s, 2)
    ensures c > 0x7F
  {
  }

  lemma Illegal3(c: Wchar, s: seq<Octet>)
    requires c <= 0xFFFF && |s| >= 3 && s[0] == Lead3(c) && s[1] == Tail6(c) && s[2] == Tail0(c) && Legal(s, 3)
    ensures c > 0x7FF && IsAccepted(c)
  {
  }

  lemma Illegal4(c: Wchar, s: seq<Octet>)
    requires c <= 0x10FFFF && |s| >= 4
    requires s[0] == Lead4(c) && s[1] == Tail12(c) && s[2] == Tail6(c) && s[3] == Tail0(c) && Legal(s, 4)
    ensures c > 0xFFFF
  {
  }

  // ------------------------------------------------------------------
  // Encoding and decoding are inverse
  // ------------------------------------------------------------------

  lemma DecodeMulti(s: seq<Octet>, n: nat)
    requires 1 < n < 5 && n <= |s| && s[0] > 0x7F && SequenceLength(s[0]) == n
    ensures Decode(s) == if Legal(s, n) then Continue(LeadBits(s[0], n), s, 1, n) else Illegal
  {
    hide Continue, LeadBits, IsOverlong, IsSurrogateSequence, IsIllegalSequence, SequenceLength;
  }

  lemma ContinueAll(c: Wchar, s: seq<Octet>, n: nat)
    requires 1 < n < 5 && n <= |s|
    requires forall i :: 1 <= i < n ==> IsTail(s[i])
    ensures n == 2 ==> Continue(c, s, 1, n) == Char(Push(c, s[1]), 2)
    ensures n == 3 ==> Continue(c, s, 1, n) == Char(Push(Push(c, s[1]), s[2]), 3)
    ensures n == 4 ==> Continue(c, s, 1, n) == Char(Push(Push(Push(c, s[1]), s[2]), s[3]), 4)
  {
    hide Push, IsTail;
    if n == 3 {
      assert Continue(Push(c, s[1]), s, 2, n) == Continue(Push(Push(c, s[1]), s[2]), s, 3, n);
    } else if n == 4 {
      assert Continue(Push(c, s[1]), s, 2, n) == Continue(Push(Push(c, s[1]), s[2]), s, 3, n);
      assert Continue(Push(Push(c, s[1]), s[2]), s, 3, n) == Continue(Push(Push(Push(c, s[1]), s[2]), s[3]), s, 4, n);
    }
  }

  lemma {:induction false} ContinueTails(c: Wchar, s: seq<Octet>, i: nat, n: nat)
    requires i <= n <= |s| && Continue(c, s, i, n).Char?
    ensures forall k :: i <= k < n ==> IsTail(s[k])
    decreases n - i
  {
    hide IsTail, Push;
    if i == n {
    } else {
      ContinueTails(Push(c, s[i]), s, i + 1, n);
    }
  }

  lemma RoundTrip1(c: Wchar, s: seq<Octet>)
    requires c <= 0x7F && s != [] && s[0] == c as Octet
    ensures Decode(s) == Char(c, 1)
  {
  }

  lemma RoundTrip2(c: Wchar, s: seq<Octet>)
    requires 0x7F < c <= 0x7FF && |s| >= 2 && s[0] == Lead2(c) && s[1] == Tail0(c)
    ensures Decode(s) == Char(c, 2)
  {
    hide Decode, Encode, LeadBits, SequenceLength, Legal, Continue, Push, IsTail;
    hide Lead2, Lead3, Lead4, Tail0, Tail6, Tail12;
    LeadIsLead(c);
    TailIsTail(c);
    Legal2(c, s);
    DecodeMulti(s, 2);
    ContinueAll(LeadBits(s[0], 2), s, 2);
    Push2(c);
  }

  lemma RoundTrip3(c: Wchar, s: seq<Octet>)
    requires 0x7FF < c <= 0xFFFF && IsAccepted(c) && |s| >= 3
    requires s[0] == Lead3(c) && s[1] == Tail6(c) && s[2] == Tail0(c)
    ensures Decode(s) == Char(c, 3)
  {
    hide Decode, Encode, LeadBits, SequenceLength, Legal, Continue, Push, IsTail;
    hide Lead2, Lead3, Lead4, Tail0, Tail6, Tail12;
    LeadIsLead(c);
    TailIsTail(c);
    Legal3(c, s);
    DecodeMulti(s, 3);
    ContinueAll(LeadBits(s[0], 3), s, 3);
    Push3(c);
  }

  lemma RoundTrip4(c: Wchar, s: seq<Octet>)
    requires 0xFFFF < c <= 0x10FFFF && |s| >= 4
    requires s[0] == Lead4(c) && s[1] == Tail12(c) && s[2] == Tail6(c) && s[3] == Tail0(c)
    ensures Decode(s) == Char(c, 4)
  {
    hide Decode, Encode, LeadBits, SequenceLength, Legal, Continue, Push, IsTail;
    hide Lead2, Lead3, Lead4, Tail0, Tail6, Tail12;
    LeadIsLead(c);
    TailIsTail(c);
    Legal4(c, s);
    DecodeMulti(s, 4);
    ContinueAll(LeadBits(s[0], 4), s, 4);
    Push4(c);
  }

  /** Whatever follows it, the encoding of an accepted character decodes to that character and its length. */
  lemma DecodeEncode(c: Wchar, rest: seq<Octet>)
    requires IsAccepted(c)
    ensures Decode(Encode(c) + rest) == Char(c, |Encode(c)|)
  {
    hide Decode, Lead2, Lead3, Lead4, Tail0, Tail6, Tail12;
    var s := Encode(c) + rest;
    if c <= 0x7F {
      RoundTrip1(c, s);
    } else if c <= 0x7FF {
      RoundTrip2(c, s);
    } else if c <= 0xFFFF {
      RoundTrip3(c, s);
    } else {
      RoundTrip4(c, s);
    }
  }

  /** A decoded sequence of n bytes is legal, has its continuation bytes, and decodes to their payload. */
  lemma DecodedMulti(s: seq<Octet>, n: nat)
    requires 1 < n < 5 && n <= |s| && s[0] > 0x7F && SequenceLength(s[0]) == n && Decode(s).Char?
    ensures Legal(s, n) && forall i :: 1 <= i < n ==> IsTail(s[i])
    ensures Decode(s) == Continue(LeadBits(s[0], n), s, 1, n)
  {
    hide Decode, Encode, LeadBits, SequenceLength, Legal, Continue, Push, IsTail;
    hide Lead2, Lead3, Lead4, Tail0, Tail6, Tail12;
    DecodeMulti(s, n);
    ContinueTails(LeadBits(s[0], n), s, 1, n);
  }

  lemma Back2(s: seq<Octet>)
    requires |s| >= 2 && s[0] > 0x7F && SequenceLength(s[0]) == 2 && Decode(s).Char?
    ensures Decode(s).length == 2 && IsAccepted(Decode(s).c) && s[..2] == Encode(Decode(s).c)
  {
    hide Decode, LeadBits, SequenceLength, Legal, Continue, Push, IsTail, Lead2, Lead3, Lead4, Tail0, Tail6, Tail12;
    DecodedMulti(s, 2);
    ContinueAll(LeadBits(s[0], 2), s, 2);
    Unpush2(s[0], s[1]);
    Illegal2(Decode(s).c, s);
  }

  lemma Back3(s: seq<Octet>)
    requires |s| >= 3 && s[0] > 0x7F && SequenceLength(s[0]) == 3 && Decode(s).Char?
    ensures Decode(s).length == 3 && IsAccepted(Decode(s).c) && s[..3] == Encode(Decode(s).c)
  {
    hide Decode, LeadBits, SequenceLength, Legal, Continue, Push, IsTail, Lead2, Lead3, Lead4, Tail0, Tail6, Tail12;
    DecodedMulti(s, 3);
    ContinueAll(LeadBits(s[0], 3), s, 3);
    Unpush3(s[0], s[1], s[2]);
    Illegal3(Decode(s).c, s);
  }

  lemma Back4(s: seq<Octet>)
    requires |s| >= 4 && s[0] > 0x7F && SequenceLength(s[0]) == 4 && Decode(s).Char? && Decode(s).c <= 0x10FFFF
    ensures Decode(s).length == 4 && IsAccepted(Decode(s).c) && s[..4] == Encode(Decode(s).c)
  {
    hide Decode, LeadBits, SequenceLength, Legal, Continue, Push, IsTail, Lead2, Lead3, Lead4, Tail0, Tail6, Tail12;
    DecodedMulti(s, 4);
    ContinueAll(LeadBits(s[0], 4), s, 4);
    Unpush4(s[0], s[1], s[2], s[3]);
    Illegal4(Decode(s).c, s);
  }

  /** What a decoded character says about its first byte. */
  lemma DecodedLength(s: seq<Octet>)
    requires s != [] && Decode(s).Char?
    ensures
      if s[0] <= 0x7F then Decode(s) == Char(s[0] as Wchar, 1)
      else 1 < SequenceLength(s[0]) < 5 && SequenceLength(s[0]) <= |s|
  {
    hide SequenceLength, LeadBits, Continue, IsOverlong, IsSurrogateSequence, IsIllegalSequence;
  }

  /** Every accepted sequence is the encoder's: no overlong forms, no surrogates, no U+FFFE or U+FFFF. */
  lemma EncodeDecode(s: seq<Octet>)
    requires s != [] && Decode(s).Char? && Decode(s).c <= 0x10FFFF
    ensures IsAccepted(Decode(s).c) && s[..Decode(s).length] == Encode(Decode(s).c)
  {
    hide Decode, SequenceLength, Lead2, Lead3, Lead4, Tail0, Tail6, Tail12;
    DecodedLength(s);
    if s[0] <= 0x7F {
      Ascii(s[0]);
      assert s[..1] == [s[0]];
    } else if SequenceLength(s[0]) == 2 {
      Back2(s);
    } else if SequenceLength(s[0]) == 3 {
      Back3(s);
    } else {
      Back4(s);
    }
  }

  lemma Ascii(b: Octet)
    requires b <= 0x7F
    ensures IsAccepted(b as Wchar) && Encode(b as Wchar) == [b]
  {
  }

  /** Exactly the accepted characters survive the round trip: U+FFFE and U+FFFF, though scalar values, do not. */
  lemma RoundTripIff(c: Wchar, rest: seq<Octet>)
    ensures Decode(Encode(c) + rest) == Char(c, |Encode(c)|) <==> IsAccepted(c)
  {
    hide Decode, Lead2, Lead3, Lead4, Tail0, Tail6, Tail12;
    var s := Encode(c) + rest;
    if IsAccepted(c) {
      DecodeEncode(c, rest);
    } else if c > 0x10FFFF {
      RoundTrip1('?' as int as Wchar, s);
    } else if Decode(s) == Char(c, |Encode(c)|) {
      EncodeDecode(s);
    }
  }

  // ------------------------------------------------------------------
  // The value of an encoding
  // ------------------------------------------------------------------

  /** The length that a byte from 0x80 on announces, by ranges. */
  lemma LeadBytes(b: Octet)
    ensures SequenceLength(b) ==
      if 0xC0 <= b <= 0xDF then 2
      else if 0xE0 <= b <= 0xEF then 3
      else if 0xF0 <= b <= 0xF7 then 4
      else if 0xF8 <= b <= 0xFB then 5
      else if 0xFC <= b <= 0xFD then 6
      else -1
  {
  }

  /** Section 3 of RFC 3629: how many bytes there are. */
  lemma EncodedLength(c: Wchar)
    requires c <= 0x10FFFF
    ensures |Encode(c)| == if c < 0x80 then 1 else if c < 0x800 then 2 else if c < 0x1_0000 then 3 else 4
  {
  }

  /** And what they say: the leading byte counts from 0, 0xC0, 0xE0 or 0xF0 on, every other one from 0x80 on. */
  lemma EncodedValue(c: Wchar)
    requires c <= 0x10FFFF
    ensures
      var s := Encode(c);
      && (|s| == 1 ==> c == s[0] as Wchar)
      && (|s| == 2 ==> c == Base64(s[0] as Wchar - 0xC0, s[1]))
      && (|s| == 3 ==> c == Base64(Base64(s[0] as Wchar - 0xE0, s[1]), s[2]))
      && (|s| == 4 ==> c == Base64(Base64(Base64(s[0] as Wchar - 0xF0, s[1]), s[2]), s[3]))
  {
    hide Lead2, Lead3, Lead4, Tail0, Tail6, Tail12;
    Value2(c);
    Value3(c);
    Value4(c);
  }

  function Base64(c: Wchar, b: Octet): Wchar { c * 0x40 + (b as Wchar - 0x80) }

  lemma Value2(c: Wchar)
    ensures c <= 0x7FF ==> c == Base64(Lead2(c) as Wchar - 0xC0, Tail0(c))
  {
  }

  lemma Value3(c: Wchar)
    ensures c <= 0xFFFF ==> c == Base64(Base64(Lead3(c) as Wchar - 0xE0, Tail6(c)), Tail0(c))
  {
  }

  lemma Value4(c: Wchar)
    ensures c <= 0x10FFFF ==> c == Base64(Base64(Base64(Lead4(c) as Wchar - 0xF0, Tail12(c)), Tail6(c)), Tail0(c))
  {
  }

  /** The examples of section 7 of RFC 3629: a NOT IDENTICAL TO sign, a Greek and a Korean letter, a Han character. */
  lemma EncodedExamples()
    ensures Encode(0x2262) == [0xE2, 0x89, 0xA2] && Encode(0x0391) == [0xCE, 0x91]
    ensures Encode(0xD55C) == [0xED, 0x95, 0x9C] && Encode(0x233B4) == [0xF0, 0xA3, 0x8E, 0xB4]
  {
  }
}
