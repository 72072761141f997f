/**
 * The conversion loop of packages_12.09/libs/libiconv/src/iconv.c (lines 101-130, 247-441), for the
 * character sets that are converted by arithmetic, and what a caller may rely on who feeds it input
 * and output space in pieces.
 */
module IconvSpec {
  import opened Utf8

  /** Source and destination character sets; sources of the single-byte kind are ASCII supersets. */
  datatype Charset = UTF_8 | US_ASCII | LATIN_1 | LATIN_9 | TIS_620 | JIS_0201 | UTF_16BE | UTF_16LE

  /** iconv_open: only the first eight charsets and LATIN_9 can be written. */
  predicate IsDestination(to: Charset)
  {
    to != TIS_620 && to != JIS_0201
  }

  function Get16(b0: Octet, b1: Octet, bigEndian: bool): Wchar
  {
    if bigEndian then ((b0 as Wchar) << 8) | b1 as Wchar else ((b1 as Wchar) << 8) | b0 as Wchar
  }

  function Put16(c: Wchar, bigEndian: bool): (s: seq<Octet>)
    ensures |s| == 2
  {
    var hi, lo := ((c >> 8) & 0xFF) as Octet, (c & 0xFF) as Octet;
    if bigEndian then [hi, lo] else [lo, hi]
  }

  /** ISO-8859-15 differs from Latin-1 in eight places. */
  function FromLatin9(b: Octet): Wchar
  {
    match b
    case 0xA4 => 0x20AC
    case 0xA6 => 0x0160
    case 0xA8 => 0x0161
    case 0xB4 => 0x017D
    case 0xB8 => 0x017E
    case 0xBC => 0x0152
    case 0xBD => 0x0153
    case 0xBE => 0x0178
    case _ => b as Wchar
  }

  /** latin9_translit */
  function ToLatin9(c: Wchar): Octet
  {
    match c
    case 0x20AC => 0xA4
    case 0x0160 => 0xA6
    case 0x0161 => 0xA8
    case 0x017D => 0xB4
    case 0x017E => 0xB8
    case 0x0152 => 0xBC
    case 0x0153 => 0xBD
    case 0x0178 => 0xBE
    case _ => '?' as int as Octet
  }

  /** The range check behind the sources that do not jump over it. */
  function Checked(d: Decoded): Decoded
  {
    if d.Char? && (d.c - 0xD800 < 0x800 || d.c >= 0x110000) then Illegal else d
  }

  /** The front of the input as one character: the switch on the source charset. */
  function DecodeOne(from: Charset, s: seq<Octet>): (d: Decoded)
    requires s != []
    ensures d.Char? ==> 0 < d.length <= |s|
  {
    if from.UTF_16BE? || from.UTF_16LE? then Checked(Decode16(from.UTF_16BE?, s))
    else if s[0] < 0x80 then Char(s[0] as Wchar, 1)
    else
      match from
      case UTF_8 => Checked(Decode(s))
      case US_ASCII => Illegal
      case LATIN_1 => Char(s[0] as Wchar, 1)
      case LATIN_9 => Char(FromLatin9(s[0]), 1)
      case TIS_620 => Char(if s[0] >= 0xA1 then s[0] as Wchar + (0x0E01 - 0xA1) else s[0] as Wchar, 1)
      case _ =>
        if s[0] < 0xA1 then Char(s[0] as Wchar, 1)
        else if s[0] <= 0xDF then Char(s[0] as Wchar + (0xFF61 - 0xA1), 1)
        else Illegal
  }

  /**
   * UTF-16: the second unit of a surrogate pair is looked at only if the first one, not the second, lies
   * outside the low surrogates, as the code has it; a high surrogate always does.
   */
  function Decode16(bigEndian: bool, s: seq<Octet>): (d: Decoded)
    requires s != []
    ensures d.Char? ==> 0 < d.length <= |s|
  {
    if |s| < 2 then Starved
    else
      var c := Get16(s[0], s[1], bigEndian);
      if c - 0xDC00 < 0x400 then Illegal
      else if c - 0xD800 < 0x400 then
        if |s| < 4 then Starved else Pair(c, Get16(s[2], s[3], bigEndian))
      else Char(c, 2)
  }

  function Pair(c: Wchar, d: Wchar): Decoded
  {
    if c - 0xDC00 >= 0x400 then Illegal else Char(((c - 0xD800) << 10) | (d - 0xDC00), 4)
  }

  /** One character in the destination charset, and whether it counts as a replacement. */
  datatype Encoded = Encoded(bytes: seq<Octet>, replaced: bool)

  function Single(c: Wchar): Encoded
  {
    if c < 0x100 then Encoded([c as Octet], false) else Encoded(['*' as int as Octet], true)
  }

  function EncodeOne(to: Charset, c: Wchar): (e: Encoded)
    requires IsDestination(to)
    ensures 1 <= |e.bytes| <= 4
  {
    match to
    case UTF_8 => Encoded(Encode(c), false)
    case US_ASCII => Single(if c > 0x7F then 0xFFFD else c)
    case LATIN_9 => Single(if c >= 0x100 && c != 0xFFFD then ToLatin9(c) as Wchar else c)
    case LATIN_1 => Single(c)
    case _ =>
      Encoded(Units(c, to.UTF_16BE?), false)
  }

  /** The UTF-16 units as the code computes them: no 0x10000 is subtracted before the shift. */
  function Units(c: Wchar, bigEndian: bool): (s: seq<Octet>)
    ensures |s| == 2 || |s| == 4
  {
    if c < 0x1_0000 then Put16(c, bigEndian)
    else Put16((c >> 10) | 0xD800, bigEndian) + Put16((c & 0x3FF) | 0xDC00, bigEndian)
  }

  /** How a call ends. */
  datatype Stop = Finished | EILSEQ | EINVAL | E2BIG

  /** What a call does: bytes taken, bytes given, characters replaced, and why it stopped. */
  datatype Outcome = Outcome(consumed: nat, out: seq<Octet>, replaced: nat, stop: Stop)

  /** One call of iconv on the input s with room bytes of output space. */
  function Convert(from: Charset, to: Charset, s: seq<Octet>, room: nat): (r: Outcome)
    requires IsDestination(to)
    ensures r.consumed <= |s| && |r.out| <= room
    decreases |s|
  {
    if s == [] then Outcome(0, [], 0, Finished)
    else
      match DecodeOne(from, s)
      case Illegal => Outcome(0, [], 0, EILSEQ)
      case Starved => Outcome(0, [], 0, EINVAL)
      case Char(c, l) =>
        var e := EncodeOne(to, c);
        if |e.bytes| > room then Outcome(0, [], 0, E2BIG)
        else After(l, e, Convert(from, to, s[l..], room - |e.bytes|))
  }

  /** A character of l bytes converted to e, and then r. */
  function After(l: nat, e: Encoded, r: Outcome): Outcome
  {
    Outcome(l + r.consumed, e.bytes + r.out, (if e.replaced then 1 else 0) + r.replaced, r.stop)
  }

  /** The number that iconv returns: the replacements, or -1 for two of the errors. */
  function ReturnValue(r: Outcome): int
  {
    if r.stop == EILSEQ || r.stop == E2BIG then -1 else r.replaced
  }

  // ------------------------------------------------------------------
  // Calls and sessions
  // ------------------------------------------------------------------

  /** Room that no conversion of s can exhaust. */
  function Ample(s: seq<Octet>): nat { 4 * |s| }

  function Whole(from: Charset, to: Charset, s: seq<Octet>): Outcome
    requires IsDestination(to)
  {
    Convert(from, to, s, Ample(s))
  }

  /** First what a call did, then what r does. */
  function Then(call: Outcome, r: Outcome): Outcome
  {
    Outcome(call.consumed + r.consumed, call.out + r.out, call.replaced + r.replaced, r.stop)
  }

  lemma {:induction false} ContinueStable(c: Wchar, s: seq<Octet>, k: nat, i: nat, n: nat)
    requires i <= n <= k <= |s|
    ensures Continue(c, s[..k], i, n) == Continue(c, s, i, n)
    decreases n - i
  {
    hide Push, IsTail;
    if i == n {
    } else {
      ContinueStable(Push(c, s[i]), s, k, i + 1, n);
    }
  }

  lemma DecodeStable(s: seq<Octet>, k: nat)
    requires 0 < k <= |s|
    ensures !Decode(s[..k]).Starved? ==> Decode(s) == Decode(s[..k])
  {
    hide SequenceLength, LeadBits, Continue;
    var n := SequenceLength(s[0]);
    if 1 < n < 5 && n <= k {
      ContinueStable(LeadBits(s[0], n), s, k, 1, n);
    }
  }

  /** A character that is complete in the input seen so far stays what it is when more input comes. */
  lemma DecodeOneStable(from: Charset, s: seq<Octet>, k: nat)
    requires 0 < k <= |s|
    ensures !DecodeOne(from, s[..k]).Starved? ==> DecodeOne(from, s) == DecodeOne(from, s[..k])
  {
    hide Decode, FromLatin9, Get16, Pair;
    DecodeStable(s, k);
  }

  /** A turn of the loop that converts a character. */
  lemma Turn(from: Charset, to: Charset, s: seq<Octet>, room: nat)
    requires IsDestination(to) && s != [] && DecodeOne(from, s).Char?
    requires |EncodeOne(to, DecodeOne(from, s).c).bytes| <= room
    ensures
      var d := DecodeOne(from, s);
      var e := EncodeOne(to, d.c);
      Convert(from, to, s, room) == After(d.length, e, Convert(from, to, s[d.length..], room - |e.bytes|))
  {
    hide DecodeOne, EncodeOne, After;
  }

  /** A turn that stops for a reason other than room. */
  lemma Halt(from: Charset, to: Charset, s: seq<Octet>, room: nat)
    requires IsDestination(to) && (s != [] ==> !DecodeOne(from, s).Char?)
    ensures Convert(from, to, s, room) ==
      Outcome(0, [], 0, if s == [] then Finished else if DecodeOne(from, s).Illegal? then EILSEQ else EINVAL)
  {
    hide DecodeOne, EncodeOne, After;
  }

  /** With ample room no call stops for lack of it, and more room changes nothing. */
  lemma {:induction false} RoomToSpare(from: Charset, to: Charset, s: seq<Octet>, room: nat)
    requires IsDestination(to) && room >= Ample(s)
    ensures Convert(from, to, s, room) == Whole(from, to, s) && Whole(from, to, s).stop != E2BIG
    decreases |s|
  {
    hide DecodeOne, EncodeOne, Convert;
    if s == [] || !DecodeOne(from, s).Char? {
      Halt(from, to, s, room);
      Halt(from, to, s, Ample(s));
    } else {
      var d := DecodeOne(from, s);
      var n := |EncodeOne(to, d.c).bytes|;
      Turn(from, to, s, room);
      Turn(from, to, s, Ample(s));
      RoomToSpare(from, to, s[d.length..], room - n);
      RoomToSpare(from, to, s[d.length..], Ample(s) - n);
    }
  }

  lemma WholeTurn(from: Charset, to: Charset, s: seq<Octet>)
    requires IsDestination(to) && s != [] && DecodeOne(from, s).Char?
    ensures
      var d := DecodeOne(from, s);
      Whole(from, to, s) == After(d.length, EncodeOne(to, d.c), Whole(from, to, s[d.length..]))
  {
    hide DecodeOne, EncodeOne, Convert;
    var d := DecodeOne(from, s);
    Turn(from, to, s, Ample(s));
    RoomToSpare(from, to, s[d.length..], Ample(s) - |EncodeOne(to, d.c).bytes|);
  }

  /**
   * A call that sees only the first k bytes, with any room, does the beginning of what one call on
   * everything does, and leaves exactly the rest to be done.
   */
  lemma {:induction false} CallIsPrefix(from: Charset, to: Charset, s: seq<Octet>, k: nat, room: nat)
    requires IsDestination(to) && k <= |s|
    ensures
      var call := Convert(from, to, s[..k], room);
      Whole(from, to, s) == Then(call, Whole(from, to, s[call.consumed..]))
    decreases |s|
  {
    hide DecodeOne, EncodeOne, Whole, Convert;
    if k == 0 || !DecodeOne(from, s[..k]).Char? || |EncodeOne(to, DecodeOne(from, s[..k]).c).bytes| > room {
      NothingDone(from, to, s[..k], room);
      assert s[0..] == s;
    } else {
      hide Then, After;
      DecodeOneStable(from, s, k);
      var d := DecodeOne(from, s);
      var l, e := d.length, EncodeOne(to, d.c);
      CallIsPrefix(from, to, s[l..], k - l, room - |e.bytes|);
      PrefixTurn(from, to, s, k, room);
    }
  }

  /** A turn keeps a call the beginning of the whole. */
  lemma PrefixTurn(from: Charset, to: Charset, s: seq<Octet>, k: nat, room: nat)
    requires IsDestination(to) && 0 < k <= |s| && DecodeOne(from, s[..k]).Char?
    requires DecodeOne(from, s) == DecodeOne(from, s[..k])
    requires |EncodeOne(to, DecodeOne(from, s).c).bytes| <= room
    requires
      var l, room1 := DecodeOne(from, s).length, room - |EncodeOne(to, DecodeOne(from, s).c).bytes|;
      var rest := Convert(from, to, s[l..][..k - l], room1);
      Whole(from, to, s[l..]) == Then(rest, Whole(from, to, s[l..][rest.consumed..]))
    ensures
      var call := Convert(from, to, s[..k], room);
      Whole(from, to, s) == Then(call, Whole(from, to, s[call.consumed..]))
  {
    hide DecodeOne, EncodeOne, Whole, Convert, Then;
    var d := DecodeOne(from, s);
    var l, e := d.length, EncodeOne(to, d.c);
    Turn(from, to, s[..k], room);
    WholeTurn(from, to, s);
    assert s[..k][l..] == s[l..][..k - l];
    var rest := Convert(from, to, s[l..][..k - l], room - |e.bytes|);
    assert s[l..][rest.consumed..] == s[l + rest.consumed..];
    AfterThen(l, e, rest, Whole(from, to, s[l + rest.consumed..]));
  }

  lemma NothingDone(from: Charset, to: Charset, s: seq<Octet>, room: nat)
    requires IsDestination(to)
    requires s == [] || !DecodeOne(from, s).Char? || |EncodeOne(to, DecodeOne(from, s).c).bytes| > room
    ensures
      var r := Convert(from, to, s, room);
      r.consumed == 0 && r.out == [] && r.replaced == 0
  {
    hide DecodeOne, EncodeOne;
  }

  lemma AfterThen(l: nat, e: Encoded, call: Outcome, r: Outcome)
    ensures After(l, e, Then(call, r)) == Then(After(l, e, call), r)
  {
  }

  /** One call of a session: how much of the input the caller has by then, and the output space it offers. */
  datatype Call = Call(upTo: nat, room: nat)

  function Window(s: seq<Octet>, at: nat, upTo: nat): (w: seq<Octet>)
    requires at <= |s|
  {
    if upTo <= at then [] else if upTo <= |s| then s[at..upTo] else s[at..]
  }

  /**
   * A caller's session: every call gets the input not consumed so far, up to what has arrived, and fresh
   * output space.
   */
  function Session(from: Charset, to: Charset, s: seq<Octet>, calls: seq<Call>): (r: Outcome)
    requires IsDestination(to)
    ensures r.consumed <= |s|
  {
    if calls == [] then Outcome(0, [], 0, Finished)
    else
      var before := Session(from, to, s, calls[..|calls| - 1]);
      var call := calls[|calls| - 1];
      Then(before, Convert(from, to, Window(s, before.consumed, call.upTo), call.room))
  }

  /** Whatever the pieces, a session has done the beginning of what one call on everything does. */
  lemma {:induction false} SessionIsPrefix(from: Charset, to: Charset, s: seq<Octet>, calls: seq<Call>)
    requires IsDestination(to)
    ensures
      var session := Session(from, to, s, calls);
      Whole(from, to, s) == Then(session, Whole(from, to, s[session.consumed..]))
  {
    hide Convert, Whole;
    if calls == [] {
      assert s[0..] == s;
    } else {
      var before := Session(from, to, s, calls[..|calls| - 1]);
      var call := calls[|calls| - 1];
      SessionIsPrefix(from, to, s, calls[..|calls| - 1]);
      var rest := s[before.consumed..];
      var w := Window(s, before.consumed, call.upTo);
      assert w == rest[..|w|];
      CallIsPrefix(from, to, rest, |w|, call.room);
      var r := Convert(from, to, w, call.room);
      assert rest[r.consumed..] == s[before.consumed + r.consumed..];
      ThenThen(before, r, Whole(from, to, rest[r.consumed..]));
    }
  }

  lemma ThenThen(a: Outcome, b: Outcome, c: Outcome)
    ensures Then(a, Then(b, c)) == Then(Then(a, b), c)
  {
  }

  /** So the pieces do not matter: sessions that got equally far have given the same output. */
  lemma SessionsAgree(from: Charset, to: Charset, s: seq<Octet>, calls: seq<Call>, others: seq<Call>)
    requires IsDestination(to)
    requires Session(from, to, s, calls).consumed == Session(from, to, s, others).consumed
    ensures Session(from, to, s, calls).out == Session(from, to, s, others).out
    ensures Session(from, to, s, calls).replaced == Session(from, to, s, others).replaced
  {
    hide Session, Whole;
    var a, b := Session(from, to, s, calls), Session(from, to, s, others);
    SessionIsPrefix(from, to, s, calls);
    SessionIsPrefix(from, to, s, others);
    var rest := Whole(from, to, s[a.consumed..]).out;
    assert a.out + rest == b.out + rest;
    assert a.out == (a.out + rest)[..|a.out|] && b.out == (b.out + rest)[..|b.out|];
  }

  /** A session that consumed everything has done what one call does, and that call finishes. */
  lemma FinishedSession(from: Charset, to: Charset, s: seq<Octet>, calls: seq<Call>)
    requires IsDestination(to) && Session(from, to, s, calls).consumed == |s|
    ensures Whole(from, to, s) == Session(from, to, s, calls).(stop := Finished)
  {
    hide Session, Whole;
    SessionIsPrefix(from, to, s, calls);
    EmptyWhole(from, to);
    assert s[|s|..] == [];
  }

  lemma EmptyWhole(from: Charset, to: Charset)
    requires IsDestination(to)
    ensures Whole(from, to, []) == Outcome(0, [], 0, Finished)
  {
  }

  /** A call makes progress when it has one whole character and room for any. */
  lemma CallMakesProgress(from: Charset, to: Charset, s: seq<Octet>, room: nat)
    requires IsDestination(to) && s != [] && DecodeOne(from, s).Char? && room >= 4
    ensures Convert(from, to, s, room).consumed > 0
  {
    hide DecodeOne, EncodeOne, Convert;
    Turn(from, to, s, room);
  }

  /**
   * How a call ends, told by what it leaves: nothing; a character that does not fit the room that is left;
   * bytes that are no character; or the beginning of one.  Only the second and third return -1.
   */
  lemma {:induction false} CallEnds(from: Charset, to: Charset, s: seq<Octet>, room: nat)
    requires IsDestination(to)
    ensures
      var r := Convert(from, to, s, room);
      Ending(from, to, s[r.consumed..], room - |r.out|, r)
    decreases |s|
  {
    hide DecodeOne, EncodeOne, Convert, Ending, After;
    if s == [] || !DecodeOne(from, s).Char? || |EncodeOne(to, DecodeOne(from, s).c).bytes| > room {
      CallEndsHere(from, to, s, room);
    } else {
      var d := DecodeOne(from, s);
      var e := EncodeOne(to, d.c);
      Turn(from, to, s, room);
      CallEnds(from, to, s[d.length..], room - |e.bytes|);
      var r := Convert(from, to, s[d.length..], room - |e.bytes|);
      assert s[d.length..][r.consumed..] == s[d.length + r.consumed..];
      EndingAfter(from, to, s[d.length + r.consumed..], room - |e.bytes| - |r.out|, d.length, e, r);
    }
  }

  lemma CallEndsHere(from: Charset, to: Charset, s: seq<Octet>, room: nat)
    requires IsDestination(to)
    requires s == [] || !DecodeOne(from, s).Char? || |EncodeOne(to, DecodeOne(from, s).c).bytes| > room
    ensures
      var r := Convert(from, to, s, room);
      Ending(from, to, s[r.consumed..], room - |r.out|, r)
  {
    hide DecodeOne, EncodeOne, Convert;
    assert s[0..] == s;
    if s == [] || !DecodeOne(from, s).Char? {
      Halt(from, to, s, room);
    } else {
      NoRoom(from, to, s, room);
    }
  }

  ghost predicate Ending(from: Charset, to: Charset, rest: seq<Octet>, left: int, r: Outcome)
    requires IsDestination(to)
  {
    if rest == [] then r.stop == Finished && ReturnValue(r) == r.replaced
    else
      match DecodeOne(from, rest)
      case Char(c, _) => |EncodeOne(to, c).bytes| > left && r.stop == E2BIG && ReturnValue(r) == -1
      case Illegal => r.stop == EILSEQ && ReturnValue(r) == -1
      case Starved => r.stop == EINVAL && ReturnValue(r) == r.replaced
  }

  lemma EndingAfter(from: Charset, to: Charset, rest: seq<Octet>, left: int, l: nat, e: Encoded, r: Outcome)
    requires IsDestination(to) && Ending(from, to, rest, left, r)
    ensures Ending(from, to, rest, left, After(l, e, r))
    ensures After(l, e, r).consumed == l + r.consumed && |After(l, e, r).out| == |e.bytes| + |r.out|
  {
    hide DecodeOne, EncodeOne;
  }

  lemma NoRoom(from: Charset, to: Charset, s: seq<Octet>, room: nat)
    requires IsDestination(to) && s != [] && DecodeOne(from, s).Char?
    requires |EncodeOne(to, DecodeOne(from, s).c).bytes| > room
    ensures Convert(from, to, s, room) == Outcome(0, [], 0, E2BIG)
  {
    hide DecodeOne, EncodeOne;
  }

  // ------------------------------------------------------------------
  // UTF-8 input
  // ------------------------------------------------------------------

  predicate AllAccepted(cs: seq<Wchar>)
  {
    forall i :: 0 <= i < |cs| ==> IsAccepted(cs[i])
  }

  /** Well-formed UTF-8: the encoding of a text. */
  function EncodeAll(cs: seq<Wchar>): seq<Octet>
  {
    if cs == [] then [] else Encode(cs[0]) + EncodeAll(cs[1..])
  }

  /** A text character by character in another charset. */
  function Render(to: Charset, cs: seq<Wchar>): seq<Octet>
    requires IsDestination(to)
  {
    if cs == [] then [] else EncodeOne(to, cs[0]).bytes + Render(to, cs[1..])
  }

  function Replacements(to: Charset, cs: seq<Wchar>): nat
    requires IsDestination(to)
  {
    if cs == [] then 0 else (if EncodeOne(to, cs[0]).replaced then 1 else 0) + Replacements(to, cs[1..])
  }

  lemma DecodeOneUtf8(c: Wchar, rest: seq<Octet>)
    requires IsAccepted(c)
    ensures DecodeOne(UTF_8, Encode(c) + rest) == Char(c, |Encode(c)|)
  {
    hide Decode, Lead2, Lead3, Lead4, Tail0, Tail6, Tail12;
    DecodeEncode(c, rest);
    InRange(c);
    if c < 0x80 {
      assert (Encode(c) + rest)[0] == c as Octet;
    } else {
      LeadIsLead(c);
    }
  }

  lemma InRange(c: Wchar)
    requires IsScalar(c)
    ensures !(c - 0xD800 < 0x800 || c >= 0x110000)
  {
  }

  /** Well-formed UTF-8 is converted completely, each character as the destination has it. */
  lemma {:induction false} WellFormedConverts(to: Charset, cs: seq<Wchar>)
    requires IsDestination(to) && AllAccepted(cs)
    ensures Whole(UTF_8, to, EncodeAll(cs)) == Outcome(|EncodeAll(cs)|, Render(to, cs), Replacements(to, cs), Finished)
  {
    hide DecodeOne, EncodeOne, Encode, Whole;
    if cs == [] {
      EmptyWhole(UTF_8, to);
    } else {
      var s, l := EncodeAll(cs), |Encode(cs[0])|;
      DecodeOneUtf8(cs[0], EncodeAll(cs[1..]));
      WholeTurn(UTF_8, to, s);
      assert s[l..] == EncodeAll(cs[1..]);
      WellFormedConverts(to, cs[1..]);
    }
  }

  /** What DecodeOne accepts as UTF-8 is what the encoder writes. */
  lemma Utf8IsCanonical(s: seq<Octet>)
    requires s != [] && DecodeOne(UTF_8, s).Char?
    ensures
      var d := DecodeOne(UTF_8, s);
      IsAccepted(d.c) && s[..d.length] == Encode(d.c)
  {
    hide Decode, Lead2, Lead3, Lead4, Tail0, Tail6, Tail12;
    if s[0] < 0x80 {
      Ascii(s[0]);
      assert s[..1] == [s[0]];
    } else {
      EncodeDecode(s);
    }
  }

  /** UTF-8 to UTF-8 copies what it consumes, on any input and with any room. */
  lemma {:induction false} Utf8Identity(s: seq<Octet>, room: nat)
    ensures
      var r := Convert(UTF_8, UTF_8, s, room);
      r.out == s[..r.consumed] && r.replaced == 0
    decreases |s|
  {
    hide DecodeOne, EncodeOne, Encode, Convert;
    if s == [] || !DecodeOne(UTF_8, s).Char? || |EncodeOne(UTF_8, DecodeOne(UTF_8, s).c).bytes| > room {
      NothingDone(UTF_8, UTF_8, s, room);
    } else {
      var d := DecodeOne(UTF_8, s);
      var n := |Encode(d.c)|;
      EncodeOneUtf8(d.c);
      Utf8IsCanonical(s);
      Turn(UTF_8, UTF_8, s, room);
      Utf8Identity(s[d.length..], room - n);
      var rest := Convert(UTF_8, UTF_8, s[d.length..], room - n);
      assert s[..d.length] + s[d.length..][..rest.consumed] == s[..d.length + rest.consumed];
    }
  }

  lemma EncodeOneUtf8(c: Wchar)
    ensures EncodeOne(UTF_8, c) == Encoded(Encode(c), false)
  {
  }

  // ------------------------------------------------------------------
  // Sessions on well-formed UTF-8
  // ------------------------------------------------------------------

  lemma {:induction false} EncodeAllConcat(a: seq<Wchar>, b: seq<Wchar>)
    ensures EncodeAll(a + b) == EncodeAll(a) + EncodeAll(b)
  {
    hide Encode;
    if a == [] {
      assert a + b == b;
    } else {
      assert (a + b)[1..] == a[1..] + b;
      EncodeAllConcat(a[1..], b);
    }
  }

  lemma {:induction false} RenderConcat(to: Charset, a: seq<Wchar>, b: seq<Wchar>)
    requires IsDestination(to)
    ensures Render(to, a + b) == Render(to, a) + Render(to, b)
  {
    hide EncodeOne;
    if a == [] {
      assert a + b == b;
    } else {
      assert (a + b)[1..] == a[1..] + b;
      RenderConcat(to, a[1..], b);
    }
  }

  /** r has converted exactly the first j characters of the text. */
  predicate HasConverted(to: Charset, cs: seq<Wchar>, j: nat, r: Outcome)
    requires IsDestination(to) && j <= |cs|
  {
    r.consumed == |EncodeAll(cs[..j])| && r.out == Render(to, cs[..j])
  }

  lemma ConvertedOneMore(to: Charset, cs: seq<Wchar>, j: nat, r: Outcome)
    requires IsDestination(to) && cs != [] && j < |cs| && HasConverted(to, cs[1..], j, r)
    ensures HasConverted(to, cs, j + 1, After(|Encode(cs[0])|, EncodeOne(to, cs[0]), r))
  {
    hide Encode, EncodeOne;
    assert cs[..j + 1][0] == cs[0] && cs[..j + 1][1..] == cs[1..][..j];
  }

  lemma ConvertedMore(to: Charset, cs: seq<Wchar>, i: nat, m: nat, before: Outcome, r: Outcome)
    requires IsDestination(to) && i + m <= |cs|
    requires HasConverted(to, cs, i, before) && HasConverted(to, cs[i..], m, r)
    ensures HasConverted(to, cs, i + m, Then(before, r))
  {
    hide EncodeAll, Render;
    assert cs[..i + m] == cs[..i] + cs[i..][..m];
    EncodeAllConcat(cs[..i], cs[i..][..m]);
    RenderConcat(to, cs[..i], cs[i..][..m]);
  }

  lemma NothingConverted(to: Charset, cs: seq<Wchar>)
    requires IsDestination(to)
    ensures forall r: Outcome :: r.consumed == 0 && r.out == [] ==> HasConverted(to, cs, 0, r)
  {
    assert cs[..0] == [];
  }

  /** A call that gets past the first character of a text goes on with the rest of the text. */
  lemma TextTurn(to: Charset, cs: seq<Wchar>, k: nat, room: nat)
    requires IsDestination(to) && cs != [] && IsAccepted(cs[0]) && 0 < k <= |EncodeAll(cs)|
    requires DecodeOne(UTF_8, EncodeAll(cs)[..k]).Char?
    ensures
      var l, e := |Encode(cs[0])|, EncodeOne(to, cs[0]);
      && DecodeOne(UTF_8, EncodeAll(cs)[..k]) == Char(cs[0], l)
      && l <= k <= l + |EncodeAll(cs[1..])|
      && (|e.bytes| <= room ==>
            Convert(UTF_8, to, EncodeAll(cs)[..k], room) ==
            After(l, e, Convert(UTF_8, to, EncodeAll(cs[1..])[..k - l], room - |e.bytes|)))
  {
    hide DecodeOne, EncodeOne, Encode, Convert, After;
    var w, l := EncodeAll(cs)[..k], |Encode(cs[0])|;
    DecodeOneStable(UTF_8, EncodeAll(cs), k);
    DecodeOneUtf8(cs[0], EncodeAll(cs[1..]));
    assert w[l..] == EncodeAll(cs[1..])[..k - l];
    if |EncodeOne(to, cs[0]).bytes| <= room {
      Turn(UTF_8, to, w, room);
    }
  }

  /** One call on some of the bytes of a text converts whole characters. */
  lemma {:induction false} CallConvertsCharacters(to: Charset, cs: seq<Wchar>, k: nat, room: nat) returns (j: nat)
    requires IsDestination(to) && AllAccepted(cs) && k <= |EncodeAll(cs)|
    ensures j <= |cs| && HasConverted(to, cs, j, Convert(UTF_8, to, EncodeAll(cs)[..k], room))
    decreases |cs|
  {
    hide DecodeOne, EncodeOne, Encode, Convert, HasConverted, After;
    var w := EncodeAll(cs)[..k];
    if w == [] || !DecodeOne(UTF_8, w).Char? || |EncodeOne(to, DecodeOne(UTF_8, w).c).bytes| > room {
      NothingConverted(to, cs);
      NothingDone(UTF_8, to, w, room);
      j := 0;
    } else {
      TextTurn(to, cs, k, room);
      var l, n := |Encode(cs[0])|, |EncodeOne(to, cs[0]).bytes|;
      j := CallConvertsCharacters(to, cs[1..], k - l, room - n);
      ConvertedOneMore(to, cs, j, Convert(UTF_8, to, EncodeAll(cs[1..])[..k - l], room - n));
      j := j + 1;
    }
  }

  /** Every session on a text has converted whole characters, as many input as output. */
  lemma {:induction false} SessionConvertsCharacters(to: Charset, cs: seq<Wchar>, calls: seq<Call>) returns (j: nat)
    requires IsDestination(to) && AllAccepted(cs)
    ensures j <= |cs| && HasConverted(to, cs, j, Session(UTF_8, to, EncodeAll(cs), calls))
  {
    hide Convert, EncodeAll, Render;
    var s := EncodeAll(cs);
    if calls == [] {
      NothingConverted(to, cs);
      j := 0;
    } else {
      var i := SessionConvertsCharacters(to, cs, calls[..|calls| - 1]);
      var before := Session(UTF_8, to, s, calls[..|calls| - 1]);
      var call := calls[|calls| - 1];
      var w := Window(s, before.consumed, call.upTo);
      EncodeAllConcat(cs[..i], cs[i..]);
      assert cs == cs[..i] + cs[i..];
      assert w == EncodeAll(cs[i..])[..|w|];
      var m := CallConvertsCharacters(to, cs[i..], |w|, call.room);
      ConvertedMore(to, cs, i, m, before, Convert(UTF_8, to, w, call.room));
      j := i + m;
    }
  }

  /** A session that has consumed a whole text has written the whole text in the destination charset. */
  lemma SessionRenders(to: Charset, cs: seq<Wchar>, calls: seq<Call>)
    requires IsDestination(to) && AllAccepted(cs)
    requires Session(UTF_8, to, EncodeAll(cs), calls).consumed == |EncodeAll(cs)|
    ensures Session(UTF_8, to, EncodeAll(cs), calls).out == Render(to, cs)
  {
    hide Session, Whole, Render, EncodeAll;
    FinishedSession(UTF_8, to, EncodeAll(cs), calls);
    WellFormedConverts(to, cs);
  }

  /** A call with room for a character and all the input in view converts one more, if any is left. */
  lemma {:induction false} CallsConvertCharacters(to: Charset, cs: seq<Wchar>, calls: seq<Call>) returns (j: nat)
    requires IsDestination(to) && AllAccepted(cs)
    requires forall i :: 0 <= i < |calls| ==> calls[i].upTo >= |EncodeAll(cs)| && calls[i].room >= 4
    ensures j <= |cs| && HasConverted(to, cs, j, Session(UTF_8, to, EncodeAll(cs), calls))
    ensures j >= |calls| || j == |cs|
  {
    hide Convert, EncodeAll, Render;
    var s := EncodeAll(cs);
    if calls == [] {
      NothingConverted(to, cs);
      j := 0;
    } else {
      var i := CallsConvertCharacters(to, cs, calls[..|calls| - 1]);
      var before := Session(UTF_8, to, s, calls[..|calls| - 1]);
      var call := calls[|calls| - 1];
      EncodeAllConcat(cs[..i], cs[i..]);
      assert cs == cs[..i] + cs[i..];
      var w := Window(s, before.consumed, call.upTo);
      assert w == EncodeAll(cs[i..]) && w[..|w|] == w;
      var m := CallConvertsCharacters(to, cs[i..], |w|, call.room);
      ConvertedMore(to, cs, i, m, before, Convert(UTF_8, to, w, call.room));
      if i < |cs| {
        FirstIsConverted(to, cs[i..], call.room);
        NoneConverted(to, cs[i..], m, Convert(UTF_8, to, w, call.room));
      }
      j := i + m;
    }
  }

  lemma FirstIsConverted(to: Charset, cs: seq<Wchar>, room: nat)
    requires IsDestination(to) && cs != [] && IsAccepted(cs[0]) && room >= 4
    ensures Convert(UTF_8, to, EncodeAll(cs), room).consumed > 0
  {
    hide Convert, DecodeOne, Encode;
    DecodeOneUtf8(cs[0], EncodeAll(cs[1..]));
    CallMakesProgress(UTF_8, to, EncodeAll(cs), room);
  }

  lemma NoneConverted(to: Charset, cs: seq<Wchar>, m: nat, r: Outcome)
    requires IsDestination(to) && m <= |cs| && HasConverted(to, cs, m, r) && r.consumed > 0
    ensures m > 0
  {
    assert cs[..m] == [] <==> m == 0;
  }

  /** As many such calls as there are characters convert a whole text, wherever they stop in between. */
  lemma CallsFinish(to: Charset, cs: seq<Wchar>, calls: seq<Call>)
    requires IsDestination(to) && AllAccepted(cs) && |calls| >= |cs|
    requires forall i :: 0 <= i < |calls| ==> calls[i].upTo >= |EncodeAll(cs)| && calls[i].room >= 4
    ensures Session(UTF_8, to, EncodeAll(cs), calls).consumed == |EncodeAll(cs)|
    ensures Session(UTF_8, to, EncodeAll(cs), calls).out == Render(to, cs)
  {
    hide Session, EncodeAll, Render;
    var j := CallsConvertCharacters(to, cs, calls);
    assert cs[..|cs|] == cs;
  }

  /** What converting a whole text does. */
  function TextOutcome(to: Charset, cs: seq<Wchar>): Outcome
    requires IsDestination(to)
  {
    Outcome(|EncodeAll(cs)|, Render(to, cs), Replacements(to, cs), Finished)
  }

  lemma TextOutcomeStep(to: Charset, cs: seq<Wchar>)
    requires IsDestination(to) && cs != []
    ensures TextOutcome(to, cs) == After(|Encode(cs[0])|, EncodeOne(to, cs[0]), TextOutcome(to, cs[1..]))
    ensures |Render(to, cs)| == |EncodeOne(to, cs[0]).bytes| + |Render(to, cs[1..])|
  {
    hide Encode, EncodeOne;
  }

  /** A text that fits the room is converted before whatever follows it. */
  lemma {:induction false} TextThen(to: Charset, cs: seq<Wchar>, tail: seq<Octet>, room: nat)
    requires IsDestination(to) && AllAccepted(cs) && |Render(to, cs)| <= room
    ensures Convert(UTF_8, to, EncodeAll(cs) + tail, room) ==
      Then(TextOutcome(to, cs), Convert(UTF_8, to, tail, room - |Render(to, cs)|))
  {
    hide DecodeOne, EncodeOne, Encode, Convert;
    if cs == [] {
      assert EncodeAll(cs) + tail == tail;
    } else {
      hide After, Then, Render, TextOutcome;
      var l, e := |Encode(cs[0])|, EncodeOne(to, cs[0]);
      var s := EncodeAll(cs) + tail;
      assert s == Encode(cs[0]) + (EncodeAll(cs[1..]) + tail);
      TextOutcomeStep(to, cs);
      DecodeOneUtf8(cs[0], EncodeAll(cs[1..]) + tail);
      Turn(UTF_8, to, s, room);
      assert s[l..] == EncodeAll(cs[1..]) + tail;
      TextThen(to, cs[1..], tail, room - |e.bytes|);
      AfterThen(l, e, TextOutcome(to, cs[1..]), Convert(UTF_8, to, tail, room - |Render(to, cs)|));
    }
  }

  /**
   * What a call on a text returns: its replacements if nothing follows; -1 and E2BIG if the next character
   * finds no room; -1 and EILSEQ if illegal bytes follow; its replacements and EINVAL if part of a character does.
   */
  lemma TextReturns(to: Charset, cs: seq<Wchar>, tail: seq<Octet>, room: nat)
    requires IsDestination(to) && AllAccepted(cs) && |Render(to, cs)| <= room
    requires tail != [] && DecodeOne(UTF_8, tail).Char? ==>
      |EncodeOne(to, DecodeOne(UTF_8, tail).c).bytes| > room - |Render(to, cs)|
    ensures
      var r := Convert(UTF_8, to, EncodeAll(cs) + tail, room);
      && r.consumed == |EncodeAll(cs)| && r.out == Render(to, cs) && r.replaced == Replacements(to, cs)
      && Ending(UTF_8, to, tail, room - |Render(to, cs)|, r)
  {
    hide DecodeOne, EncodeOne, Convert, EncodeAll, Render, Replacements;
    TextThen(to, cs, tail, room);
    var left := room - |Render(to, cs)|;
    if tail != [] && DecodeOne(UTF_8, tail).Char? {
      NoRoom(UTF_8, to, tail, left);
    } else {
      Halt(UTF_8, to, tail, left);
    }
  }

  // ------------------------------------------------------------------
  // Stray bytes
  // ------------------------------------------------------------------

  /** A call that begins at a stray byte reports incomplete input, returns 0 and does nothing. */
  lemma StrayByteStarves(to: Charset, b: Octet, more: seq<Octet>, room: nat)
    requires IsDestination(to) && IsStray(b)
    ensures Convert(UTF_8, to, [b] + more, room) == Outcome(0, [], 0, EINVAL)
    ensures ReturnValue(Convert(UTF_8, to, [b] + more, room)) == 0
  {
    hide SequenceLength, EncodeOne;
    NotAscii(b);
  }

  lemma NotAscii(b: Octet)
    ensures b > 0x7F <==> !(b < 0x80)
  {
  }

  /** Incomplete input that no more input completes: exactly that which begins with a stray byte. */
  lemma StarvedForeverIff(s: seq<Octet>)
    requires s != [] && DecodeOne(UTF_8, s).Starved?
    ensures (forall more: seq<Octet> :: DecodeOne(UTF_8, s + more).Starved?) <==> IsStray(s[0])
  {
    hide SequenceLength, Decode;
    NotAscii(s[0]);
    var n := SequenceLength(s[0]);
    if n > |s| {
      var more := seq(n - |s|, _ => 0 as Octet);
      assert (s + more)[0] == s[0];
      DecodeDecides(s + more);
      assert !DecodeOne(UTF_8, s + more).Starved?;
    } else {
      DecodeDecides(s);
      forall more: seq<Octet> | IsStray(s[0])
        ensures DecodeOne(UTF_8, s + more).Starved?
      {
        assert (s + more)[0] == s[0];
        DecodeDecides(s + more);
      }
    }
  }

  /** The decoder is starved by a stray byte, and by a sequence that is cut short. */
  lemma DecodeDecides(s: seq<Octet>)
    requires s != [] && s[0] > 0x7F
    ensures Decode(s).Starved? <==> SequenceLength(s[0]) == -1 || SequenceLength(s[0]) > |s|
  {
    hide SequenceLength, LeadBits;
    var n := SequenceLength(s[0]);
    if 1 < n < 5 && n <= |s| {
      ContinueLength(LeadBits(s[0], n), s, 1, n);
    }
  }

  /** Well-formed text in front of a stray byte is all that is ever converted. */
  lemma {:induction false} WholeBeforeStray(to: Charset, cs: seq<Wchar>, b: Octet, more: seq<Octet>)
    requires IsDestination(to) && AllAccepted(cs) && IsStray(b)
    ensures Whole(UTF_8, to, EncodeAll(cs) + ([b] + more)) ==
      Outcome(|EncodeAll(cs)|, Render(to, cs), Replacements(to, cs), EINVAL)
  {
    hide DecodeOne, EncodeOne, Encode, Convert, IsStray;
    var tail := [b] + more;
    var s := EncodeAll(cs) + tail;
    if cs == [] {
      assert s == tail;
      StrayByteStarves(to, b, more, Ample(s));
    } else {
      var l := |Encode(cs[0])|;
      assert s == Encode(cs[0]) + (EncodeAll(cs[1..]) + tail);
      DecodeOneUtf8(cs[0], EncodeAll(cs[1..]) + tail);
      WholeTurn(UTF_8, to, s);
      assert s[l..] == EncodeAll(cs[1..]) + tail;
      WholeBeforeStray(to, cs[1..], b, more);
    }
  }

  /** So no session gets past a stray byte, however often it calls. */
  lemma SessionStopsAtStray(to: Charset, cs: seq<Wchar>, b: Octet, more: seq<Octet>, calls: seq<Call>)
    requires IsDestination(to) && AllAccepted(cs) && IsStray(b)
    ensures Session(UTF_8, to, EncodeAll(cs) + ([b] + more), calls).consumed <= |EncodeAll(cs)|
  {
    hide Session, Whole, EncodeAll, IsStray, Render;
    WholeBeforeStray(to, cs, b, more);
    SessionIsPrefix(UTF_8, to, EncodeAll(cs) + ([b] + more), calls);
  }

  // ------------------------------------------------------------------
  // UTF-16 and the single-byte sets
  // ------------------------------------------------------------------

  lemma UnitRoundTrip(c: Wchar, bigEndian: bool)
    requires c < 0x1_0000
    ensures Get16(Put16(c, bigEndian)[0], Put16(c, bigEndian)[1], bigEndian) == c
  {
  }

  /** The first unit of what the code writes for a character above U+FFFF lies among the surrogates. */
  lemma FirstUnit(c: Wchar)
    requires 0x1_0000 <= c <= 0x10FFFF
    ensures
      var u := (c >> 10) | 0xD800;
      u < 0x1_0000 && (u - 0xDC00 < 0x400 || (u - 0xD800 < 0x400 && u - 0xDC00 >= 0x400))
  {
  }

  /** The big-endian unit has its high byte first; the little-endian one is the same two bytes the other way round. */
  lemma UnitBytes(c: Wchar)
    requires c < 0x1_0000
    ensures (Put16(c, true)[0] as Wchar) * 0x100 + Put16(c, true)[1] as Wchar == c
    ensures Put16(c, false) == [Put16(c, true)[1], Put16(c, true)[0]]
  {
  }

  /** A character above U+FFFF becomes a high surrogate of its bits above the tenth and a low one of the ten others. */
  lemma PairBytes(c: Wchar, bigEndian: bool)
    requires 0x1_0000 <= c <= 0x10FFFF
    ensures Units(c, bigEndian)[..2] == Put16((c / 0x400) | 0xD800, bigEndian)
    ensures Units(c, bigEndian)[2..] == Put16(0xDC00 + c % 0x400, bigEndian)
  {
    hide Put16;
    LowTen(c);
  }

  lemma LowTen(c: Wchar)
    ensures c >> 10 == c / 0x400 && (c & 0x3FF) | 0xDC00 == 0xDC00 + c % 0x400
  {
  }

  /**
   * What the front of UTF-16 input is: too short for a unit; a low surrogate, which is illegal; a high one,
   * which waits for a second unit and then is illegal too; or a character.
   */
  lemma Utf16Front(bigEndian: bool, u: Wchar, rest: seq<Octet>, b: Octet)
    requires u < 0x1_0000
    ensures
      var utf16 := if bigEndian then UTF_16BE else UTF_16LE;
      && DecodeOne(utf16, [b]).Starved?
      && DecodeOne(utf16, Put16(u, bigEndian) + rest) ==
           if 0xDC00 <= u <= 0xDFFF then Illegal
           else if 0xD800 <= u <= 0xDBFF then (if |rest| < 2 then Starved else Illegal)
           else Char(u, 2)
  {
    hide Get16, Put16, Decode, FromLatin9;
    var s := Put16(u, bigEndian) + rest;
    assert s[0] == Put16(u, bigEndian)[0] && s[1] == Put16(u, bigEndian)[1];
    UnitRoundTrip(u, bigEndian);
    SurrogateRanges(u);
  }

  lemma SurrogateRanges(u: Wchar)
    requires u < 0x1_0000
    ensures u - 0xDC00 < 0x400 <==> 0xDC00 <= u <= 0xDFFF
    ensures u - 0xD800 < 0x400 <==> 0xD800 <= u <= 0xDBFF
    ensures u - 0xD800 < 0x800 <==> 0xD800 <= u <= 0xDFFF
  {
  }

  /** UTF-16 reads back what it wrote exactly for the characters below U+10000. */
  lemma Utf16RoundTripIff(c: Wchar, bigEndian: bool, rest: seq<Octet>)
    requires IsScalar(c)
    ensures
      var utf16 := if bigEndian then UTF_16BE else UTF_16LE;
      var s := EncodeOne(utf16, c).bytes;
      DecodeOne(utf16, s + rest) == Char(c, |s|) <==> c < 0x1_0000
  {
    hide Get16, Put16, Encode, Decode, FromLatin9, ToLatin9, Single;
    var s := Units(c, bigEndian);
    if c < 0x1_0000 {
      UnitRoundTrip(c, bigEndian);
      InRange(c);
      NotSurrogate(c);
      assert (s + rest)[0] == s[0] && (s + rest)[1] == s[1];
    } else {
      var u := (c >> 10) | 0xD800;
      FirstUnit(c);
      UnitRoundTrip(u, bigEndian);
      assert (s + rest)[0] == Put16(u, bigEndian)[0] && (s + rest)[1] == Put16(u, bigEndian)[1];
    }
  }

  lemma NotSurrogate(c: Wchar)
    requires IsScalar(c)
    ensures !(c - 0xDC00 < 0x400) && !(c - 0xD800 < 0x400)
  {
  }

  lemma Latin9Table(b: Octet)
    ensures
      var c := FromLatin9(b);
      IsAccepted(c) && (if c >= 0x100 && c != 0xFFFD then ToLatin9(c) else c as Octet) == b
    ensures FromLatin9(b) < 0x100 || FromLatin9(b) != 0xFFFD
  {
  }

  /** The low bytes of the characters that ISO-8859-15 has from 0xA5 on in place of those of ISO-8859-1. */
  const LATIN9_MAP: seq<Octet> :=
    [0, 0x60, 0, 0x61, 0, 0, 0, 0, 0, 0, 0, 0, 0, 0, 0, 0x7D, 0, 0, 0, 0x7E, 0, 0, 0, 0x52, 0x53, 0x78]

  /** What the code computes from that map is the table: seven characters by the map, the euro sign apart from it. */
  lemma Latin9IsMapped(b: Octet)
    ensures b !in [0xA4, 0xA6, 0xA8, 0xB4, 0xB8, 0xBC, 0xBD, 0xBE] ==> FromLatin9(b) == b as Wchar
    ensures FromLatin9(0xA4) == 0x20AC
    ensures FromLatin9(0xA5 + 1) == 0x100 | LATIN9_MAP[1] as Wchar
    ensures FromLatin9(0xA5 + 3) == 0x100 | LATIN9_MAP[3] as Wchar
    ensures FromLatin9(0xA5 + 15) == 0x100 | LATIN9_MAP[15] as Wchar
    ensures FromLatin9(0xA5 + 19) == 0x100 | LATIN9_MAP[19] as Wchar
    ensures FromLatin9(0xA5 + 23) == 0x100 | LATIN9_MAP[23] as Wchar
    ensures FromLatin9(0xA5 + 24) == 0x100 | LATIN9_MAP[24] as Wchar
    ensures FromLatin9(0xA5 + 25) == 0x100 | LATIN9_MAP[25] as Wchar
  {
  }

  lemma Latin9MapElsewhere(k: nat)
    requires k < 26 && k !in [1, 3, 15, 19, 23, 24, 25]
    ensures LATIN9_MAP[k] == 0
  {
  }

  /** US-ASCII has no bytes from 0x80 on. */
  lemma AsciiFront(b: Octet, rest: seq<Octet>)
    ensures DecodeOne(US_ASCII, [b] + rest) == if b <= 0x7F then Char(b as Wchar, 1) else Illegal
  {
    hide Decode, FromLatin9, Decode16;
  }

  /** The offsets of the two charsets that can only be read: consecutive characters from a first one on. */
  lemma OffsetSources(b: Octet, rest: seq<Octet>)
    ensures
      var tis, jis := DecodeOne(TIS_620, [b] + rest), DecodeOne(JIS_0201, [b] + rest);
      && (b < 0xA1 ==> tis == jis == Char(b as Wchar, 1))
      && (b == 0xA1 ==> tis == Char(0x0E01, 1) && jis == Char(0xFF61, 1))
      && (b > 0xDF ==> jis.Illegal?)
  {
    hide Decode, FromLatin9, Decode16;
  }

  lemma OffsetSourcesNext(b: Octet, rest: seq<Octet>)
    requires 0xA1 <= b < 0xFF
    ensures
      var next := [b + 1] + rest;
      && DecodeOne(TIS_620, next) == Char(DecodeOne(TIS_620, [b] + rest).c + 1, 1)
      && (b < 0xDF ==> DecodeOne(JIS_0201, next) == Char(DecodeOne(JIS_0201, [b] + rest).c + 1, 1))
  {
    hide Decode, FromLatin9, Decode16;
  }

  /** Every byte of the two single-byte destinations comes back as it was. */
  lemma SingleByteRoundTrip(charset: Charset, b: Octet, rest: seq<Octet>)
    requires charset.LATIN_1? || charset.LATIN_9?
    ensures DecodeOne(charset, [b] + rest) == Char(FromSingle(charset, b), 1)
    ensures IsAccepted(FromSingle(charset, b)) && EncodeOne(charset, FromSingle(charset, b)) == Encoded([b], false)
  {
    hide FromLatin9, ToLatin9, Decode, Encode, Decode16, Units;
    Latin9Table(b);
  }

  function FromSingle(charset: Charset, b: Octet): Wchar
  {
    if charset.LATIN_9? && b >= 0x80 then FromLatin9(b) else b as Wchar
  }

  /** The characters that ISO-8859-15 has. */
  predicate InLatin9(c: Wchar)
  {
    if c < 0x100 then c !in [0xA4, 0xA6, 0xA8, 0xB4, 0xB8, 0xBC, 0xBD, 0xBE]
    else c in [0x20AC, 0x0160, 0x0161, 0x017D, 0x017E, 0x0152, 0x0153, 0x0178]
  }

  predicate InSingle(charset: Charset, c: Wchar)
    requires charset.US_ASCII? || charset.LATIN_1? || charset.LATIN_9?
  {
    match charset
    case US_ASCII => c < 0x80
    case LATIN_1 => c < 0x100
    case _ => InLatin9(c)
  }

  predicate ComesBack(charset: Charset, c: Wchar, rest: seq<Octet>)
    requires IsDestination(charset)
  {
    DecodeOne(charset, EncodeOne(charset, c).bytes + rest) == Char(c, |EncodeOne(charset, c).bytes|)
  }

  lemma Latin9Characters(c: Wchar)
    ensures c >= 0x100 && c != 0xFFFD ==>
      (InLatin9(c) <==> (ToLatin9(c) >= 0x80 && FromLatin9(ToLatin9(c)) == c)) && (!InLatin9(c) ==> ToLatin9(c) < 0x80)
    ensures c < 0x100 ==> (InLatin9(c) <==> FromLatin9(c as Octet) == c)
    ensures c < 0x80 ==> InLatin9(c)
    ensures !InLatin9(0xFFFD)
  {
  }

  /** A character written to a single-byte set is read back exactly if the set has it. */
  lemma SingleByteKeepsIff(charset: Charset, c: Wchar, rest: seq<Octet>)
    requires charset.US_ASCII? || charset.LATIN_1? || charset.LATIN_9?
    ensures ComesBack(charset, c, rest) <==> InSingle(charset, c)
  {
    hide FromLatin9, ToLatin9, InLatin9, Decode, Encode, Decode16, Units;
    Latin9Characters(c);
  }

  /** The counted replacements: a character is lost without being counted only in ISO-8859-15, and always there. */
  lemma LostUncountedIff(charset: Charset, c: Wchar, rest: seq<Octet>)
    requires charset.US_ASCII? || charset.LATIN_1? || charset.LATIN_9?
    ensures !ComesBack(charset, c, rest) && !EncodeOne(charset, c).replaced <==>
      charset.LATIN_9? && !InLatin9(c) && c != 0xFFFD
  {
    hide FromLatin9, ToLatin9, InLatin9, DecodeOne, Encode, Units;
    Latin9Characters(c);
    SingleByteKeepsIff(charset, c, rest);
  }

  /** In place of a character that the set does not have: a star if it is counted, a question mark if not. */
  lemma Substitutes(charset: Charset, c: Wchar)
    requires charset.US_ASCII? || charset.LATIN_1? || charset.LATIN_9?
    ensures EncodeOne(charset, c).replaced ==> EncodeOne(charset, c).bytes == ['*' as int as Octet]
    ensures charset.LATIN_9? && !InLatin9(c) && c >= 0x100 && c != 0xFFFD ==>
      EncodeOne(charset, c).bytes == ['?' as int as Octet]
  {
    hide FromLatin9, Encode, Units;
  }

  /** The characters of a single-byte text. */
  function Text(charset: Charset, s: seq<Octet>): (cs: seq<Wchar>)
    ensures |cs| == |s|
  {
    seq(|s|, i requires 0 <= i < |s| => FromSingle(charset, s[i]))
  }

  lemma {:induction false} SingleByteToUtf8(charset: Charset, s: seq<Octet>)
    requires charset.LATIN_1? || charset.LATIN_9?
    ensures Whole(charset, UTF_8, s) == Outcome(|s|, EncodeAll(Text(charset, s)), 0, Finished)
    ensures AllAccepted(Text(charset, s)) && Render(charset, Text(charset, s)) == s
  {
    hide DecodeOne, EncodeOne, Encode, Whole, FromSingle;
    if s == [] {
      EmptyWhole(charset, UTF_8);
    } else {
      var cs := Text(charset, s);
      assert s == [s[0]] + s[1..];
      SingleByteRoundTrip(charset, s[0], s[1..]);
      WholeTurn(charset, UTF_8, s);
      EncodeOneUtf8(cs[0]);
      assert cs[1..] == Text(charset, s[1..]);
      SingleByteToUtf8(charset, s[1..]);
      forall i | 0 <= i < |cs|
        ensures IsAccepted(cs[i])
      {
        assert i > 0 ==> cs[i] == cs[1..][i - 1];
      }
    }
  }

  /** Any single-byte text survives the way to UTF-8 and back, without a replacement. */
  lemma ThroughUtf8(charset: Charset, s: seq<Octet>)
    requires charset.LATIN_1? || charset.LATIN_9?
    ensures
      var there := Whole(charset, UTF_8, s);
      var back := Whole(UTF_8, charset, there.out);
      there.stop == Finished && back.stop == Finished && back.out == s
  {
    hide Whole, EncodeAll, Render, Text;
    SingleByteToUtf8(charset, s);
    WellFormedConverts(charset, Text(charset, s));
  }
}

/** The call itself, writing into the caller's buffer. */
module Iconv {
  import opened Utf8
  import opened IconvSpec

  /**
   * iconv: input is *in[..*inb], out[outAt..outAt + outb] is *out[..*outb].  The results are how far the
   * two pointers have moved, the number returned, and the error left in errno (Finished for none).
   */
  method Convert(from: Charset, to: Charset, input: seq<Octet>, out: array<Octet>, outAt: nat, outb: nat)
    returns (inMoved: nat, outMoved: nat, x: int, errno: Stop)
    requires IsDestination(to) && outAt + outb <= out.Length
    modifies out
    ensures
      var r := IconvSpec.Convert(from, to, input, outb);
      && inMoved == r.consumed && outMoved == |r.out| && errno == r.stop && x == ReturnValue(r)
      && out[..] == old(out[..outAt]) + r.out + old(out[outAt + |r.out|..])
    ensures errno == EILSEQ || errno == E2BIG ==> x == -1
    ensures errno == Finished || errno == EINVAL ==> x == IconvSpec.Convert(from, to, input, outb).replaced
  {
    hide DecodeOne, EncodeOne, IconvSpec.Convert, Ahead, Written;
    inMoved, outMoved, x := 0, 0, 0;
    AheadStart(from, to, input, outb);
    ghost var was, given := out[..], [];
    WrittenIs(was, given, outAt);
    while inMoved < |input|
      invariant inMoved <= |input| && |given| == outMoved <= outb && x >= 0
      invariant out[..] == Written(was, given, outAt)
      invariant Ahead(from, to, input, outb, inMoved, given, x)
    {
      var d := DecodeOne(from, input[inMoved..]);
      if !d.Char? {
        AheadHalts(from, to, input, outb, inMoved, given, x);
        WrittenIs(was, given, outAt);
        errno := if d.Illegal? then EILSEQ else EINVAL;
        x := if d.Illegal? then -1 else x;
        return;
      }
      var e := EncodeOne(to, d.c);
      if outb - outMoved < |e.bytes| {
        AheadNoRoom(from, to, input, outb, inMoved, given, x);
        WrittenIs(was, given, outAt);
        return inMoved, outMoved, -1, E2BIG;
      }
      AheadTurns(from, to, input, outb, inMoved, given, x);
      Write(out, outAt + outMoved, e.bytes, was, given, outAt);
      given := given + e.bytes;
      inMoved, outMoved := inMoved + d.length, outMoved + |e.bytes|;
      x := if e.replaced then x + 1 else x;
    }
    AheadHalts(from, to, input, outb, inMoved, given, x);
    WrittenIs(was, given, outAt);
    errno := Finished;
  }

  /** A buffer that held was, with given written over it from at on. */
  ghost function Written(was: seq<Octet>, given: seq<Octet>, at: nat): seq<Octet>
    requires at + |given| <= |was|
  {
    was[..at] + given + was[at + |given|..]
  }

  lemma WrittenIs(was: seq<Octet>, given: seq<Octet>, at: nat)
    requires at + |given| <= |was|
    ensures Written(was, given, at) == was[..at] + given + was[at + |given|..]
    ensures given == [] ==> Written(was, given, at) == was
  {
  }

  /** So far inMoved bytes have been taken, given has been written and x characters were replaced. */
  ghost predicate Ahead(from: Charset, to: Charset, input: seq<Octet>, outb: nat, inMoved: nat, given: seq<Octet>,
                        x: nat)
    requires IsDestination(to) && inMoved <= |input| && |given| <= outb
  {
    IconvSpec.Convert(from, to, input, outb) ==
      Then(Outcome(inMoved, given, x, Finished), IconvSpec.Convert(from, to, input[inMoved..], outb - |given|))
  }

  lemma AheadStart(from: Charset, to: Charset, input: seq<Octet>, outb: nat)
    requires IsDestination(to)
    ensures Ahead(from, to, input, outb, 0, [], 0)
  {
    hide IconvSpec.Convert;
    assert input[0..] == input;
  }

  lemma AheadTurns(from: Charset, to: Charset, input: seq<Octet>, outb: nat, inMoved: nat, given: seq<Octet>, x: nat)
    requires IsDestination(to) && inMoved < |input| && |given| <= outb
    requires Ahead(from, to, input, outb, inMoved, given, x)
    requires DecodeOne(from, input[inMoved..]).Char?
    requires |EncodeOne(to, DecodeOne(from, input[inMoved..]).c).bytes| <= outb - |given|
    ensures
      var d := DecodeOne(from, input[inMoved..]);
      var e := EncodeOne(to, d.c);
      Ahead(from, to, input, outb, inMoved + d.length, given + e.bytes, if e.replaced then x + 1 else x)
  {
    hide DecodeOne, EncodeOne, IconvSpec.Convert;
    var rest := input[inMoved..];
    var d := DecodeOne(from, rest);
    var e := EncodeOne(to, d.c);
    Turn(from, to, rest, outb - |given|);
    assert rest[d.length..] == input[inMoved + d.length..];
    ThenAfter(Outcome(inMoved, given, x, Finished), d.length, e,
              IconvSpec.Convert(from, to, rest[d.length..], outb - |given| - |e.bytes|));
  }

  lemma AheadHalts(from: Charset, to: Charset, input: seq<Octet>, outb: nat, inMoved: nat, given: seq<Octet>, x: nat)
    requires IsDestination(to) && inMoved <= |input| && |given| <= outb
    requires Ahead(from, to, input, outb, inMoved, given, x)
    requires inMoved < |input| ==> !DecodeOne(from, input[inMoved..]).Char?
    ensures IconvSpec.Convert(from, to, input, outb) ==
      Outcome(inMoved, given, x,
              if inMoved == |input| then Finished
              else if DecodeOne(from, input[inMoved..]).Illegal? then EILSEQ else EINVAL)
  {
    hide DecodeOne, IconvSpec.Convert;
    Halt(from, to, input[inMoved..], outb - |given|);
    assert given + [] == given;
  }

  lemma AheadNoRoom(from: Charset, to: Charset, input: seq<Octet>, outb: nat, inMoved: nat, given: seq<Octet>, x: nat)
    requires IsDestination(to) && inMoved < |input| && |given| <= outb
    requires Ahead(from, to, input, outb, inMoved, given, x)
    requires DecodeOne(from, input[inMoved..]).Char?
    requires |EncodeOne(to, DecodeOne(from, input[inMoved..]).c).bytes| > outb - |given|
    ensures IconvSpec.Convert(from, to, input, outb) == Outcome(inMoved, given, x, E2BIG)
  {
    hide DecodeOne, EncodeOne, IconvSpec.Convert;
    NoRoom(from, to, input[inMoved..], outb - |given|);
    assert given + [] == given;
  }

  /** The bytes of one character, behind those given so far. */
  method Write(out: array<Octet>, from: nat, bytes: seq<Octet>, ghost was: seq<Octet>, ghost given: seq<Octet>,
               ghost at: nat)
    requires |was| == out.Length && from == at + |given| && from + |bytes| <= out.Length
    requires out[..] == Written(was, given, at)
    modifies out
    ensures out[..] == Written(was, given + bytes, at)
  {
    forall i | 0 <= i < |bytes| {
      out[from + i] := bytes[i];
    }
  }

  lemma ThenAfter(before: Outcome, l: nat, e: Encoded, r: Outcome)
    ensures Then(before, After(l, e, r)) ==
      Then(Outcome(before.consumed + l, before.out + e.bytes, before.replaced + (if e.replaced then 1 else 0),
                   Finished), r)
  {
  }
}
