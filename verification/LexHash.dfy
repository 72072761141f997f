/**
 * MySQL's keyword lookup (packages_12.09/libs/mysql/files/lex_hash.h, lines 6123-6190): a packed
 * trie of 4-byte nodes, rooted by word length, against a linear search of the keyword tables.
 * The literal tables are not repeated; the proofs hold for every map that is well formed for
 * the tables it was generated from.
 */
module LexTables {
  import opened Wrappers

  type Byte = x: int | 0 <= x < 256

  /** A keyword: its place in the symbols table or in the sql_functions table. */
  datatype Entry = Symbol(index: nat) | SqlFunction(index: nat)

  /** Everything the lookup reads. */
  datatype Tables = Tables(
    symbols: seq<seq<Byte>>, functions: seq<seq<Byte>>, toUpper: seq<Byte>,
    symbolsMap: seq<Byte>, functionsMap: seq<Byte>, symbolsMaxLen: nat, functionsMaxLen: nat)
  {
    function Map(function_: bool): seq<Byte> { if function_ then functionsMap else symbolsMap }

    function MaxLen(function_: bool): nat { if function_ then functionsMaxLen else symbolsMaxLen }

    /** Whether e can be looked up: symbols always, functions only in function mode. */
    predicate Has(function_: bool, e: Entry)
    {
      if e.Symbol? then e.index < |symbols| else function_ && e.index < |functions|
    }

    function Name(function_: bool, e: Entry): seq<Byte>
      requires Has(function_, e)
    {
      if e.Symbol? then symbols[e.index] else functions[e.index]
    }

    function Upper(s: seq<Byte>): (u: seq<Byte>)
      requires |toUpper| == 256
      ensures |u| == |s|
    {
      seq(|s|, i requires 0 <= i < |s| => toUpper[s[i]])
    }

    /** e is a word of length len whose upper-case form starts with prefix. */
    predicate StartsWith(function_: bool, e: Entry, len: nat, prefix: seq<Byte>)
      requires |toUpper| == 256
    {
      Has(function_, e) && |Name(function_, e)| == len && prefix <= Upper(Name(function_, e))
    }
  }

  // ------------------------------------------------------------------
  // The node layout
  // ------------------------------------------------------------------

  /** uint4korr: four bytes, low-order byte first. */
  function Uint4Korr(map_: seq<Byte>, at: nat): (w: nat)
    requires at + 4 <= |map_|
    ensures w < 0x1_0000_0000
  {
    var b0: int, b1: int, b2: int, b3: int := map_[at], map_[at + 1], map_[at + 2], map_[at + 3];
    b0 + b1 * 0x100 + b2 * 0x1_0000 + b3 * 0x100_0000
  }

  function FirstChar(w: nat): Byte { w % 256 }

  function LastChar(w: nat): Byte { w / 256 % 256 }

  /** The upper 16 bits: where the children start, in an inner node. */
  function High16(w: nat): nat { w / 0x1_0000 % 0x1_0000 }

  /** The upper 16 bits as a signed number: the code of a leaf. */
  function SignedHigh16(w: nat): int
  {
    if High16(w) >= 0x8000 then High16(w) - 0x1_0000 else High16(w)
  }

  /** The entry that a leaf code stands for; the number of symbols stands for none. */
  function Decode(t: Tables, code: int): Option<Entry>
  {
    if code == |t.symbols| then None
    else if code >= 0 then Some(Symbol(code))
    else Some(SqlFunction(-code - 1))
  }

  /** The bytes of an inner node are read back as they were put: range, then first child, low-order byte first. */
  lemma InnerNodeBytes(first: Byte, last: Byte, child: nat)
    requires child < 0x1_0000
    ensures
      var w := Uint4Korr([first, last, child % 256, child / 256], 0);
      FirstChar(w) == first && LastChar(w) == last && High16(w) == child
  {
    var f: int, l: int := first, last;
    var w := Uint4Korr([first, last, child % 256, child / 256], 0);
    assert w == f + 0x100 * (l + 0x100 * child);
    assert w / 256 == l + 0x100 * child;
    assert w / 0x1_0000 == child by { assert w / 256 / 256 == w / 0x1_0000; }
  }

  /** Those of a leaf: zero, and its code in two's complement. */
  lemma LeafBytes(code: int, second: Byte)
    requires -0x8000 <= code < 0x8000
    ensures
      var n := if code < 0 then code + 0x1_0000 else code;
      var w := Uint4Korr([0, second, n % 256, n / 256], 0);
      FirstChar(w) == 0 && SignedHigh16(w) == code
  {
    hide FirstChar, High16, Uint4Korr;
    InnerNodeBytes(0, second, if code < 0 then code + 0x1_0000 else code);
  }

  /** The code of an entry: symbols count up from 0, functions down from -1, and no entry is the number of symbols. */
  lemma CodesOfEntries(t: Tables, i: nat)
    ensures i < |t.symbols| ==> Decode(t, i) == Some(Symbol(i))
    ensures Decode(t, -1 - i) == Some(SqlFunction(i))
    ensures Decode(t, |t.symbols|) == None
  {
  }

  /**
   * The subtree at node j holds exactly the words of length len that start with prefix: a leaf names
   * the only one, or says there is none; an inner node covers the next character of all of them and has
   * a subtree for every character in its range.
   */
  ghost predicate Covers(t: Tables, function_: bool, j: nat, len: nat, prefix: seq<Byte>)
    requires |t.toUpper| == 256 && |prefix| <= len
    decreases len - |prefix|
  {
    && 4 * j + 4 <= |t.Map(function_)|
    && var w := Uint4Korr(t.Map(function_), 4 * j);
    if FirstChar(w) == 0 then
      match Decode(t, SignedHigh16(w))
      case None => forall e :: !t.StartsWith(function_, e, len, prefix)
      case Some(leaf) => forall e :: t.StartsWith(function_, e, len, prefix) <==> e == leaf
    else
      && |prefix| < len
      && (forall e :: t.StartsWith(function_, e, len, prefix) ==>
            FirstChar(w) <= t.Upper(t.Name(function_, e))[|prefix|] <= LastChar(w))
      && (forall c: Byte :: FirstChar(w) <= c <= LastChar(w) ==>
            Covers(t, function_, High16(w) + c - FirstChar(w), len, prefix + [c]))
  }

  /** No two keywords that can be looked up together have the same upper-case form. */
  ghost predicate DuplicateFree(t: Tables, function_: bool)
    requires |t.toUpper| == 256
  {
    forall d, e | t.Has(function_, d) && t.Has(function_, e) ::
      t.Upper(t.Name(function_, d)) == t.Upper(t.Name(function_, e)) ==> d == e
  }

  ghost predicate WellFormed(t: Tables, function_: bool)
  {
    && |t.toUpper| == 256
    && DuplicateFree(t, function_)
    && (forall e :: t.Has(function_, e) ==> 0 < |t.Name(function_, e)| <= t.MaxLen(function_))
    && (forall len :: 0 < len <= t.MaxLen(function_) ==> Rooted(t, function_, len))
  }

  /** The words of length len have their subtree at node len - 1. */
  ghost predicate Rooted(t: Tables, function_: bool, len: nat)
    requires |t.toUpper| == 256
  {
    len > 0 && Covers(t, function_, len - 1, len, [])
  }

  // ------------------------------------------------------------------
  // The reference: a linear search
  // ------------------------------------------------------------------

  /** e is the word key, up to case. */
  predicate Matches(t: Tables, function_: bool, e: Entry, key: seq<Byte>)
    requires |t.toUpper| == 256
  {
    t.Has(function_, e) && |t.Name(function_, e)| == |key| && t.Upper(t.Name(function_, e)) == t.Upper(key)
  }

  /** The first match among the symbols, and in function mode then among the functions. */
  function LinearSearch(t: Tables, function_: bool, key: seq<Byte>): Option<Entry>
    requires |t.toUpper| == 256
  {
    var s := FirstSymbol(t, function_, key, 0);
    if s.None? && function_ then FirstFunction(t, key, 0) else s
  }

  function FirstSymbol(t: Tables, function_: bool, key: seq<Byte>, from: nat): (r: Option<Entry>)
    requires |t.toUpper| == 256 && from <= |t.symbols|
    ensures r.Some? ==> r.value.Symbol? && Matches(t, function_, r.value, key)
    ensures r.None? ==> forall i :: from <= i < |t.symbols| ==> !Matches(t, function_, Symbol(i), key)
    decreases |t.symbols| - from
  {
    if from == |t.symbols| then None
    else if Matches(t, function_, Symbol(from), key) then Some(Symbol(from))
    else FirstSymbol(t, function_, key, from + 1)
  }

  function FirstFunction(t: Tables, key: seq<Byte>, from: nat): (r: Option<Entry>)
    requires |t.toUpper| == 256 && from <= |t.functions|
    ensures r.Some? ==> r.value.SqlFunction? && Matches(t, true, r.value, key)
    ensures r.None? ==> forall i :: from <= i < |t.functions| ==> !Matches(t, true, SqlFunction(i), key)
    decreases |t.functions| - from
  {
    if from == |t.functions| then None
    else if Matches(t, true, SqlFunction(from), key) then Some(SqlFunction(from))
    else FirstFunction(t, key, from + 1)
  }

  /** In a duplicate-free table the linear search finds an entry exactly when it matches. */
  lemma LinearSearchIsMatch(t: Tables, function_: bool, key: seq<Byte>, e: Entry)
    requires |t.toUpper| == 256 && DuplicateFree(t, function_)
    ensures LinearSearch(t, function_, key) == Some(e) <==> Matches(t, function_, e, key)
  {
    var r := LinearSearch(t, function_, key);
    if r.Some? {
      assert Matches(t, function_, r.value, key);
      if Matches(t, function_, e, key) {
        assert t.Upper(t.Name(function_, e)) == t.Upper(t.Name(function_, r.value));
      }
    } else if t.Has(function_, e) {
      assert e.Symbol? ==> !Matches(t, function_, Symbol(e.index), key);
      assert e.SqlFunction? ==> !Matches(t, true, SqlFunction(e.index), key);
    }
  }

  lemma LinearSearchIsNone(t: Tables, function_: bool, key: seq<Byte>)
    requires |t.toUpper| == 256 && DuplicateFree(t, function_)
    requires forall e :: !Matches(t, function_, e, key)
    ensures LinearSearch(t, function_, key) == None
  {
  }
}

module LexHash {
  import opened Wrappers
  import opened LexTables

  /** A match starts with every prefix of the upper-case key. */
  lemma MatchStarts(t: Tables, function_: bool, e: Entry, key: seq<Byte>, k: nat)
    requires |t.toUpper| == 256 && k <= |key| && Matches(t, function_, e, key)
    ensures t.StartsWith(function_, e, |key|, t.Upper(key[..k]))
    ensures k < |key| ==> t.Upper(t.Name(function_, e))[k] == t.toUpper[key[k]]
  {
    assert t.Upper(key[..k]) == t.Upper(key)[..k];
  }

  /** A word that starts with the first k characters of the key is the key when the others agree too. */
  lemma RestDecides(t: Tables, function_: bool, e: Entry, key: seq<Byte>, k: nat)
    requires |t.toUpper| == 256 && k <= |key|
    requires t.StartsWith(function_, e, |key|, t.Upper(key[..k]))
    ensures Matches(t, function_, e, key) <==> t.Upper(t.Name(function_, e)[k..]) == t.Upper(key[k..])
  {
    var name := t.Name(function_, e);
    assert t.Upper(name) == t.Upper(name)[..k] + t.Upper(name)[k..];
    assert t.Upper(key) == t.Upper(key)[..k] + t.Upper(key)[k..];
    assert t.Upper(key[..k]) == t.Upper(key)[..k] && t.Upper(key[k..]) == t.Upper(key)[k..];
    assert t.Upper(name[k..]) == t.Upper(name)[k..];
  }

  /** get_hash_symbol on the first len bytes of s. */
  method GetHashSymbol(t: Tables, s: seq<Byte>, len: nat, function_: bool) returns (r: Option<Entry>)
    requires WellFormed(t, function_) && len <= |s|
    ensures r == LinearSearch(t, function_, s[..len])
  {
    hide Covers, DuplicateFree, LinearSearch, Uint4Korr, FirstChar, LastChar, High16, SignedHigh16;
    ghost var key := s[..len];
    if len == 0 {
      NoSuchLength(t, function_, key);
      return None;
    }
    if len > t.MaxLen(function_) {
      NoSuchLength(t, function_, key);
      return None;
    }
    var hashMap := t.Map(function_);
    assert Rooted(t, function_, len);
    NodeInMap(t, function_, len - 1, len, []);
    var cur := Uint4Korr(hashMap, (len - 1) * 4);
    var count := 0;
    ghost var j: nat := len - 1;
    assert t.Upper(key[..0]) == [];
    while true
      invariant count <= len && Covers(t, function_, j, len, t.Upper(key[..count]))
      invariant 4 * j + 4 <= |hashMap| && cur == Uint4Korr(hashMap, 4 * j)
      decreases len - count
    {
      var firstChar := FirstChar(cur);
      if firstChar == 0 {
        r := Leaf(t, function_, j, s, len, count, SignedHigh16(cur));
        return;
      }
      InnerNode(t, function_, j, len, t.Upper(key[..count]));
      var curChar := t.toUpper[s[count]];
      if curChar < firstChar {
        NotCovered(t, function_, j, key, count);
        return None;
      }
      if curChar > LastChar(cur) {
        NotCovered(t, function_, j, key, count);
        return None;
      }
      Child(t, function_, j, len, t.Upper(key[..count]), curChar);
      assert t.Upper(key[..count + 1]) == t.Upper(key[..count]) + [curChar];
      j := High16(cur) + curChar - firstChar;
      cur := Uint4Korr(hashMap, (High16(cur) + curChar - firstChar) * 4);
      count := count + 1;
    }
  }

  lemma NodeInMap(t: Tables, function_: bool, j: nat, len: nat, prefix: seq<Byte>)
    requires |t.toUpper| == 256 && |prefix| <= len && Covers(t, function_, j, len, prefix)
    ensures 4 * j + 4 <= |t.Map(function_)|
  {
  }

  /** An inner node is reached only while characters are left. */
  lemma InnerNode(t: Tables, function_: bool, j: nat, len: nat, prefix: seq<Byte>)
    requires |t.toUpper| == 256 && |prefix| <= len && Covers(t, function_, j, len, prefix)
    requires FirstChar(Uint4Korr(t.Map(function_), 4 * j)) != 0
    ensures |prefix| < len
  {
  }

  lemma Child(t: Tables, function_: bool, j: nat, len: nat, prefix: seq<Byte>, c: Byte)
    requires |t.toUpper| == 256 && |prefix| < len && Covers(t, function_, j, len, prefix)
    requires 0 < FirstChar(Uint4Korr(t.Map(function_), 4 * j)) <= c <= LastChar(Uint4Korr(t.Map(function_), 4 * j))
    ensures
      var w := Uint4Korr(t.Map(function_), 4 * j);
      var child := High16(w) + c - FirstChar(w);
      Covers(t, function_, child, len, prefix + [c]) && 4 * child + 4 <= |t.Map(function_)|
  {
    var w := Uint4Korr(t.Map(function_), 4 * j);
    NodeInMap(t, function_, High16(w) + c - FirstChar(w), len, prefix + [c]);
  }

  /** When the next character is outside the range of an inner node, the key is no keyword. */
  lemma NotCovered(t: Tables, function_: bool, j: nat, key: seq<Byte>, count: nat)
    requires WellFormed(t, function_) && count < |key|
    requires Covers(t, function_, j, |key|, t.Upper(key[..count]))
    requires FirstChar(Uint4Korr(t.Map(function_), 4 * j)) != 0
    requires
      var w := Uint4Korr(t.Map(function_), 4 * j);
      !(FirstChar(w) <= t.toUpper[key[count]] <= LastChar(w))
    ensures LinearSearch(t, function_, key) == None
  {
    forall e
      ensures !Matches(t, function_, e, key)
    {
      if Matches(t, function_, e, key) {
        MatchStarts(t, function_, e, key, count);
      }
    }
    LinearSearchIsNone(t, function_, key);
  }

  /** The leaf branch: decode the signed code and compare the characters not yet consumed. */
  method Leaf(t: Tables, function_: bool, ghost j: nat, s: seq<Byte>, len: nat, count: nat, code: int)
    returns (r: Option<Entry>)
    requires WellFormed(t, function_) && count <= len <= |s|
    requires Covers(t, function_, j, len, t.Upper(s[..len][..count]))
    requires FirstChar(Uint4Korr(t.Map(function_), 4 * j)) == 0
    requires code == SignedHigh16(Uint4Korr(t.Map(function_), 4 * j))
    ensures r == LinearSearch(t, function_, s[..len])
  {
    ghost var key := s[..len];
    ghost var prefix := t.Upper(key[..count]);
    if code == |t.symbols| {
      forall e
        ensures !Matches(t, function_, e, key)
      {
        if Matches(t, function_, e, key) {
          MatchStarts(t, function_, e, key, count);
        }
      }
      LinearSearchIsNone(t, function_, key);
      return None;
    }
    var res := if code >= 0 then Symbol(code) else SqlFunction(-code - 1);
    assert t.StartsWith(function_, res, len, prefix);
    RestDecides(t, function_, res, key, count);
    LinearSearchIsMatch(t, function_, key, res);
    assert key[count..] == s[count..len];
    if t.Upper(s[count..len]) == t.Upper(t.Name(function_, res)[count..]) {
      return Some(res);
    }
    forall e
      ensures !Matches(t, function_, e, key)
    {
      if Matches(t, function_, e, key) {
        MatchStarts(t, function_, e, key, count);
      }
    }
    LinearSearchIsNone(t, function_, key);
    return None;
  }

  lemma NoSuchLength(t: Tables, function_: bool, key: seq<Byte>)
    requires WellFormed(t, function_) && (|key| == 0 || |key| > t.MaxLen(function_))
    ensures LinearSearch(t, function_, key) == None
  {
    LinearSearchIsNone(t, function_, key);
  }

  // ------------------------------------------------------------------
  // A small pair of maps in the generated layout
  // ------------------------------------------------------------------

  /** ASCII upper case, as to_upper_lex has it. */
  function AsciiUpper(): (u: seq<Byte>)
    ensures |u| == 256
  {
    seq(256, i requires 0 <= i < 256 => if 'a' as int <= i <= 'z' as int then i - 32 else i)
  }

  /** Symbols A and B, function C, all of length 1: one inner node and its leaves in each map. */
  function Sample(): Tables
  {
    Tables([[65], [66]], [[67]], AsciiUpper(),
           [65, 66, 1, 0,  0, 0, 0, 0,  0, 0, 1, 0],
           [65, 67, 1, 0,  0, 0, 0, 0,  0, 0, 1, 0,  0, 0, 255, 255], 1, 1)
  }

  function SampleLast(function_: bool): Byte { if function_ then 67 else 66 }

  function SampleEntry(c: Byte): Entry
    requires 65 <= c <= 67
  {
    if c == 67 then SqlFunction(0) else Symbol(c - 65)
  }

  ghost predicate SampleLeafNode(function_: bool, c: Byte)
    requires 65 <= c <= SampleLast(function_)
  {
    var w := Uint4Korr(Sample().Map(function_), 4 * (c - 64));
    FirstChar(w) == 0 && Decode(Sample(), SignedHigh16(w)) == Some(SampleEntry(c))
  }

  lemma SampleNodes(function_: bool)
    ensures |Sample().Map(function_)| == 4 * (SampleLast(function_) - 63)
    ensures
      var w := Uint4Korr(Sample().Map(function_), 0);
      FirstChar(w) == 65 && LastChar(w) == SampleLast(function_) && High16(w) == 1
    ensures forall c: Byte | 65 <= c <= SampleLast(function_) :: SampleLeafNode(function_, c)
  {
    var m := Sample().Map(function_);
    assert Uint4Korr(m, 0) == 65 + SampleLast(function_) * 0x100 + 0x1_0000;
    assert Uint4Korr(m, 4) == 0 && Uint4Korr(m, 8) == 0x1_0000;
    assert function_ ==> Uint4Korr(m, 12) == 0xFFFF_0000;
    forall c: Byte | 65 <= c <= SampleLast(function_)
      ensures SampleLeafNode(function_, c)
    {
      var w := Uint4Korr(m, 4 * (c - 64));
      assert w == if c == 65 then 0 else if c == 66 then 0x1_0000 else 0xFFFF_0000;
    }
  }

  lemma SampleWord(function_: bool, c: Byte)
    requires 65 <= c <= SampleLast(function_)
    ensures
      var t := Sample();
      t.Has(function_, SampleEntry(c)) && t.Name(function_, SampleEntry(c)) == [c] && t.Upper([c]) == [c]
  {
  }

  lemma SampleOnly(function_: bool, e: Entry) returns (c: Byte)
    requires Sample().Has(function_, e)
    ensures 65 <= c <= SampleLast(function_) && e == SampleEntry(c)
  {
    c := if e.Symbol? then 65 + e.index else 67;
  }

  lemma SampleLeaf(function_: bool, c: Byte)
    requires 65 <= c <= SampleLast(function_)
    ensures Covers(Sample(), function_, c - 64, 1, [c])
  {
    hide Sample, Uint4Korr, FirstChar, LastChar, High16, SignedHigh16, Decode, SampleLast;
    SampleNodes(function_);
    SampleSize(function_);
    SampleWord(function_, c);
    assert SampleLeafNode(function_, c);
    var t := Sample();
    forall e
      ensures t.StartsWith(function_, e, 1, [c]) <==> e == SampleEntry(c)
    {
      if t.Has(function_, e) {
        var d := SampleOnly(function_, e);
        SampleWord(function_, d);
        assert [c] <= [d] ==> [c][0] == [d][0];
      }
    }
  }

  lemma SampleSize(function_: bool)
    ensures |Sample().toUpper| == 256 && Sample().MaxLen(function_) == 1 && 65 < SampleLast(function_) <= 67
  {
  }

  /** The well-formedness the lookup relies on can be met, signed function codes included. */
  lemma SampleIsWellFormed(function_: bool)
    ensures WellFormed(Sample(), function_)
  {
    hide Sample, Uint4Korr, FirstChar, LastChar, High16, SignedHigh16, Decode, SampleLast;
    SampleNodes(function_);
    SampleSize(function_);
    var t := Sample();
    forall e | t.Has(function_, e)
      ensures |t.Name(function_, e)| == 1 && t.Upper(t.Name(function_, e)) == t.Name(function_, e)
      ensures 65 <= t.Name(function_, e)[0] <= SampleLast(function_) && e == SampleEntry(t.Name(function_, e)[0])
    {
      var c := SampleOnly(function_, e);
      SampleWord(function_, c);
    }
    forall c: Byte | 65 <= c <= SampleLast(function_)
      ensures Covers(Sample(), function_, c - 64, 1, [] + [c])
    {
      SampleLeaf(function_, c);
      assert [] + [c] == [c];
    }
    assert Rooted(Sample(), function_, 1);
  }

  /** In these maps "a" is found as the symbol A, and "c" as the function C, where functions are looked up at all. */
  lemma SampleIgnoresCase()
    ensures LinearSearch(Sample(), false, [97]) == Some(Symbol(0))
    ensures LinearSearch(Sample(), true, [99]) == Some(SqlFunction(0))
    ensures LinearSearch(Sample(), false, [99]) == None
  {
    hide WellFormed, LinearSearch, DuplicateFree;
    SampleIsDuplicateFree();
    var t := Sample();
    assert t.Upper([97]) == [65] && t.Upper([65]) == [65] && t.Upper([99]) == [67] && t.Upper([67]) == [67];
    LinearSearchIsMatch(t, false, [97], Symbol(0));
    LinearSearchIsMatch(t, true, [99], SqlFunction(0));
    forall e
      ensures !Matches(t, false, e, [99])
    {
      if t.Has(false, e) {
        var c := SampleOnly(false, e);
        SampleWord(false, c);
        assert [c][0] != [67][0];
      }
    }
    LinearSearchIsNone(t, false, [99]);
  }

  lemma SampleIsDuplicateFree()
    ensures DuplicateFree(Sample(), false) && DuplicateFree(Sample(), true) && |Sample().toUpper| == 256
  {
    SampleIsWellFormed(false);
    SampleIsWellFormed(true);
  }
}
