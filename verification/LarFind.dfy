/**
 * The archive search of package/luci-0.11/contrib/lar/lar.c:259-309: a package name is cut at its separators,
 * and its segment prefixes are tried as archive files, longest first.
 */
module LarPaths {
  import opened Wrappers

  /** LAR_DIRSEP on everything but Windows (lar.h:53-57). */
  const DIRSEP: char := '/'
  const SUFFIX: string := ".lar"
  /** sizeof(buffer) (lar.h:47-48). */
  const SIZE: nat := 1024

  function Split(s: string, sep: char): (r: seq<string>)
    ensures r != []
  {
    if s == [] then [""]
    else if s[0] == sep then [""] + Split(s[1..], sep)
    else
      var rest := Split(s[1..], sep);
      [[s[0]] + rest[0]] + rest[1..]
  }

  function Join(parts: seq<string>, sep: char): string
  {
    if parts == [] then [] else if |parts| == 1 then parts[0] else parts[0] + [sep] + Join(parts[1..], sep)
  }

  /** The segments are exactly what lies between the separators. */
  lemma {:induction false} JoinSplit(s: string, sep: char)
    ensures Join(Split(s, sep), sep) == s
    ensures forall i :: 0 <= i < |Split(s, sep)| ==> sep !in Split(s, sep)[i]
  {
    if s != [] {
      JoinSplit(s[1..], sep);
      var rest := Split(s[1..], sep);
      if s[0] == sep {
        assert ([""] + rest)[1..] == rest;
      } else {
        var r := [[s[0]] + rest[0]] + rest[1..];
        assert r[1..] == rest[1..];
        assert Join(r, sep) == [s[0]] + Join(rest, sep);
      }
    }
  }

  /** path[pln], but for no path: the byte that memory holds just before the buffer is read in its place. */
  function LastChar(path: string, before: char): char
  {
    if path == [] then before else path[|path| - 1]
  }

  /** The base path with the separator it needs. */
  function Base(path: string, before: char): string
  {
    if LastChar(path, before) != '/' then path + "/" else path
  }

  /** What the second length test allows for a package name: an unsigned difference of 32 bits. */
  function NameLimit(pln: nat): nat { (SIZE - 5 - pln) % 0x1_0000_0000 }

  /** The longest path that passes the first length test, with a slash still to be added. */
  predicate NoRoomForSlash(path: string)
  {
    |path| == SIZE - 5 && path[|path| - 1] != '/'
  }

  /** The positions that the longest candidate and the end of its string take up. */
  function Extent(base: string, package: string): nat { |base| + |package| + |SUFFIX| + 1 }

  /** Whatever passes both length tests fits the buffer, exactly if there was room for the slash. */
  lemma FitsIff(path: string, before: char, package: string)
    requires |path| <= SIZE - 5 && |package| <= NameLimit(|Base(path, before)|)
    ensures Extent(Base(path, before), package) <= SIZE <==> !NoRoomForSlash(path)
  {
    if NoRoomForSlash(path) {
      assert |Base(path, before)| == SIZE - 4;
    } else {
      assert |Base(path, before)| <= SIZE - 5;
    }
  }

  /** A path and an empty name that pass both tests and do not fit. */
  lemma LongestPathOverruns(before: char)
    ensures
      var path := seq(SIZE - 5, _ => 'a');
      var base := Base(path, before);
      |path| == 1019 && |""| <= NameLimit(|base|) && Extent(base, "") == SIZE + 1 == 1025
  {
    var path := seq(SIZE - 5, _ => 'a');
    assert path[SIZE - 6] == 'a';
  }

  /** The file for the first m segments of a package name. */
  function Candidate(base: string, package: string, sep: char, m: nat): string
    requires m <= |Split(package, sep)|
  {
    base + Join(Split(package, sep)[..m], DIRSEP) + SUFFIX
  }

  /** Without a path, whether the search begins at the root or where the program runs depends on that byte. */
  lemma NoPathReadsBefore(before: char, package: string, sep: char, m: nat)
    requires m <= |Split(package, sep)|
    ensures
      Candidate(Base("", before), package, sep, m) == Candidate("", package, sep, m) <==> before == '/'
    ensures before != '/' ==> Base("", before) == "/"
  {
    hide Join, Split;
    var tail := Join(Split(package, sep)[..m], DIRSEP) + SUFFIX;
    assert "" + Join(Split(package, sep)[..m], DIRSEP) + SUFFIX == tail;
    assert |Candidate("", package, sep, m)| == |tail|;
    if before != '/' {
      assert |Candidate(Base("", before), package, sep, m)| == |tail| + 1;
    }
  }

  /** The candidates of n, n - 1, ..., m segments. */
  function Candidates(base: string, package: string, sep: char, n: nat, m: nat): seq<string>
    requires n <= |Split(package, sep)|
    decreases n
  {
    if n < m || n == 0 then [] else [Candidate(base, package, sep, n)] + Candidates(base, package, sep, n - 1, m)
  }

  lemma {:induction false} CandidatesSnoc(base: string, package: string, sep: char, n: nat, m: nat)
    requires 1 <= m <= n <= |Split(package, sep)|
    ensures
      Candidates(base, package, sep, n, m) ==
      Candidates(base, package, sep, n, m + 1) + [Candidate(base, package, sep, m)]
    decreases n
  {
    if m < n {
      CandidatesSnoc(base, package, sep, n - 1, m);
    } else {
      assert Candidates(base, package, sep, n - 1, m) == [];
      assert Candidates(base, package, sep, n, m + 1) == [];
    }
  }

  /** What the copying loop writes from s when seg segments are still to be kept. */
  function Copied(s: string, sep: char, seg: nat): string
  {
    if s == [] then []
    else if s[0] == sep then (if seg > 1 then [DIRSEP] + Copied(s[1..], sep, seg - 1) else [])
    else [s[0]] + Copied(s[1..], sep, seg)
  }

  /** The loop that counts separators keeps exactly the first seg segments. */
  lemma {:induction false} CopiedIsJoin(s: string, sep: char, seg: nat)
    requires 1 <= seg <= |Split(s, sep)|
    ensures Copied(s, sep, seg) == Join(Split(s, sep)[..seg], DIRSEP)
  {
    hide Join, Split, Copied;
    if s == [] {
      CopiedFirst(s, sep, seg);
    } else if s[0] != sep {
      JoinCharacter(s, sep, seg);
      CopiedIsJoin(s[1..], sep, seg);
    } else if seg > 1 {
      SeparatorSegments(s, sep);
      CopiedIsJoin(s[1..], sep, seg - 1);
      JoinSeparator(s, sep, seg);
    } else {
      CopiedFirst(s, sep, seg);
    }
  }

  lemma CopiedFirst(s: string, sep: char, seg: nat)
    requires 1 <= seg <= |Split(s, sep)| && (s == [] || (s[0] == sep && seg == 1))
    ensures Copied(s, sep, seg) == Join(Split(s, sep)[..seg], DIRSEP) == []
  {
    assert Split(s, sep)[..seg] == [""];
  }

  lemma SeparatorSegments(s: string, sep: char)
    requires s != [] && s[0] == sep
    ensures |Split(s, sep)| == 1 + |Split(s[1..], sep)|
  {
  }

  lemma JoinSeparator(s: string, sep: char, seg: nat)
    requires s != [] && s[0] == sep && 1 < seg <= |Split(s, sep)| == 1 + |Split(s[1..], sep)|
    ensures Join(Split(s, sep)[..seg], DIRSEP) == [DIRSEP] + Join(Split(s[1..], sep)[..seg - 1], DIRSEP)
    ensures Copied(s, sep, seg) == [DIRSEP] + Copied(s[1..], sep, seg - 1)
  {
    var rest := Split(s[1..], sep);
    assert Split(s, sep)[..seg] == [""] + rest[..seg - 1];
    assert ([""] + rest[..seg - 1])[1..] == rest[..seg - 1];
  }

  lemma JoinCharacter(s: string, sep: char, seg: nat)
    requires s != [] && s[0] != sep && 1 <= seg <= |Split(s, sep)|
    ensures |Split(s, sep)| == |Split(s[1..], sep)|
    ensures Join(Split(s, sep)[..seg], DIRSEP) == [s[0]] + Join(Split(s[1..], sep)[..seg], DIRSEP)
    ensures Copied(s, sep, seg) == [s[0]] + Copied(s[1..], sep, seg)
  {
    hide Join;
    var rest := Split(s[1..], sep);
    assert Split(s, sep)[..seg] == [[s[0]] + rest[..seg][0]] + rest[..seg][1..];
    JoinHead(s[0], rest[..seg], DIRSEP);
  }

  lemma JoinHead(c: char, parts: seq<string>, sep: char)
    requires parts != []
    ensures Join([[c] + parts[0]] + parts[1..], sep) == [c] + Join(parts, sep)
  {
    var r := [[c] + parts[0]] + parts[1..];
    if |parts| == 1 {
      assert r == [[c] + parts[0]];
    } else {
      assert r[1..] == parts[1..];
      assert [c] + (parts[0] + [sep] + Join(parts[1..], sep)) == ([c] + parts[0]) + [sep] + Join(parts[1..], sep);
    }
  }

  /** All segments are the whole name, separators included. */
  lemma {:induction false} CopiedWhole(s: string, sep: char, seg: nat)
    requires seg >= |Split(s, sep)|
    ensures |Copied(s, sep, seg)| == |s|
  {
    if s == [] {
      assert Copied(s, sep, seg) == [];
    } else {
      CopiedWhole(s[1..], sep, if s[0] == sep then seg - 1 else seg);
    }
  }

  function Count(s: string, c: char): nat
  {
    if s == [] then 0 else (if s[0] == c then 1 else 0) + Count(s[1..], c)
  }

  lemma {:induction false} CountSnoc(s: string, x: char, c: char)
    ensures Count(s + [x], c) == Count(s, c) + (if x == c then 1 else 0)
  {
    if s == [] {
      assert [x][1..] == [];
      assert s + [x] == [x];
    } else {
      assert (s + [x])[1..] == s[1..] + [x];
      CountSnoc(s[1..], x, c);
    }
  }

  lemma {:induction false} SplitCount(s: string, sep: char)
    ensures |Split(s, sep)| == 1 + Count(s, sep)
  {
    if s == [] {
    } else {
      SplitCount(s[1..], sep);
    }
  }

  lemma {:induction false} CopiedShort(s: string, sep: char, seg: nat)
    ensures |Copied(s, sep, seg)| <= |s|
    ensures '\0' !in s ==> '\0' !in Copied(s, sep, seg)
  {
    if s == [] {
    } else {
      CopiedShort(s[1..], sep, seg);
      if seg > 1 {
        CopiedShort(s[1..], sep, seg - 1);
      }
    }
  }

  /** The string that starts at the head of a buffer. */
  function CString(buffer: seq<char>): string
  {
    if buffer == [] || buffer[0] == '\0' then [] else [buffer[0]] + CString(buffer[1..])
  }

  lemma {:induction false} CStringOf(s: string, rest: seq<char>)
    requires '\0' !in s
    ensures CString(s + ['\0'] + rest) == s
  {
    var b := s + ['\0'] + rest;
    if s == [] {
    } else {
      assert b[1..] == s[1..] + ['\0'] + rest;
      CStringOf(s[1..], rest);
    }
  }

  /** S_IFREG, which is one bit of the file type in st_mode. */
  const S_IFREG: nat := 0x8000

  /** stat succeeds with a mode that has that bit. */
  predicate Passes(modeOf: string -> Option<nat>, file: string)
  {
    modeOf(file).Some? && HasRegularBit(modeOf(file).value)
  }

  predicate HasRegularBit(mode: nat) { mode / S_IFREG % 2 == 1 }

  /** The types of files: S_IFIFO, S_IFCHR, S_IFDIR, S_IFBLK, S_IFREG, S_IFLNK, S_IFSOCK. */
  function FileType(mode: nat): nat { mode / 0x1000 % 16 }

  predicate HasFileType(mode: nat) { FileType(mode) in [0x1, 0x2, 0x4, 0x6, 0x8, 0xA, 0xC] }

  /** Besides regular files the bit lets sockets pass, and links, which stat follows and so never reports. */
  lemma RegularBitIff(mode: nat)
    requires HasFileType(mode)
    ensures HasRegularBit(mode) <==> FileType(mode) in [0x8, 0xA, 0xC]
  {
    assert mode / S_IFREG == mode / 0x1000 / 8;
    assert HasRegularBit(mode) <==> FileType(mode) >= 8 by { BitOfType(mode / 0x1000); }
  }

  lemma BitOfType(n: nat)
    ensures n / 8 % 2 == 1 <==> n % 16 >= 8
  {
    var q, r := n / 16, n % 16;
    assert n == 16 * q + r && n / 8 == 2 * q + r / 8;
  }

  /** A socket passes: its mode is the type 0xC and any permissions. */
  lemma SocketPasses()
    ensures HasRegularBit(0xC1ED) && FileType(0xC1ED) == 0xC
  {
  }

  datatype Outcome =
    /** LAR_DIE: the path, or the path and the package name, do not fit the buffer. */
    | PathTooLong | NameTooLong
    /** The file handed to lar_open, if any, and the files asked about. */
    | Searched(found: Option<string>, tried: seq<string>)

  /**
   * The longest prefix that passes the test is opened; it and all longer ones were tried, from the longest
   * down, and nothing else.
   */
  ghost predicate LongestFirst(base: string, package: string, sep: char, modeOf: string -> Option<nat>, o: Outcome)
  {
    var n := |Split(package, sep)|;
    && o.Searched?
    && match o.found
       case Some(file) =>
         exists m :: 1 <= m <= n && OpensAt(base, package, sep, modeOf, o.tried, file, m)
       case None =>
         && o.tried == Candidates(base, package, sep, n, 1)
         && forall m :: 1 <= m <= n ==> !Passes(modeOf, Candidate(base, package, sep, m))
  }

  ghost predicate OpensAt(base: string, package: string, sep: char, modeOf: string -> Option<nat>, tried: seq<string>,
                          file: string, m: nat)
    requires 1 <= m <= |Split(package, sep)|
  {
    var n := |Split(package, sep)|;
    && file == Candidate(base, package, sep, m) && Passes(modeOf, file)
    && tried == Candidates(base, package, sep, n, m)
    && forall k :: m < k <= n ==> !Passes(modeOf, Candidate(base, package, sep, k))
  }

  /** The candidates for a package of three segments. */
  lemma ExampleCandidates()
    ensures |Split("luci.model.uci", '.')| == 3
    ensures Candidate("/usr/lib/lua/", "luci.model.uci", '.', 3) == "/usr/lib/lua/luci/model/uci.lar"
    ensures Candidate("/usr/lib/lua/", "luci.model.uci", '.', 2) == "/usr/lib/lua/luci/model.lar"
    ensures Candidate("/usr/lib/lua/", "luci.model.uci", '.', 1) == "/usr/lib/lua/luci.lar"
  {
    hide Split, Join;
    var parts := ["luci", "model", "uci"];
    ExampleSplit();
    assert parts[..3] == parts && parts[..2] == ["luci", "model"] && parts[..1] == ["luci"];
    ExampleJoin();
    assert "/usr/lib/lua/" + "luci/model/uci" + ".lar" == "/usr/lib/lua/luci/model/uci.lar";
    assert "/usr/lib/lua/" + "luci/model" + ".lar" == "/usr/lib/lua/luci/model.lar";
    assert "/usr/lib/lua/" + "luci" + ".lar" == "/usr/lib/lua/luci.lar";
  }

  lemma ExampleJoin()
    ensures Join(["luci"], '/') == "luci"
    ensures Join(["luci", "model"], '/') == "luci/model"
    ensures Join(["luci", "model", "uci"], '/') == "luci/model/uci"
  {
    assert ["luci", "model"][1..] == ["model"];
    assert ["luci", "model", "uci"][1..] == ["model", "uci"] && ["model", "uci"][1..] == ["uci"];
    assert Join(["model", "uci"], '/') == "model" + ['/'] + "uci";
    assert "luci" + ['/'] + "model" == "luci/model" && "luci" + ['/'] + ("model" + ['/'] + "uci") == "luci/model/uci";
  }

  lemma ExampleSplit()
    ensures Split("luci.model.uci", '.') == ["luci", "model", "uci"]
  {
    hide Split;
    SplitWord("uci", '.');
    SplitAfterWord("model", "uci", '.');
    SplitAfterWord("luci", "model.uci", '.');
    assert "model" + ['.'] + "uci" == "model.uci" && "luci" + ['.'] + "model.uci" == "luci.model.uci";
  }

  lemma {:induction false} SplitWord(word: string, sep: char)
    requires sep !in word
    ensures Split(word, sep) == [word]
  {
    if word == [] {
    } else {
      SplitWord(word[1..], sep);
      assert word == [word[0]] + word[1..];
    }
  }

  lemma {:induction false} SplitAfterWord(word: string, more: string, sep: char)
    requires sep !in word
    ensures Split(word + [sep] + more, sep) == [word] + Split(more, sep)
  {
    var s := word + [sep] + more;
    if word == [] {
      assert s[1..] == more;
    } else {
      assert s[0] == word[0] && word[0] in word && s[1..] == word[1..] + [sep] + more;
      SplitAfterWord(word[1..], more, sep);
      assert ([word[1..]] + Split(more, sep))[1..] == Split(more, sep);
      assert word == [word[0]] + word[1..];
    }
  }

  /** What ends the search, told by the type of file that stat reports: a regular file, a link or a socket. */
  predicate Ends(modeOf: string -> Option<nat>, file: string)
  {
    modeOf(file).Some? && FileType(modeOf(file).value) in [0x8, 0xA, 0xC]
  }

  /**
   * The result by types of files: the file of the longest prefix that ends the search was opened, no longer
   * one does; or nothing was, and none does.
   */
  lemma FoundByType(base: string, package: string, sep: char, modeOf: string -> Option<nat>, o: Outcome)
    requires LongestFirst(base, package, sep, modeOf, o)
    requires forall file: string :: modeOf(file).Some? ==> HasFileType(modeOf(file).value)
    ensures o.found.Some? ==>
      && Ends(modeOf, o.found.value) && |o.tried| > 0 && o.tried[|o.tried| - 1] == o.found.value
      && (forall i :: 0 <= i < |o.tried| - 1 ==> !Ends(modeOf, o.tried[i]))
    ensures o.found.None? ==>
      forall m :: 1 <= m <= |Split(package, sep)| ==> !Ends(modeOf, Candidate(base, package, sep, m))
    ensures forall i :: 0 <= i < |o.tried| ==>
      |Split(package, sep)| > i && o.tried[i] == Candidate(base, package, sep, |Split(package, sep)| - i)
  {
    hide Candidate, Split, HasRegularBit, FileType, HasFileType;
    forall file: string
      ensures Passes(modeOf, file) <==> Ends(modeOf, file)
    {
      if modeOf(file).Some? {
        RegularBitIff(modeOf(file).value);
      }
    }
    var n := |Split(package, sep)|;
    match o.found {
      case Some(file) =>
        var m :| 1 <= m <= n && OpensAt(base, package, sep, modeOf, o.tried, file, m);
        CandidatesAt(base, package, sep, n, m);
      case None => CandidatesAt(base, package, sep, n, 1);
    }
  }

  lemma {:induction false} CandidatesAt(base: string, package: string, sep: char, n: nat, m: nat)
    requires 1 <= m <= n + 1 && n <= |Split(package, sep)|
    ensures |Candidates(base, package, sep, n, m)| == n - m + 1
    ensures forall i :: 0 <= i < n - m + 1 ==>
      Candidates(base, package, sep, n, m)[i] == Candidate(base, package, sep, n - i)
  {
    hide Candidate, Split;
    if n < m {
    } else {
      CandidatesAt(base, package, sep, n - 1, m);
    }
  }
}

module LarFind {
  import opened Wrappers
  import opened LarPaths

  /** strcpy(&buffer[at], ".lar") */
  method CopySuffix(buffer: array<char>, at: nat)
    requires at + 5 <= buffer.Length
    modifies buffer
    ensures buffer[..] == old(buffer[..at]) + SUFFIX + ['\0'] + old(buffer[at + 5..])
  {
    buffer[at] := '.';
    buffer[at + 1] := 'l';
    buffer[at + 2] := 'a';
    buffer[at + 3] := 'r';
    buffer[at + 4] := '\0';
  }

  /** The copying loop for seg segments: returns how far it came. */
  method CopySegments(buffer: array<char>, pln: nat, package: string, sep: char, seg: nat) returns (i: nat)
    requires seg >= 1 && pln + |package| <= buffer.Length
    modifies buffer
    ensures i <= |package|
    ensures buffer[..pln + i] == old(buffer[..pln]) + Copied(package, sep, seg)
    ensures buffer[pln + i..] == old(buffer[pln + i..])
  {
    i := 0;
    var j := 1;
    ghost var all, was := buffer[..pln] + Copied(package, sep, seg), buffer[..];
    assert package[0..] == package;
    while i < |package| && j <= seg
      invariant 0 <= i <= |package| && 1 <= j <= seg
      invariant buffer[..pln + i] + Copied(package[i..], sep, seg - j + 1) == all
      invariant buffer[pln + i..] == was[pln + i..]
    {
      ghost var done, rest, after := buffer[..pln + i], package[i..], buffer[pln + i..];
      assert rest[1..] == package[i + 1..];
      if package[i] == sep {
        if j < seg {
          j := j + 1;
        } else {
          break;
        }
      }
      buffer[pln + i] := if package[i] == sep then DIRSEP else package[i];
      assert buffer[..pln + i + 1] == done + [buffer[pln + i]];
      assert buffer[pln + i + 1..] == after[1..] == was[pln + i + 1..];
      i := i + 1;
    }
  }

  /** The two loops that measure the path: true if it is too long. */
  method MeasurePath(path: string) returns (pln: nat, tooLong: bool)
    ensures tooLong <==> |path| > SIZE - 5
    ensures !tooLong ==> pln == |path|
  {
    pln, tooLong := 0, false;
    while pln < |path|
      invariant pln <= |path| && pln <= SIZE - 5
    {
      if pln >= SIZE - 5 {
        return pln, true;
      }
      pln := pln + 1;
    }
  }

  /** The loop that measures the package name against what is left, and counts its segments. */
  method MeasureName(package: string, sep: char, limit: nat) returns (seg: nat, tooLong: bool)
    ensures tooLong <==> |package| > limit
    ensures !tooLong ==> seg == |Split(package, sep)|
  {
    var len := 0;
    seg, tooLong := 1, false;
    while len < |package|
      invariant len <= |package| && len <= limit
      invariant seg == 1 + Count(package[..len], sep)
    {
      if len >= limit {
        return seg, true;
      }
      assert package[..len + 1] == package[..len] + [package[len]];
      CountSnoc(package[..len], package[len], sep);
      if package[len] == sep {
        seg := seg + 1;
      }
      len := len + 1;
    }
    assert package[..len] == package;
    SplitCount(package, sep);
  }

  /** memcpy(buffer, path, pln), and the slash if it is missing. */
  method WriteBase(memory: array<char>, path: string, before: char) returns (pln: nat)
    requires |Base(path, before)| <= memory.Length
    modifies memory
    ensures pln == |Base(path, before)| && memory[..pln] == Base(path, before)
    ensures memory[pln..] == old(memory[pln..])
  {
    pln := |path|;
    forall i | 0 <= i < pln {
      memory[i] := path[i];
    }
    assert memory[..pln] == path;
    if (if pln == 0 then before else memory[pln - 1]) != '/' {
      memory[pln] := '/';
      pln := pln + 1;
    }
  }

  /**
   * The memory begins with the buffer; before is the byte in front of it.  No path has the effect of an
   * empty one.  The second result is where the writing ended: nothing from there on has changed.
   */
  method LarFindArchive(memory: array<char>, before: char, package: string, path: Option<string>, pkg: bool,
                        modeOf: string -> Option<nat>) returns (o: Outcome, top: nat)
    requires '\0' !in package && '\0' !in Given(path) && |package| < 0x1_0000_0000
    requires memory.Length >= SIZE && memory.Length >= Extent(Base(Given(path), before), package)
    modifies memory
    ensures o.PathTooLong? <==> |Given(path)| > SIZE - 5
    ensures o.NameTooLong? <==>
      && |Given(path)| <= SIZE - 5 && !NoRoomForSlash(Given(path))
      && |Base(Given(path), before)| + |package| > SIZE - 5
    ensures o.Searched? ==>
      && LongestFirst(Base(Given(path), before), package, if pkg then '.' else '/', modeOf, o)
      && top == Extent(Base(Given(path), before), package)
    ensures path == None && o.Searched? ==>
      LongestFirst(Base("", before), package, if pkg then '.' else '/', modeOf, o)
    ensures top <= memory.Length && memory[top..] == old(memory[top..])
    ensures top <= SIZE <==> !NoRoomForSlash(Given(path))
  {
    hide Split, LongestFirst;
    var sep := if pkg then '.' else '/';
    top := 0;
    var pln, tooLong := MeasurePath(Given(path));
    if tooLong {
      return PathTooLong, 0;
    }
    pln := WriteBase(memory, Given(path), before);
    top := pln;
    var seg;
    seg, tooLong := MeasureName(package, sep, NameLimit(pln));
    if tooLong {
      return NameTooLong, pln;
    }
    FitsIff(Given(path), before, package);
    ghost var was := memory[..];
    o, top := Search(memory, pln, package, Base(Given(path), before), sep, seg, modeOf);
    assert memory[top..] == was[top..];
  }

  /** The null pointer copies nothing. */
  function Given(path: Option<string>): string { if path.Some? then path.value else "" }

  method Search(memory: array<char>, pln: nat, package: string, base: string, sep: char, n: nat,
                modeOf: string -> Option<nat>) returns (o: Outcome, top: nat)
    requires '\0' !in package && '\0' !in base
    requires n == |Split(package, sep)|
    requires Extent(base, package) <= memory.Length && pln == |base| && memory[..pln] == base
    modifies memory
    ensures o.Searched? && LongestFirst(base, package, sep, modeOf, o)
    ensures top == Extent(base, package) && memory[top..] == old(memory[top..])
  {
    hide Split, Candidate;
    var seg, tried := n, [];
    top := 0;
    while seg > 0
      invariant 0 <= seg <= n
      invariant memory[..pln] == base
      invariant top == if seg == n then 0 else Extent(base, package)
      invariant memory[Extent(base, package)..] == old(memory[Extent(base, package)..])
      invariant tried == Candidates(base, package, sep, n, seg + 1)
      invariant forall k :: seg < k <= n ==> !Passes(modeOf, Candidate(base, package, sep, k))
    {
      var file, end := WriteCandidate(memory, pln, package, base, sep, seg);
      top := if end > top then end else top;
      tried := tried + [file];
      CandidatesSnoc(base, package, sep, n, seg);
      if Passes(modeOf, file) {
        o := Searched(Some(file), tried);
        assert OpensAt(base, package, sep, modeOf, tried, file, seg);
        return;
      }
      seg := seg - 1;
    }
    o := Searched(None, tried);
  }

  /** One turn of the search: the file name as stat sees it, and where its end has been written. */
  method WriteCandidate(memory: array<char>, pln: nat, package: string, base: string, sep: char, seg: nat)
    returns (file: string, end: nat)
    requires '\0' !in package && '\0' !in base && 1 <= seg <= |Split(package, sep)|
    requires Extent(base, package) <= memory.Length && pln == |base| && memory[..pln] == base
    modifies memory
    ensures file == Candidate(base, package, sep, seg)
    ensures memory[..pln] == base
    ensures end <= Extent(base, package) && (seg == |Split(package, sep)| ==> end == Extent(base, package))
    ensures memory[Extent(base, package)..] == old(memory[Extent(base, package)..])
  {
    hide Split, Join, Copied, CString, Candidate;
    var i := CopySegments(memory, pln, package, sep, seg);
    ghost var written, rest := memory[..pln + i], memory[pln + i..];
    CopySuffix(memory, pln + i);
    end := pln + i + 5;
    CopiedShort(package, sep, seg);
    if seg == |Split(package, sep)| {
      CopiedWhole(package, sep, seg);
    }
    assert memory[..] == written + SUFFIX + ['\0'] + memory[end..];
    assert memory[end..] == rest[5..];
    CandidateRendered(base, package, sep, seg, memory[end..]);
    file := CString(memory[..]);
    assert memory[..pln] == memory[..][..pln] == written[..pln];
  }

  lemma CandidateRendered(base: string, package: string, sep: char, seg: nat, rest: seq<char>)
    requires '\0' !in package && '\0' !in base
    requires 1 <= seg <= |Split(package, sep)|
    ensures CString(base + Copied(package, sep, seg) + SUFFIX + ['\0'] + rest) == Candidate(base, package, sep, seg)
  {
    hide Split, Join, Copied, CString;
    CopiedIsJoin(package, sep, seg);
    CopiedShort(package, sep, seg);
    CStringOf(base + Copied(package, sep, seg) + SUFFIX, rest);
  }
}
