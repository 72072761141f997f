/**
 * The package selector of packages_12.09/admin/debootstrap/files/pkgdetails.c in its PKGS mode
 * (lines 40-47, 128-213 and 317-323): one pass over the lines of a Packages file, printing one line
 * for every requested name.
 */
module PkgDetailsSpec {
  import opened Wrappers

  /** A line of the file, as the chain of comparisons sees it. */
  datatype Line =
    | Package(value: string) | Version(value: string) | Architecture(value: string) | Size(value: string)
    | Checksum(value: string) | Filename(value: string) | Blank | Other

  function Lower(c: char): char { if 'A' <= c <= 'Z' then c - 'A' + 'a' else c }

  /** strncasecmp(line, prefix, strlen(prefix)) == 0 */
  predicate StartsWith(line: string, prefix: string)
  {
    |prefix| <= |line| && forall i :: 0 <= i < |prefix| ==> Lower(line[i]) == Lower(prefix[i])
  }

  predicate IsSpace(c: char)
  {
    c == ' ' || '\t' <= c <= '\r'
  }

  function SkipSpaces(s: string): string
  {
    if s != [] && IsSpace(s[0]) then SkipSpaces(s[1..]) else s
  }

  /** fieldcpy: what follows the first colon and the spaces after it. */
  function FieldValue(line: string): string
  {
    if line == [] then [] else if line[0] == ':' then SkipSpaces(line[1..]) else FieldValue(line[1..])
  }

  function Classify(line: string, checksumField: string): Line
  {
    if StartsWith(line, "Package:") then Package(FieldValue(line))
    else if StartsWith(line, "Version:") then Version(FieldValue(line))
    else if StartsWith(line, "Architecture:") then Architecture(FieldValue(line))
    else if StartsWith(line, "Size:") then Size(FieldValue(line))
    else if StartsWith(line, checksumField) && |line| > |checksumField| && line[|checksumField|] == ':' then
      Checksum(FieldValue(line))
    else if StartsWith(line, "Filename:") then Filename(FieldValue(line))
    else if line == [] then Blank
    else Other
  }

  /** The cur_ variables except for the package name: they keep their values from stanza to stanza. */
  datatype Fields = Fields(version: string, architecture: string, filename: string, checksum: string, size: string)

  function Update(f: Fields, line: Line): Fields
  {
    match line
    case Version(v) => f.(version := v)
    case Architecture(v) => f.(architecture := v)
    case Filename(v) => f.(filename := v)
    case Checksum(v) => f.(checksum := v)
    case Size(v) => f.(size := v)
    case _ => f
  }

  function Format(name: string, f: Fields, mirror: string): string
  {
    name + " " + f.version + " " + f.architecture + " " + mirror + " " + f.filename + " " + f.checksum + " " +
    f.size + "\n"
  }

  // ------------------------------------------------------------------
  // The pass over the lines
  // ------------------------------------------------------------------

  /** The variables of dopkgmirrorpkgs; a name that is dealt with leaves a hole in pkgs. */
  datatype State = State(pkg: string, field: string, fields: Fields, prev: string, output: Option<string>,
                         outputPkg: Option<nat>, pkgs: seq<Option<string>>, printed: seq<string>, stopped: bool)

  function Start(names: seq<string>, f: Fields): State
  {
    State("", "", f, "", None, None, seq(|names|, i requires 0 <= i < |names| => Some(names[i])), [], false)
  }

  /** The first name still wanted that equals x. */
  function Find(pkgs: seq<Option<string>>, x: string, from: nat): (r: Option<nat>)
    requires from <= |pkgs|
    ensures r.Some? ==> from <= r.value < |pkgs| && pkgs[r.value] == Some(x)
    ensures r.Some? ==> forall i :: from <= i < r.value ==> pkgs[i] != Some(x)
    ensures r.None? ==> forall i :: from <= i < |pkgs| ==> pkgs[i] != Some(x)
    decreases |pkgs| - from
  {
    if from == |pkgs| then None
    else if pkgs[from] == Some(x) then Some(from)
    else Find(pkgs, x, from + 1)
  }

  predicate AnyLeft(pkgs: seq<Option<string>>)
  {
    exists i :: 0 <= i < |pkgs| && pkgs[i].Some?
  }

  function Closed(s: State): State
  {
    if s.outputPkg.Some? && s.outputPkg.value < |s.pkgs| then s.(pkgs := s.pkgs[s.outputPkg.value := None]) else s
  }

  function Flushed(s: State): State
  {
    if s.output.Some? then s.(printed := s.printed + [s.output.value]) else s
  }

  function Step(s: State, line: Line, mirror: string): State
  {
    if s.stopped then s
    else
      match line
      case Package(v) =>
        var t := s.(pkg := v, field := v);
        var u := if v != s.prev then Closed(Flushed(t)).(prev := v) else t;
        u.(output := None, outputPkg := None)
      case Blank =>
        var found := Find(s.pkgs, s.field, 0);
        if !AnyLeft(s.pkgs) then s.(stopped := true)
        else if found.Some? then
          s.(output := Some(Format(s.pkg, s.fields, mirror)), outputPkg := found, field := "")
        else s.(field := "")
      case _ => s.(fields := Update(s.fields, line))
  }

  function Pass(s: State, lines: seq<Line>, mirror: string): State
    decreases |lines|
  {
    if lines == [] then s else Pass(Step(s, lines[0], mirror), lines[1..], mirror)
  }

  /** The lines for names that are still wanted at the end. */
  function NotFound(pkgs: seq<Option<string>>): seq<string>
  {
    if pkgs == [] then []
    else NotFoundLine(pkgs[0]) + NotFound(pkgs[1..])
  }

  function NotFoundLine(pkg: Option<string>): seq<string>
  {
    if pkg.Some? then [pkg.value + " -\n"] else []
  }

  lemma {:induction false} NotFoundMore(pkgs: seq<Option<string>>, pkg: Option<string>)
    ensures NotFound(pkgs + [pkg]) == NotFound(pkgs) + NotFoundLine(pkg)
  {
    hide NotFoundLine;
    if pkgs == [] {
      assert [] + [pkg] == [pkg] && [pkg][1..] == [];
      assert NotFound([]) == [];
    } else {
      assert (pkgs + [pkg])[1..] == pkgs[1..] + [pkg];
      NotFoundMore(pkgs[1..], pkg);
    }
  }

  function Result(s: State): seq<string>
  {
    var t := Closed(Flushed(s));
    t.printed + NotFound(t.pkgs)
  }

  // ------------------------------------------------------------------
  // The reference: stanzas and winners
  // ------------------------------------------------------------------

  /** A complete stanza: one Package line among other field lines, then a blank line. */
  datatype Stanza = Stanza(before: seq<Line>, name: string, after: seq<Line>)

  predicate FieldLines(ls: seq<Line>)
  {
    forall i :: 0 <= i < |ls| ==> !ls[i].Package? && !ls[i].Blank?
  }

  predicate Complete(ss: seq<Stanza>)
  {
    forall i :: 0 <= i < |ss| ==> FieldLines(ss[i].before) && FieldLines(ss[i].after)
  }

  function Lines(s: Stanza): seq<Line>
  {
    s.before + [Package(s.name)] + s.after + [Blank]
  }

  function File(ss: seq<Stanza>): seq<Line>
  {
    if ss == [] then [] else Lines(ss[0]) + File(ss[1..])
  }

  function UpdateAll(f: Fields, ls: seq<Line>): Fields
    decreases |ls|
  {
    if ls == [] then f else UpdateAll(Update(f, ls[0]), ls[1..])
  }

  /** The field values after the first k stanzas. */
  function FieldsAfter(f: Fields, ss: seq<Stanza>, k: nat): Fields
    requires k <= |ss|
  {
    if k == 0 then f else UpdateAll(UpdateAll(FieldsAfter(f, ss, k - 1), ss[k - 1].before), ss[k - 1].after)
  }

  /** The line for stanza j. */
  function Entry(f: Fields, ss: seq<Stanza>, j: nat, mirror: string): string
    requires j < |ss|
  {
    Format(ss[j].name, FieldsAfter(f, ss, j + 1), mirror)
  }

  /** Some stanza of that name comes before a stanza of another name, both among the first k. */
  predicate Over(ss: seq<Stanza>, name: string, k: nat)
    requires k <= |ss|
  {
    exists i :: 0 <= i < k && ss[i].name == name && OtherIn(ss, name, i, k)
  }

  predicate OtherIn(ss: seq<Stanza>, name: string, i: nat, k: nat)
    requires i < k <= |ss|
  {
    exists j :: i < j < k && ss[j].name != name
  }

  /** Stanza j closes the first run of consecutive stanzas of its name. */
  predicate Wins(ss: seq<Stanza>, names: seq<string>, j: nat)
    requires j < |ss|
  {
    && ss[j].name in names
    && !Over(ss, ss[j].name, j)
    && (j + 1 < |ss| ==> ss[j + 1].name != ss[j].name)
  }

  /** The entries of the winners among the first k stanzas, in file order. */
  function Winners(f: Fields, ss: seq<Stanza>, names: seq<string>, k: nat, mirror: string): seq<string>
    requires k <= |ss|
  {
    if k == 0 then []
    else
      Winners(f, ss, names, k - 1, mirror) + (if Wins(ss, names, k - 1) then [Entry(f, ss, k - 1, mirror)] else [])
  }

  predicate Occurs(ss: seq<Stanza>, name: string)
  {
    exists i :: 0 <= i < |ss| && ss[i].name == name
  }

  /** "name -" for every requested name without a stanza, in the order of the request. */
  function Absent(ss: seq<Stanza>, names: seq<string>): seq<string>
  {
    if names == [] then []
    else (if Occurs(ss, names[0]) then [] else [names[0] + " -\n"]) + Absent(ss, names[1..])
  }

  /** The first stanza of that name from i on, or the number of stanzas. */
  function FirstAt(ss: seq<Stanza>, name: string, i: nat): (r: nat)
    requires i <= |ss|
    ensures i <= r <= |ss| && (r < |ss| ==> ss[r].name == name)
    ensures forall m :: i <= m < r ==> ss[m].name != name
    decreases |ss| - i
  {
    if i == |ss| || ss[i].name == name then i else FirstAt(ss, name, i + 1)
  }

  /** The last stanza of the run of one name that goes on at i. */
  function RunEnd(ss: seq<Stanza>, i: nat): (r: nat)
    requires i < |ss|
    ensures i <= r < |ss| && ss[r].name == ss[i].name
    decreases |ss| - i
  {
    if i + 1 < |ss| && ss[i + 1].name == ss[i].name then RunEnd(ss, i + 1) else i
  }

  /** What a name should get: the entry of the last stanza of its first run, or "name -". */
  function LineFor(f: Fields, ss: seq<Stanza>, name: string, mirror: string): string
  {
    var first := FirstAt(ss, name, 0);
    if first < |ss| then Entry(f, ss, RunEnd(ss, first), mirror) else name + " -\n"
  }

  /** The lines for the names, in the order of the request. */
  function LinesFor(f: Fields, ss: seq<Stanza>, names: seq<string>, mirror: string): (r: seq<string>)
    ensures |r| == |names|
  {
    seq(|names|, i requires 0 <= i < |names| => LineFor(f, ss, names[i], mirror))
  }

  predicate Distinct(names: seq<string>)
  {
    forall i, j :: 0 <= i < j < |names| ==> names[i] != names[j]
  }

  // ------------------------------------------------------------------
  // Runs of stanzas
  // ------------------------------------------------------------------

  /** Only the name of the stanza just before can newly be over. */
  lemma OverStep(ss: seq<Stanza>, name: string, k: nat)
    requires k < |ss|
    ensures Over(ss, name, k + 1) <==> Over(ss, name, k) || (k > 0 && ss[k - 1].name == name && ss[k].name != name)
  {
    if Over(ss, name, k) {
      var i :| 0 <= i < k && ss[i].name == name && OtherIn(ss, name, i, k);
      assert OtherIn(ss, name, i, k + 1);
    }
    if k > 0 && ss[k - 1].name == name && ss[k].name != name {
      assert OtherIn(ss, name, k - 1, k + 1);
    }
    if Over(ss, name, k + 1) && !(k > 0 && ss[k - 1].name == name && ss[k].name != name) {
      var i :| 0 <= i < k + 1 && ss[i].name == name && OtherIn(ss, name, i, k + 1);
      var j :| i < j < k + 1 && ss[j].name != name;
      if j == k {
        assert i < k - 1 && ss[k - 1].name != name;
      }
      assert OtherIn(ss, name, i, k);
    }
  }

  /** Before the next stanza, a name that has occurred is over, unless it is the last one's. */
  lemma OccursOver(ss: seq<Stanza>, name: string, k: nat, i: nat)
    requires i < k <= |ss| && ss[i].name == name && ss[k - 1].name != name
    ensures Over(ss, name, k)
  {
    assert OtherIn(ss, name, i, k);
  }

  // ------------------------------------------------------------------
  // The pass keeps track
  // ------------------------------------------------------------------

  /** Whether, after k stanzas, the name of the last one is requested and still in its first run. */
  predicate Current(ss: seq<Stanza>, names: seq<string>, k: nat)
    requires 0 < k <= |ss|
  {
    ss[k - 1].name in names && !Over(ss, ss[k - 1].name, k)
  }

  ghost predicate Wanted(pkgs: seq<Option<string>>, ss: seq<Stanza>, names: seq<string>, k: nat)
    requires k <= |ss|
  {
    |pkgs| == |names| &&
    forall i :: 0 <= i < |names| ==> pkgs[i] == if Over(ss, names[i], k) then None else Some(names[i])
  }

  ghost predicate Pending(s: State, f: Fields, ss: seq<Stanza>, names: seq<string>, k: nat, mirror: string)
    requires k <= |ss|
  {
    if k > 0 && Current(ss, names, k) then
      && s.output == Some(Entry(f, ss, k - 1, mirror))
      && s.outputPkg.Some? && s.outputPkg.value < |names| && names[s.outputPkg.value] == ss[k - 1].name
    else
      s.output == None && s.outputPkg == None
  }

  /** After k stanzas, reading on. */
  ghost predicate Tracking(s: State, f: Fields, ss: seq<Stanza>, names: seq<string>, k: nat, mirror: string)
    requires k <= |ss|
  {
    && !s.stopped
    && s.prev == (if k == 0 then "" else ss[k - 1].name)
    && s.fields == FieldsAfter(f, ss, k)
    && Wanted(s.pkgs, ss, names, k)
    && Pending(s, f, ss, names, k, mirror)
    && s.printed == Winners(f, ss, names, if k == 0 then 0 else k - 1, mirror)
  }

  /** After k stanzas, every name dealt with. */
  ghost predicate Stopped(s: State, f: Fields, ss: seq<Stanza>, names: seq<string>, k: nat, mirror: string)
    requires k <= |ss|
  {
    && s.stopped && s.output == None && s.outputPkg == None
    && Wanted(s.pkgs, ss, names, k) && (forall i :: 0 <= i < |names| ==> Over(ss, names[i], k))
    && s.printed == Winners(f, ss, names, k, mirror)
  }

  /** After the Package line of stanza k, and possibly some field lines. */
  ghost predicate Named(s: State, f: Fields, ss: seq<Stanza>, names: seq<string>, k: nat, mirror: string)
    requires k < |ss|
  {
    && !s.stopped
    && s.prev == s.pkg == s.field == ss[k].name
    && Wanted(s.pkgs, ss, names, k + 1)
    && s.output == None && s.outputPkg == None
    && s.printed == Winners(f, ss, names, k, mirror)
  }

  lemma {:induction false} PassConcat(s: State, a: seq<Line>, b: seq<Line>, mirror: string)
    ensures Pass(s, a + b, mirror) == Pass(Pass(s, a, mirror), b, mirror)
    decreases |a|
  {
    hide Step;
    if a == [] {
      assert a + b == b;
    } else {
      assert (a + b)[1..] == a[1..] + b;
      PassConcat(Step(s, a[0], mirror), a[1..], b, mirror);
    }
  }

  /** Field lines only change the field values. */
  lemma {:induction false} PassFields(s: State, ls: seq<Line>, mirror: string)
    requires FieldLines(ls) && !s.stopped
    ensures Pass(s, ls, mirror) == s.(fields := UpdateAll(s.fields, ls))
    decreases |ls|
  {
    hide Update;
    if ls == [] {
    } else {
      PassFields(Step(s, ls[0], mirror), ls[1..], mirror);
    }
  }

  lemma {:induction false} PassStopped(s: State, ls: seq<Line>, mirror: string)
    requires s.stopped
    ensures Pass(s, ls, mirror) == s
    decreases |ls|
  {
    if ls == [] {
    } else {
      PassStopped(s, ls[1..], mirror);
    }
  }

  /** The Package line of stanza k: the pending entry is printed exactly when it wins. */
  lemma PackageLine(s: State, f: Fields, ss: seq<Stanza>, names: seq<string>, k: nat, mirror: string, g: Fields)
    requires k < |ss| && Distinct(names) && Tracking(s, f, ss, names, k, mirror)
    ensures Named(Step(s.(fields := g), Package(ss[k].name), mirror), f, ss, names, k, mirror)
    ensures Step(s.(fields := g), Package(ss[k].name), mirror).fields == g
  {
    hide Over, Entry, FieldsAfter;
    forall i | 0 <= i < |names|
      ensures Over(ss, names[i], k + 1) <==>
        Over(ss, names[i], k) || (k > 0 && ss[k - 1].name == names[i] && ss[k].name != names[i])
    {
      OverStep(ss, names[i], k);
    }
    if k > 0 {
      OverStep(ss, ss[k - 1].name, k - 1);
    }
  }

  /** The blank line: the entry becomes pending if the name is still wanted. */
  lemma BlankLine(s: State, f: Fields, ss: seq<Stanza>, names: seq<string>, k: nat, mirror: string)
    requires k < |ss| && Named(s, f, ss, names, k, mirror) && s.fields == FieldsAfter(f, ss, k + 1)
    ensures
      var t := Step(s, Blank, mirror);
      Tracking(t, f, ss, names, k + 1, mirror) || Stopped(t, f, ss, names, k + 1, mirror)
  {
    hide Over, FieldsAfter, Format;
    OverStep(ss, ss[k].name, k);
    if Current(ss, names, k + 1) {
      var i :| 0 <= i < |names| && names[i] == ss[k].name;
      assert s.pkgs[i] == Some(names[i]);
    } else {
      forall i | 0 <= i < |names|
        ensures s.pkgs[i] != Some(ss[k].name)
      {
        assert s.pkgs[i].Some? ==> names[i] in names;
      }
    }
  }

  /** What holds after the first k stanzas. */
  ghost predicate Good(s: State, f: Fields, ss: seq<Stanza>, names: seq<string>, k: nat, mirror: string)
    requires k <= |ss|
  {
    Tracking(s, f, ss, names, k, mirror) || Stopped(s, f, ss, names, k, mirror)
  }

  lemma NamedKeeps(s: State, f: Fields, ss: seq<Stanza>, names: seq<string>, k: nat, mirror: string, g: Fields)
    requires k < |ss| && Named(s, f, ss, names, k, mirror)
    ensures Named(s.(fields := g), f, ss, names, k, mirror)
  {
  }

  lemma PassOne(s: State, line: Line, mirror: string)
    ensures Pass(s, [line], mirror) == Step(s, line, mirror)
  {
    hide Step;
    assert [line][1..] == [];
    assert Pass(Step(s, line, mirror), [], mirror) == Step(s, line, mirror);
  }

  /** The four parts of a stanza, one after the other. */
  lemma PassStanza(s: State, z: Stanza, mirror: string)
    ensures
      Pass(s, Lines(z), mirror) ==
      Step(Pass(Step(Pass(s, z.before, mirror), Package(z.name), mirror), z.after, mirror), Blank, mirror)
  {
    hide Step, Pass;
    PassConcat(s, z.before + [Package(z.name)] + z.after, [Blank], mirror);
    PassConcat(s, z.before + [Package(z.name)], z.after, mirror);
    PassConcat(s, z.before, [Package(z.name)], mirror);
    PassOne(Pass(s, z.before, mirror), Package(z.name), mirror);
    PassOne(Pass(Pass(s, z.before + [Package(z.name)], mirror), z.after, mirror), Blank, mirror);
  }

  /** One whole stanza while reading on. */
  lemma TrackStanza(s: State, f: Fields, ss: seq<Stanza>, names: seq<string>, k: nat, mirror: string)
    requires k < |ss| && Distinct(names) && Complete(ss) && Tracking(s, f, ss, names, k, mirror)
    ensures Good(Pass(s, Lines(ss[k]), mirror), f, ss, names, k + 1, mirror)
  {
    hide Step, Pass, Wanted, Winners, Current, Pending, Distinct;
    var z := ss[k];
    PassStanza(s, z, mirror);
    PassFields(s, z.before, mirror);
    var g := UpdateAll(s.fields, z.before);
    PackageLine(s, f, ss, names, k, mirror, g);
    var t := Step(s.(fields := g), Package(z.name), mirror);
    PassFields(t, z.after, mirror);
    NamedKeeps(t, f, ss, names, k, mirror, UpdateAll(g, z.after));
    BlankLine(t.(fields := UpdateAll(g, z.after)), f, ss, names, k, mirror);
  }

  /** Once every name is dealt with no later stanza wins. */
  lemma StoppedStays(s: State, f: Fields, ss: seq<Stanza>, names: seq<string>, k: nat, mirror: string)
    requires k < |ss| && Stopped(s, f, ss, names, k, mirror)
    ensures Stopped(s, f, ss, names, k + 1, mirror)
  {
    hide Over, Entry;
    forall i | 0 <= i < |names|
      ensures Over(ss, names[i], k + 1)
    {
      OverStep(ss, names[i], k);
    }
    if ss[k].name in names {
      var i :| 0 <= i < |names| && names[i] == ss[k].name;
      assert Over(ss, names[i], k);
    }
  }

  lemma {:induction false} PassFile(s: State, f: Fields, ss: seq<Stanza>, names: seq<string>, k: nat, mirror: string)
    requires k <= |ss| && Distinct(names) && Complete(ss) && Good(s, f, ss, names, k, mirror)
    ensures Good(Pass(s, File(ss[k..]), mirror), f, ss, names, |ss|, mirror)
    decreases |ss| - k
  {
    hide Tracking, Stopped, Step;
    if k < |ss| {
      assert ss[k..][1..] == ss[k + 1..];
      PassConcat(s, Lines(ss[k]), File(ss[k + 1..]), mirror);
      var t := Pass(s, Lines(ss[k]), mirror);
      if Tracking(s, f, ss, names, k, mirror) {
        TrackStanza(s, f, ss, names, k, mirror);
      } else {
        IsStopped(s, f, ss, names, k, mirror);
        PassStopped(s, Lines(ss[k]), mirror);
        StoppedStays(s, f, ss, names, k, mirror);
      }
      PassFile(t, f, ss, names, k + 1, mirror);
    }
  }

  lemma IsStopped(s: State, f: Fields, ss: seq<Stanza>, names: seq<string>, k: nat, mirror: string)
    requires k <= |ss| && Stopped(s, f, ss, names, k, mirror)
    ensures s.stopped
  {
  }

  lemma StartTracks(f: Fields, ss: seq<Stanza>, names: seq<string>, mirror: string)
    ensures Tracking(Start(names, f), f, ss, names, 0, mirror)
  {
  }

  // ------------------------------------------------------------------
  // The output
  // ------------------------------------------------------------------

  /** The names left in pkgs at the end are those without a stanza. */
  ghost predicate OnlyAbsent(pkgs: seq<Option<string>>, ss: seq<Stanza>, names: seq<string>)
  {
    |pkgs| == |names| &&
    forall i :: 0 <= i < |names| ==> pkgs[i] == if Occurs(ss, names[i]) then None else Some(names[i])
  }

  lemma {:induction false} NotFoundIsAbsent(pkgs: seq<Option<string>>, ss: seq<Stanza>, names: seq<string>)
    requires OnlyAbsent(pkgs, ss, names)
    ensures NotFound(pkgs) == Absent(ss, names)
  {
    hide Occurs;
    if names == [] {
    } else {
      assert OnlyAbsent(pkgs[1..], ss, names[1..]);
      NotFoundIsAbsent(pkgs[1..], ss, names[1..]);
    }
  }

  /** At the end a name that has occurred is over, or its run is the last one. */
  lemma OccursAtEnd(ss: seq<Stanza>, name: string)
    ensures Occurs(ss, name) <==> Over(ss, name, |ss|) || (|ss| > 0 && ss[|ss| - 1].name == name)
  {
    if Occurs(ss, name) && !(|ss| > 0 && ss[|ss| - 1].name == name) {
      var i :| 0 <= i < |ss| && ss[i].name == name;
      OccursOver(ss, name, |ss|, i);
    }
  }

  lemma AtEnd(s: State, f: Fields, ss: seq<Stanza>, names: seq<string>, mirror: string)
    requires Distinct(names) && Good(s, f, ss, names, |ss|, mirror)
    ensures Closed(Flushed(s)).printed == Winners(f, ss, names, |ss|, mirror)
    ensures OnlyAbsent(Closed(Flushed(s)).pkgs, ss, names)
  {
    hide Over, Entry, Occurs;
    var k := |ss|;
    forall i | 0 <= i < |names|
      ensures Occurs(ss, names[i]) <==> Over(ss, names[i], k) || (k > 0 && ss[k - 1].name == names[i])
    {
      OccursAtEnd(ss, names[i]);
    }
    if k > 0 {
      OverStep(ss, ss[k - 1].name, k - 1);
    }
  }

  /**
   * For distinct names over complete stanzas the output is the winning stanzas' entries in file order,
   * then "name -" for the names without any.
   */
  lemma PassPrintsWinners(f: Fields, ss: seq<Stanza>, names: seq<string>, mirror: string)
    requires Distinct(names) && Complete(ss)
    ensures
      Result(Pass(Start(names, f), File(ss), mirror)) ==
      Winners(f, ss, names, |ss|, mirror) + Absent(ss, names)
  {
    hide Tracking, Stopped, Step, Pass, Winners, Absent, NotFound, Closed, Flushed;
    StartTracks(f, ss, names, mirror);
    assert ss[0..] == ss;
    PassFile(Start(names, f), f, ss, names, 0, mirror);
    var s := Pass(Start(names, f), File(ss), mirror);
    AtEnd(s, f, ss, names, mirror);
    NotFoundIsAbsent(Closed(Flushed(s)).pkgs, ss, names);
  }

  /** No later stanza of its name wins: a winner's run is over once another name has come. */
  lemma OneWinner(ss: seq<Stanza>, names: seq<string>, i: nat, j: nat)
    requires i < j < |ss| && Wins(ss, names, i) && ss[i].name == ss[j].name
    ensures !Wins(ss, names, j)
  {
    assert ss[i + 1].name != ss[j].name;
    assert i + 1 < j;
    assert OtherIn(ss, ss[j].name, i, j);
  }

  /** The last stanza of a name's first run wins. */
  lemma {:induction false} RunEndWins(ss: seq<Stanza>, names: seq<string>, i: nat)
    requires i < |ss| && ss[i].name in names && !Over(ss, ss[i].name, i)
    ensures Wins(ss, names, RunEnd(ss, i))
    decreases |ss| - i
  {
    hide Over;
    if i + 1 < |ss| && ss[i + 1].name == ss[i].name {
      OverStep(ss, ss[i].name, i);
      RunEndWins(ss, names, i + 1);
    } else {
      assert RunEnd(ss, i) == i;
    }
  }

  /** Stanzas i to j are the first consecutive run of their name. */
  predicate FirstRun(ss: seq<Stanza>, i: nat, j: nat)
    requires i <= j < |ss|
  {
    && (forall m :: 0 <= m < i ==> ss[m].name != ss[j].name)
    && (forall m :: i <= m <= j ==> ss[m].name == ss[j].name)
    && (j + 1 < |ss| ==> ss[j + 1].name != ss[j].name)
  }

  /** A winner is the last stanza of the first run of a requested name. */
  lemma WinnerEndsFirstRun(ss: seq<Stanza>, names: seq<string>, j: nat)
    requires j < |ss|
    ensures Wins(ss, names, j) <==> ss[j].name in names && exists i :: 0 <= i <= j && FirstRun(ss, i, j)
  {
    var name := ss[j].name;
    if Wins(ss, names, j) {
      var i := FirstAt(ss, name, 0);
      if i < j {
        assert !OtherIn(ss, name, i, j);
      }
      assert FirstRun(ss, i, j);
    }
    if i :| 0 <= i <= j && FirstRun(ss, i, j) {
      forall m | 0 <= m < j && ss[m].name == name
        ensures !OtherIn(ss, name, m, j)
      {
        assert i <= m;
      }
    }
  }

  /** A requested name has exactly one winner if it occurs, and none otherwise. */
  lemma RequestedExactlyOnce(ss: seq<Stanza>, names: seq<string>, name: string)
    requires name in names
    ensures Occurs(ss, name) <==> exists j :: 0 <= j < |ss| && ss[j].name == name && Wins(ss, names, j)
    ensures forall i, j :: 0 <= i < j < |ss| && ss[i].name == ss[j].name && Wins(ss, names, i) ==> !Wins(ss, names, j)
  {
    if Occurs(ss, name) {
      RunEndWins(ss, names, FirstAt(ss, name, 0));
    }
    forall i, j | 0 <= i < j < |ss| && ss[i].name == ss[j].name && Wins(ss, names, i)
      ensures !Wins(ss, names, j)
    {
      OneWinner(ss, names, i, j);
    }
  }

  /** With one name requested, its winner's entry is all there is. */
  lemma {:induction false} WinnersOfOne(f: Fields, ss: seq<Stanza>, name: string, k: nat, mirror: string)
    requires k <= |ss|
    ensures
      var first := FirstAt(ss, name, 0);
      Winners(f, ss, [name], k, mirror) ==
        if first < |ss| && RunEnd(ss, first) < k then [Entry(f, ss, RunEnd(ss, first), mirror)] else []
  {
    hide Wins, Entry, FirstAt, RunEnd;
    if k == 0 {
      assert Winners(f, ss, [name], 0, mirror) == [];
    } else {
      WinnersOfOne(f, ss, name, k - 1, mirror);
      OnlyRunEndWins(ss, name, k - 1);
    }
  }

  lemma OnlyRunEndWins(ss: seq<Stanza>, name: string, j: nat)
    requires j < |ss|
    ensures
      var first := FirstAt(ss, name, 0);
      Wins(ss, [name], j) <==> first < |ss| && RunEnd(ss, first) == j
  {
    hide Over;
    var first := FirstAt(ss, name, 0);
    if first < |ss| {
      NotOverAtFirst(ss, name, first);
      RunEndWins(ss, [name], first);
      RequestedExactlyOnce(ss, [name], name);
    }
  }

  lemma NotOverAtFirst(ss: seq<Stanza>, name: string, first: nat)
    requires first == FirstAt(ss, name, 0) < |ss|
    ensures !Over(ss, name, first)
  {
  }

  lemma WinsSplit(ss: seq<Stanza>, names: seq<string>, j: nat)
    requires Distinct(names) && names != [] && j < |ss|
    ensures Wins(ss, names, j) <==> Wins(ss, [names[0]], j) || Wins(ss, names[1..], j)
    ensures !(Wins(ss, [names[0]], j) && Wins(ss, names[1..], j))
  {
    hide Over;
    assert names == [names[0]] + names[1..];
    assert names[0] !in names[1..];
  }

  lemma NoStanzas(f: Fields, ss: seq<Stanza>, mirror: string)
    ensures forall names: seq<string> :: Winners(f, ss, names, 0, mirror) == []
  {
  }

  lemma WinnersStep(f: Fields, ss: seq<Stanza>, names: seq<string>, k: nat, mirror: string)
    requires 0 < k <= |ss|
    ensures multiset(Winners(f, ss, names, k, mirror)) == multiset(Winners(f, ss, names, k - 1, mirror)) +
      if Wins(ss, names, k - 1) then multiset{Entry(f, ss, k - 1, mirror)} else multiset{}
  {
    hide Wins, Entry;
  }

  /** Each of distinct names contributes its own winner. */
  lemma {:induction false} WinnersSplit(f: Fields, ss: seq<Stanza>, names: seq<string>, k: nat, mirror: string)
    requires Distinct(names) && names != [] && k <= |ss|
    ensures multiset(Winners(f, ss, names, k, mirror)) ==
      multiset(Winners(f, ss, [names[0]], k, mirror)) + multiset(Winners(f, ss, names[1..], k, mirror))
  {
    hide Wins, Entry, Distinct, Winners;
    if k == 0 {
      NoStanzas(f, ss, mirror);
    } else {
      WinnersSplit(f, ss, names, k - 1, mirror);
      WinsSplit(ss, names, k - 1);
      WinnersStep(f, ss, names, k, mirror);
      WinnersStep(f, ss, [names[0]], k, mirror);
      WinnersStep(f, ss, names[1..], k, mirror);
    }
  }

  /** The output lines are, but for their order, one line for each name: the one it should get. */
  lemma {:induction false} OneLinePerName(f: Fields, ss: seq<Stanza>, names: seq<string>, mirror: string)
    requires Distinct(names)
    ensures
      multiset(Winners(f, ss, names, |ss|, mirror) + Absent(ss, names)) == multiset(LinesFor(f, ss, names, mirror))
  {
    hide Wins, Entry, RunEnd, Winners, LineFor, Occurs, LinesFor, Absent, FirstAt;
    if names == [] {
      NoWinners(f, ss, |ss|, mirror);
      NoLines(f, ss, mirror);
    } else {
      var x, rest := names[0], names[1..];
      OneLinePerName(f, ss, rest, mirror);
      WinnersSplit(f, ss, names, |ss|, mirror);
      FirstLine(f, ss, x, mirror);
      MoreLines(f, ss, names, mirror);
      Shuffle(Winners(f, ss, names, |ss|, mirror), Winners(f, ss, [x], |ss|, mirror),
              Winners(f, ss, rest, |ss|, mirror),
              if Occurs(ss, x) then [] else [x + " -\n"], Absent(ss, rest), LinesFor(f, ss, rest, mirror));
    }
  }

  lemma NoLines(f: Fields, ss: seq<Stanza>, mirror: string)
    ensures Absent(ss, []) == LinesFor(f, ss, [], mirror) == []
  {
  }

  lemma MoreLines(f: Fields, ss: seq<Stanza>, names: seq<string>, mirror: string)
    requires names != []
    ensures LinesFor(f, ss, names, mirror) == [LineFor(f, ss, names[0], mirror)] + LinesFor(f, ss, names[1..], mirror)
    ensures
      Absent(ss, names) == (if Occurs(ss, names[0]) then [] else [names[0] + " -\n"]) + Absent(ss, names[1..])
  {
    hide LineFor, Occurs;
  }

  lemma FirstLine(f: Fields, ss: seq<Stanza>, name: string, mirror: string)
    ensures
      Winners(f, ss, [name], |ss|, mirror) + (if Occurs(ss, name) then [] else [name + " -\n"]) ==
      [LineFor(f, ss, name, mirror)]
  {
    hide Wins, Entry, RunEnd, Winners;
    WinnersOfOne(f, ss, name, |ss|, mirror);
    assert Occurs(ss, name) <==> FirstAt(ss, name, 0) < |ss|;
  }

  lemma Shuffle(w: seq<string>, w1: seq<string>, w2: seq<string>, a1: seq<string>, a2: seq<string>, r: seq<string>)
    requires multiset(w) == multiset(w1) + multiset(w2) && multiset(w2 + a2) == multiset(r)
    ensures multiset(w + (a1 + a2)) == multiset((w1 + a1) + r)
  {
  }

  lemma {:induction false} NoWinners(f: Fields, ss: seq<Stanza>, k: nat, mirror: string)
    requires k <= |ss|
    ensures Winners(f, ss, [], k, mirror) == []
  {
    if k == 0 {
    } else {
      NoWinners(f, ss, k - 1, mirror);
    }
  }

  /** Reading stops at the first blank line after the last name has been dealt with, and nowhere else. */
  lemma StopsWhenDone(s: State, line: Line, mirror: string)
    requires !s.stopped
    ensures Step(s, line, mirror).stopped <==> line.Blank? && forall i :: 0 <= i < |s.pkgs| ==> s.pkgs[i] == None
  {
    hide Format, Find, Update;
  }

  /** An empty name is found at a second blank line in a row, and given the entry of the stanza before it. */
  lemma EmptyNameIsFound(f: Fields, mirror: string)
    ensures Result(Pass(Start([""], f), [Package("bash"), Blank, Blank], mirror)) == [Format("bash", f, mirror)]
  {
    hide Format;
    var s0 := Start([""], f);
    var s1 := Step(s0, Package("bash"), mirror);
    var s2 := Step(s1, Blank, mirror);
    var s3 := Step(s2, Blank, mirror);
    assert s1.pkgs[0].Some? && s2.pkgs == s1.pkgs && s2.field == "";
    PassThree(s0, Package("bash"), Blank, Blank, mirror);
    assert s3.output == Some(Format("bash", f, mirror)) && s3.outputPkg == Some(0) && s3.printed == [];
    assert Closed(Flushed(s3)).pkgs == [None];
    NotFoundMore([], None);
    var none: Option<string> := None;
    assert [] + [none] == [none] && NotFound([]) == [];
  }

  lemma PassThree(s: State, a: Line, b: Line, c: Line, mirror: string)
    ensures Pass(s, [a, b, c], mirror) == Step(Step(Step(s, a, mirror), b, mirror), c, mirror)
  {
    hide Step;
    assert [a, b, c][1..] == [b, c] && [b, c][1..] == [c];
    PassOne(Step(Step(s, a, mirror), b, mirror), c, mirror);
  }

  // ------------------------------------------------------------------
  // What a printed line says
  // ------------------------------------------------------------------

  /** The pieces of a string between its blanks. */
  function CutAtBlanks(s: string): (r: seq<string>)
    ensures r != []
  {
    if s == [] then [""]
    else if s[0] == ' ' then [""] + CutAtBlanks(s[1..])
    else
      var rest := CutAtBlanks(s[1..]);
      [[s[0]] + rest[0]] + rest[1..]
  }

  lemma {:induction false} CutWord(word: string)
    requires ' ' !in word
    ensures CutAtBlanks(word) == [word]
  {
    if word == [] {
    } else {
      CutWord(word[1..]);
      assert word == [word[0]] + word[1..];
    }
  }

  lemma {:induction false} CutAfterWord(word: string, more: string)
    requires ' ' !in word
    ensures CutAtBlanks(word + " " + more) == [word] + CutAtBlanks(more)
  {
    var s := word + " " + more;
    if word == [] {
      assert s[1..] == more;
    } else {
      assert s[0] == word[0] && word[0] in word && s[1..] == word[1..] + " " + more;
      CutAfterWord(word[1..], more);
      assert ([word[1..]] + CutAtBlanks(more))[1..] == CutAtBlanks(more);
      assert word == [word[0]] + word[1..];
    }
  }

  predicate Plain(s: string)
  {
    ' ' !in s && '\n' !in s
  }

  predicate AllPlain(ss: seq<string>)
  {
    forall i :: 0 <= i < |ss| ==> Plain(ss[i])
  }

  /** The words with one blank between each two. */
  function Spaced(words: seq<string>): string
  {
    if words == [] then "" else if |words| == 1 then words[0] else words[0] + " " + Spaced(words[1..])
  }

  lemma {:induction false} CutSpaced(words: seq<string>)
    requires words != [] && AllPlain(words)
    ensures CutAtBlanks(Spaced(words)) == words && '\n' !in Spaced(words)
  {
    if |words| == 1 {
      CutWord(words[0]);
    } else {
      assert Plain(words[0]);
      CutSpaced(words[1..]);
      CutAfterWord(words[0], Spaced(words[1..]));
    }
  }

  /**
   * The line for a package is cut at its blanks into name, version, architecture, mirror, file name, checksum and
   * size, in that order; it ends with its only newline.
   */
  lemma FormatReads(name: string, f: Fields, mirror: string) returns (text: string)
    requires AllPlain([name, f.version, f.architecture, mirror, f.filename, f.checksum, f.size])
    ensures Format(name, f, mirror) == text + "\n" && '\n' !in text
    ensures CutAtBlanks(text) == [name, f.version, f.architecture, mirror, f.filename, f.checksum, f.size]
  {
    hide CutAtBlanks;
    var words := [name, f.version, f.architecture, mirror, f.filename, f.checksum, f.size];
    text := Spaced(words);
    CutSpaced(words);
    FormatSpaced(name, f, mirror);
  }

  lemma FormatSpaced(name: string, f: Fields, mirror: string)
    ensures Format(name, f, mirror) ==
      Spaced([name, f.version, f.architecture, mirror, f.filename, f.checksum, f.size]) + "\n"
  {
    hide Spaced;
    SpacedMore(name, [f.version, f.architecture, mirror, f.filename, f.checksum, f.size]);
    SpacedMore(f.version, [f.architecture, mirror, f.filename, f.checksum, f.size]);
    SpacedMore(f.architecture, [mirror, f.filename, f.checksum, f.size]);
    SpacedMore(mirror, [f.filename, f.checksum, f.size]);
    SpacedMore(f.filename, [f.checksum, f.size]);
    SpacedMore(f.checksum, [f.size]);
    SpacedOne(f.size);
    assert [f.checksum] + [f.size] == [f.checksum, f.size];
    assert [f.filename] + [f.checksum, f.size] == [f.filename, f.checksum, f.size];
    assert [mirror] + [f.filename, f.checksum, f.size] == [mirror, f.filename, f.checksum, f.size];
    assert [f.architecture] + [mirror, f.filename, f.checksum, f.size] ==
      [f.architecture, mirror, f.filename, f.checksum, f.size];
    assert [f.version] + [f.architecture, mirror, f.filename, f.checksum, f.size] ==
      [f.version, f.architecture, mirror, f.filename, f.checksum, f.size];
    assert [name] + [f.version, f.architecture, mirror, f.filename, f.checksum, f.size] ==
      [name, f.version, f.architecture, mirror, f.filename, f.checksum, f.size];
    Associate(name + " ", f.version, f.architecture, mirror, f.filename, f.checksum, f.size);
  }

  lemma SpacedMore(word: string, words: seq<string>)
    requires words != []
    ensures Spaced([word] + words) == word + " " + Spaced(words)
  {
    assert ([word] + words)[1..] == words;
  }

  lemma SpacedOne(word: string)
    ensures Spaced([word]) == word
  {
  }

  lemma Associate(a: string, b: string, c: string, d: string, e: string, f: string, g: string)
    ensures a + b + " " + c + " " + d + " " + e + " " + f + " " + g + "\n" ==
      a + (b + " " + (c + " " + (d + " " + (e + " " + (f + " " + g))))) + "\n"
  {
  }

  /** The line for a name without a stanza is cut into the name and a dash. */
  lemma AbsentReads(f: Fields, ss: seq<Stanza>, name: string, mirror: string) returns (text: string)
    requires Plain(name) && !Occurs(ss, name)
    ensures LineFor(f, ss, name, mirror) == text + "\n" && '\n' !in text && CutAtBlanks(text) == [name, "-"]
  {
    hide CutAtBlanks, RunEnd, Entry;
    text := name + " " + "-";
    CutAfterWord(name, "-");
    CutWord("-");
  }

  /** The field lines that a value of the printed line can come from. */
  datatype Key = VersionKey | ArchitectureKey | FilenameKey | ChecksumKey | SizeKey

  function ValueOn(line: Line, key: Key): Option<string>
  {
    match line
    case Version(v) => if key == VersionKey then Some(v) else None
    case Architecture(v) => if key == ArchitectureKey then Some(v) else None
    case Filename(v) => if key == FilenameKey then Some(v) else None
    case Checksum(v) => if key == ChecksumKey then Some(v) else None
    case Size(v) => if key == SizeKey then Some(v) else None
    case _ => None
  }

  /** v is the value of the last line of that key, or the initial one if there is none. */
  ghost predicate IsLast(ls: seq<Line>, key: Key, initial: string, v: string)
  {
    || (v == initial && forall i :: 0 <= i < |ls| ==> ValueOn(ls[i], key) == None)
    || exists i ::
         && 0 <= i < |ls| && ValueOn(ls[i], key) == Some(v)
         && forall j :: i < j < |ls| ==> ValueOn(ls[j], key) == None
  }

  /** Five values, each of its own key. */
  ghost predicate AllLast(ls: seq<Line>, f: Fields, g: Fields)
  {
    && IsLast(ls, VersionKey, f.version, g.version)
    && IsLast(ls, ArchitectureKey, f.architecture, g.architecture)
    && IsLast(ls, FilenameKey, f.filename, g.filename)
    && IsLast(ls, ChecksumKey, f.checksum, g.checksum)
    && IsLast(ls, SizeKey, f.size, g.size)
  }

  lemma IsLastMore(ls: seq<Line>, line: Line, key: Key, initial: string, v: string)
    requires IsLast(ls, key, initial, v)
    ensures IsLast(ls + [line], key, initial, if ValueOn(line, key).Some? then ValueOn(line, key).value else v)
  {
    hide ValueOn;
    var more := ls + [line];
    assert more[|ls|] == line && forall i :: 0 <= i < |ls| ==> more[i] == ls[i];
    if ValueOn(line, key).None? && !(v == initial && forall i :: 0 <= i < |ls| ==> ValueOn(ls[i], key) == None) {
      var i :| 0 <= i < |ls| && ValueOn(ls[i], key) == Some(v) &&
        forall j :: i < j < |ls| ==> ValueOn(ls[j], key) == None;
      assert ValueOn(more[i], key) == Some(v);
    }
  }

  lemma {:induction false} UpdateAllMore(f: Fields, ls: seq<Line>, line: Line)
    ensures UpdateAll(f, ls + [line]) == Update(UpdateAll(f, ls), line)
    decreases |ls|
  {
    hide Update;
    if ls == [] {
      assert [] + [line] == [line] && [line][1..] == [];
      assert UpdateAll(Update(f, line), []) == Update(f, line);
    } else {
      assert (ls + [line])[1..] == ls[1..] + [line];
      UpdateAllMore(Update(f, ls[0]), ls[1..], line);
    }
  }

  lemma {:induction false} UpdatesAreLast(f: Fields, ls: seq<Line>)
    ensures AllLast(ls, f, UpdateAll(f, ls))
    decreases |ls|
  {
    if ls == [] {
    } else {
      var before, line := ls[..|ls| - 1], ls[|ls| - 1];
      assert ls == before + [line];
      UpdatesAreLast(f, before);
      UpdateAllMore(f, before, line);
      LastsMore(before, line, f, UpdateAll(f, before));
    }
  }

  lemma LastsMore(ls: seq<Line>, line: Line, f: Fields, g: Fields)
    requires AllLast(ls, f, g)
    ensures AllLast(ls + [line], f, Update(g, line))
  {
    hide IsLast;
    IsLastMore(ls, line, VersionKey, f.version, g.version);
    IsLastMore(ls, line, ArchitectureKey, f.architecture, g.architecture);
    IsLastMore(ls, line, FilenameKey, f.filename, g.filename);
    IsLastMore(ls, line, ChecksumKey, f.checksum, g.checksum);
    IsLastMore(ls, line, SizeKey, f.size, g.size);
  }

  lemma {:induction false} UpdateAllConcat(f: Fields, a: seq<Line>, b: seq<Line>)
    ensures UpdateAll(f, a + b) == UpdateAll(UpdateAll(f, a), b)
    decreases |a|
  {
    hide Update;
    if a == [] {
      assert a + b == b;
    } else {
      assert (a + b)[1..] == a[1..] + b;
      UpdateAllConcat(Update(f, a[0]), a[1..], b);
    }
  }

  lemma UpdateStanza(f: Fields, z: Stanza)
    ensures UpdateAll(f, Lines(z)) == UpdateAll(UpdateAll(f, z.before), z.after)
  {
    UpdateAllMore(f, z.before + [Package(z.name)] + z.after, Blank);
    UpdateAllConcat(f, z.before + [Package(z.name)], z.after);
    UpdateAllMore(f, z.before, Package(z.name));
  }

  lemma {:induction false} FileMore(ss: seq<Stanza>, k: nat)
    requires k < |ss|
    ensures File(ss[..k + 1]) == File(ss[..k]) + Lines(ss[k])
    decreases k
  {
    hide Lines;
    if k == 0 {
      assert ss[..1][1..] == [] && ss[..0] == [];
      assert File([]) == [];
      assert File(ss[..1]) == Lines(ss[0]) + File([]);
    } else {
      assert ss[..k + 1][1..] == ss[1..][..k] && ss[..k][1..] == ss[1..][..k - 1] && ss[1..][k - 1] == ss[k];
      FileMore(ss[1..], k - 1);
    }
  }

  lemma {:induction false} FieldsAreUpdates(f: Fields, ss: seq<Stanza>, k: nat)
    requires k <= |ss|
    ensures FieldsAfter(f, ss, k) == UpdateAll(f, File(ss[..k]))
  {
    hide Lines;
    if k == 0 {
      assert ss[..0] == [];
      assert File([]) == [];
    } else {
      FieldsAreUpdates(f, ss, k - 1);
      FileMore(ss, k - 1);
      UpdateAllConcat(f, File(ss[..k - 1]), Lines(ss[k - 1]));
      UpdateStanza(UpdateAll(f, File(ss[..k - 1])), ss[k - 1]);
    }
  }

  /**
   * The entry of a stanza: its words are the package's name, the mirror's, and of every other key the value of
   * its last line up to the end of the stanza.
   */
  lemma EntryReads(f: Fields, ss: seq<Stanza>, j: nat, mirror: string) returns (g: Fields)
    requires j < |ss|
    ensures AllLast(File(ss[..j + 1]), f, g)
    ensures Entry(f, ss, j, mirror) == Format(ss[j].name, g, mirror)
  {
    hide Format;
    g := FieldsAfter(f, ss, j + 1);
    FieldsAreUpdates(f, ss, j + 1);
    UpdatesAreLast(f, File(ss[..j + 1]));
  }

  // ------------------------------------------------------------------
  // Text lines and chunks of names
  // ------------------------------------------------------------------

  /** The value of a field line: neither the key's colon nor the blanks after it. */
  lemma {:induction false} FieldValueOf(key: string, blanks: string, value: string)
    requires ':' !in key && (forall i :: 0 <= i < |blanks| ==> IsSpace(blanks[i]))
    requires value == [] || !IsSpace(value[0])
    ensures FieldValue(key + ":" + blanks + value) == value
    decreases |key|
  {
    var line := key + ":" + blanks + value;
    if key != [] {
      assert line[1..] == key[1..] + ":" + blanks + value;
      FieldValueOf(key[1..], blanks, value);
    } else {
      assert line[1..] == blanks + value;
      SkipSpacesOf(blanks, value);
    }
  }

  lemma {:induction false} SkipSpacesOf(blanks: string, value: string)
    requires forall i :: 0 <= i < |blanks| ==> IsSpace(blanks[i])
    requires value == [] || !IsSpace(value[0])
    ensures SkipSpaces(blanks + value) == value
    decreases |blanks|
  {
    if blanks == [] {
      assert blanks + value == value;
    } else {
      assert (blanks + value)[1..] == blanks[1..] + value;
      SkipSpacesOf(blanks[1..], value);
    }
  }

  /** strcasecmp(a, b) == 0 */
  predicate Same(a: string, b: string)
  {
    |a| == |b| && forall i :: 0 <= i < |a| ==> Lower(a[i]) == Lower(b[i])
  }

  /** The line that a key and a value stand for: the key decides as a whole, whatever its case. */
  function ByKey(key: string, checksumField: string, value: string): Line
  {
    if Same(key, "Package") then Package(value)
    else if Same(key, "Version") then Version(value)
    else if Same(key, "Architecture") then Architecture(value)
    else if Same(key, "Size") then Size(value)
    else if Same(key, checksumField) then Checksum(value)
    else if Same(key, "Filename") then Filename(value)
    else Other
  }

  /** A comparison with a name and its colon looks at the whole key. */
  lemma StartsWithName(key: string, rest: string, name: string)
    requires ':' !in key && ':' !in name
    ensures StartsWith(key + ":" + rest, name + ":") <==> Same(key, name)
  {
    var line, prefix := key + ":" + rest, name + ":";
    if |name| < |key| {
      assert prefix[|name|] == ':' && line[|name|] == key[|name|] && key[|name|] in key;
    } else if |key| < |name| {
      assert line[|key|] == ':' && prefix[|key|] == name[|key|] && name[|key|] in name;
    } else {
      assert forall i :: 0 <= i < |name| ==> line[i] == key[i] && prefix[i] == name[i];
    }
  }

  /** So does the comparison with the checksum field, which has its colon tested apart. */
  lemma StartsWithField(key: string, rest: string, name: string)
    requires ':' !in key && ':' !in name
    ensures
      var line := key + ":" + rest;
      StartsWith(line, name) && |line| > |name| && line[|name|] == ':' <==> Same(key, name)
  {
    var line, prefix := key + ":" + rest, name + ":";
    StartsWithName(key, rest, name);
    if StartsWith(line, prefix) {
      assert Lower(line[|name|]) == Lower(prefix[|name|]) == ':';
      assert forall i :: 0 <= i < |name| ==> prefix[i] == name[i];
    }
    if StartsWith(line, name) && |line| > |name| && line[|name|] == ':' {
      assert forall i :: 0 <= i < |prefix| ==> Lower(line[i]) == Lower(prefix[i]);
    }
  }

  /** A line made of a key, a colon, blanks and a value is what its key says, with that value. */
  lemma KeyLine(key: string, checksumField: string, blanks: string, value: string)
    requires ':' !in key && ':' !in checksumField && (forall i :: 0 <= i < |blanks| ==> IsSpace(blanks[i]))
    requires value == [] || !IsSpace(value[0])
    ensures Classify(key + ":" + blanks + value, checksumField) == ByKey(key, checksumField, value)
  {
    hide StartsWith, Same, FieldValue;
    var rest := blanks + value;
    assert key + ":" + blanks + value == key + ":" + rest;
    FieldValueOf(key, blanks, value);
    StartsWithName(key, rest, "Package");
    StartsWithName(key, rest, "Version");
    StartsWithName(key, rest, "Architecture");
    StartsWithName(key, rest, "Size");
    StartsWithName(key, rest, "Filename");
    StartsWithField(key, rest, checksumField);
    assert "Package" + ":" == "Package:" && "Version" + ":" == "Version:" && "Architecture" + ":" == "Architecture:";
    assert "Size" + ":" == "Size:" && "Filename" + ":" == "Filename:";
  }

  /** Every line with a colon is of that form, and a line without one is blank or says nothing. */
  lemma KeylessLine(line: string, checksumField: string)
    requires ':' !in line
    ensures Classify(line, checksumField) == if line == [] then Blank else Other
  {
    NotStartsWith(line, "Package:", 7);
    NotStartsWith(line, "Version:", 7);
    NotStartsWith(line, "Architecture:", 12);
    NotStartsWith(line, "Size:", 4);
    NotStartsWith(line, "Filename:", 8);
  }

  /** Capitals are compared as their small letters, 32 further on, and nothing else is changed. */
  lemma LowerCharacters(c: char)
    ensures Lower(c) as int == c as int + if c in "ABCDEFGHIJKLMNOPQRSTUVWXYZ" then 32 else 0
  {
  }

  /** The blank, and tab, newline, vertical tab, form feed and return. */
  lemma SpaceCharacters(c: char)
    ensures IsSpace(c) <==> c as int in [32, 9, 10, 11, 12, 13]
  {
  }

  /** Keys are compared letter by letter whatever their case; blanks and tabs before the value do not count. */
  lemma ExamplePackageLine()
    ensures Classify("pAcKaGe" + ":" + " \t" + "bash", "MD5sum") == Package("bash")
  {
    hide Classify;
    KeyLine("pAcKaGe", "MD5sum", " \t", "bash");
  }

  lemma ExampleChecksumLine()
    ensures Classify("md5SUM" + ":" + " " + "0a1b", "MD5sum") == Checksum("0a1b")
  {
    hide Classify;
    KeyLine("md5SUM", "MD5sum", " ", "0a1b");
  }

  /** A longer key is another key. */
  lemma ExampleOtherLine()
    ensures Classify("Packages" + ":" + " " + "bash", "MD5sum") == Other
  {
    hide Classify;
    KeyLine("Packages", "MD5sum", " ", "bash");
    assert Lower("Packages"[0]) != Lower("Filename"[0]);
  }

  lemma NotStartsWith(line: string, prefix: string, colon: nat)
    requires ':' !in line && colon < |prefix| && prefix[colon] == ':'
    ensures !StartsWith(line, prefix)
  {
    if colon < |line| {
      assert line[colon] in line;
    }
  }

  lemma {:induction false} KeyOf(line: string) returns (key: string, blanks: string, value: string)
    requires ':' in line
    ensures ':' !in key && (forall i :: 0 <= i < |blanks| ==> IsSpace(blanks[i]))
    ensures (value == [] || !IsSpace(value[0])) && line == key + ":" + blanks + value
  {
    if line[0] == ':' {
      blanks, value := BlanksOf(line[1..]);
      key := "";
      assert line == [line[0]] + line[1..];
    } else {
      key, blanks, value := KeyOf(line[1..]);
      key := [line[0]] + key;
      assert line == [line[0]] + line[1..];
    }
  }

  lemma {:induction false} BlanksOf(s: string) returns (blanks: string, value: string)
    ensures forall i :: 0 <= i < |blanks| ==> IsSpace(blanks[i])
    ensures (value == [] || !IsSpace(value[0])) && s == blanks + value
  {
    if s != [] && IsSpace(s[0]) {
      blanks, value := BlanksOf(s[1..]);
      blanks := [s[0]] + blanks;
    } else {
      blanks, value := [], s;
    }
  }

  function Classified(lines: seq<string>, checksumField: string): seq<Line>
  {
    if lines == [] then [] else [Classify(lines[0], checksumField)] + Classified(lines[1..], checksumField)
  }

  const MAX_PKGS: nat := 100

  /** The slices of the argument list that main hands over one after the other. */
  function Chunks(names: seq<string>): seq<seq<string>>
    decreases |names|
  {
    if |names| <= MAX_PKGS then [names] else [names[..MAX_PKGS]] + Chunks(names[MAX_PKGS..])
  }

  function Flatten<T>(parts: seq<seq<T>>): seq<T>
  {
    if parts == [] then [] else parts[0] + Flatten(parts[1..])
  }

  /** No name is lost, repeated or moved, and every slice fits the array. */
  lemma {:induction false} ChunksPartition(names: seq<string>)
    ensures Flatten(Chunks(names)) == names
    ensures forall i :: 0 <= i < |Chunks(names)| ==> |Chunks(names)[i]| <= MAX_PKGS
    ensures forall i :: 0 <= i < |Chunks(names)| && names != [] ==> Chunks(names)[i] != []
    ensures forall i :: 0 <= i < |Chunks(names)| - 1 ==> |Chunks(names)[i]| == MAX_PKGS
    decreases |names|
  {
    if |names| > MAX_PKGS {
      ChunksPartition(names[MAX_PKGS..]);
      assert Chunks(names)[1..] == Chunks(names[MAX_PKGS..]);
      assert names == names[..MAX_PKGS] + names[MAX_PKGS..];
    } else {
      assert Flatten([names]) == names + Flatten([]);
    }
  }

  /** One name more than a hundred makes a second slice. */
  lemma ChunksOfHundred(names: seq<string>)
    ensures |names| == 100 ==> Chunks(names) == [names]
    ensures |names| == 101 ==> Chunks(names) == [names[..100], [names[100]]]
  {
    if |names| == 101 {
      assert Chunks(names[100..]) == [names[100..]] && names[100..] == [names[100]];
    }
  }

  /** The values that cur_size and cur_checksum start with: the source does not initialise them. */
  function Initial(stale: Fields): Fields
  {
    Fields("", "", "", stale.checksum, stale.size)
  }

  /** Without any line of the other keys, their words are empty, except for the two that nothing initialises. */
  lemma EntryWithoutFields(stale: Fields, ss: seq<Stanza>, j: nat, mirror: string)
    requires j < |ss| && forall i :: 0 <= i <= j ==> ss[i].before == [] && ss[i].after == []
    ensures Entry(Initial(stale), ss, j, mirror) ==
      Format(ss[j].name, Fields("", "", "", stale.checksum, stale.size), mirror)
  {
    NoFields(Initial(stale), ss, j + 1);
  }

  lemma {:induction false} NoFields(f: Fields, ss: seq<Stanza>, k: nat)
    requires k <= |ss| && forall i :: 0 <= i < k ==> ss[i].before == [] && ss[i].after == []
    ensures FieldsAfter(f, ss, k) == f
  {
    if k == 0 {
    } else {
      NoFields(f, ss, k - 1);
    }
  }

  /** The output for all slices of the argument list; call number i starts from stale(i). */
  function Output(lines: seq<Line>, chunks: seq<seq<string>>, mirror: string, stale: nat -> Fields, i: nat): seq<string>
  {
    if chunks == [] then []
    else
      Result(Pass(Start(chunks[0], Initial(stale(i))), lines, mirror)) +
      Output(lines, chunks[1..], mirror, stale, i + 1)
  }

  /** The lines for names that are requested from slice i on. */
  function AllLinesFor(ss: seq<Stanza>, names: seq<string>, mirror: string, stale: nat -> Fields, i: nat)
    : (r: seq<string>)
    ensures |r| == |names|
  {
    seq(|names|, k requires 0 <= k < |names| =>
      LineFor(Initial(stale(i + k / MAX_PKGS)), ss, names[k], mirror))
  }

  lemma OneSlice(ss: seq<Stanza>, names: seq<string>, mirror: string, stale: nat -> Fields, i: nat)
    requires |names| <= MAX_PKGS
    ensures multiset(AllLinesFor(ss, names, mirror, stale, i)) ==
      multiset(LinesFor(Initial(stale(i)), ss, names, mirror))
  {
    hide LineFor, Initial;
    var all, some := AllLinesFor(ss, names, mirror, stale, i), LinesFor(Initial(stale(i)), ss, names, mirror);
    forall k | 0 <= k < |names|
      ensures all[k] == some[k]
    {
      var last: int := if k < MAX_PKGS then 0 else 1;
      assert k / MAX_PKGS == last;
    }
    assert all == some;
  }

  lemma FirstSlice(ss: seq<Stanza>, names: seq<string>, mirror: string, stale: nat -> Fields, i: nat)
    requires |names| > MAX_PKGS
    ensures
      AllLinesFor(ss, names, mirror, stale, i) ==
      LinesFor(Initial(stale(i)), ss, names[..MAX_PKGS], mirror) +
      AllLinesFor(ss, names[MAX_PKGS..], mirror, stale, i + 1)
  {
    hide LineFor, Initial;
    var all := AllLinesFor(ss, names, mirror, stale, i);
    var some := LinesFor(Initial(stale(i)), ss, names[..MAX_PKGS], mirror);
    var rest := AllLinesFor(ss, names[MAX_PKGS..], mirror, stale, i + 1);
    forall k | 0 <= k < MAX_PKGS
      ensures all[k] == some[k]
    {
      assert k / MAX_PKGS == 0;
    }
    forall k | 0 <= k < |names| - MAX_PKGS
      ensures all[MAX_PKGS + k] == rest[k]
    {
      assert i + (MAX_PKGS + k) / MAX_PKGS == i + 1 + k / MAX_PKGS;
    }
    Glue(all, some, rest);
  }

  lemma Glue(all: seq<string>, some: seq<string>, rest: seq<string>)
    requires |all| == |some| + |rest|
    requires forall k :: 0 <= k < |some| ==> all[k] == some[k]
    requires forall k :: 0 <= k < |rest| ==> all[|some| + k] == rest[k]
    ensures all == some + rest
  {
    assert all[..|some|] == some && all[|some|..] == rest;
  }

  /**
   * Whatever the number of distinct names, over complete stanzas each of them contributes exactly one line,
   * and it is the one it should get.
   */
  lemma {:induction false} OutputHasOneLineEach(ss: seq<Stanza>, names: seq<string>, mirror: string,
                                                stale: nat -> Fields, i: nat)
    requires Distinct(names) && Complete(ss)
    ensures multiset(Output(File(ss), Chunks(names), mirror, stale, i)) ==
      multiset(AllLinesFor(ss, names, mirror, stale, i))
    decreases |names|
  {
    hide Result, Pass, Start, File, Winners, Absent, Complete, AllLinesFor, LinesFor;
    var f := Initial(stale(i));
    var some := if |names| <= MAX_PKGS then names else names[..MAX_PKGS];
    PassPrintsWinners(f, ss, some, mirror);
    OneLinePerName(f, ss, some, mirror);
    if |names| <= MAX_PKGS {
      OneSlice(ss, names, mirror, stale, i);
      OutputOfOne(File(ss), names, mirror, stale, i);
    } else {
      FirstSlice(ss, names, mirror, stale, i);
      OutputHasOneLineEach(ss, names[MAX_PKGS..], mirror, stale, i + 1);
      assert Chunks(names)[0] == some && Chunks(names)[1..] == Chunks(names[MAX_PKGS..]);
    }
  }

  lemma OutputOfOne(lines: seq<Line>, names: seq<string>, mirror: string, stale: nat -> Fields, i: nat)
    ensures Output(lines, [names], mirror, stale, i) == Result(Pass(Start(names, Initial(stale(i))), lines, mirror))
  {
    hide Result, Pass, Start;
    assert [names][1..] == [];
    assert Output(lines, [], mirror, stale, i + 1) == [];
  }
}

module PkgDetails {
  import opened Wrappers
  import opened PkgDetailsSpec

  /** fieldcpy: walk to the colon, over it, over the spaces.  It is only called on lines with a colon. */
  method FieldCpy(line: string) returns (value: string)
    ensures value == FieldValue(line)
  {
    var fld := 0;
    while fld < |line| && line[fld] != ':'
      invariant 0 <= fld <= |line|
      invariant FieldValue(line[fld..]) == FieldValue(line)
    {
      assert line[fld..][1..] == line[fld + 1..];
      fld := fld + 1;
    }
    if fld == |line| {
      return [];
    }
    assert line[fld..][1..] == line[fld + 1..];
    fld := fld + 1;
    while fld < |line| && IsSpace(line[fld])
      invariant 0 <= fld <= |line|
      invariant SkipSpaces(line[fld..]) == FieldValue(line)
    {
      assert line[fld..][1..] == line[fld + 1..];
      fld := fld + 1;
    }
    value := line[fld..];
  }

  /** The -1 that stands for no pending package. */
  function Index(outputPkg: int): Option<nat>
  {
    if outputPkg < 0 then None else Some(outputPkg)
  }

  /**
   * The scan of pkgs on a blank line: the first one still wanted that equals x, or -1, and whether any
   * was still wanted on the way there.
   */
  method Scan(pkgs: array<Option<string>>, pkgc: nat, x: string) returns (found: int, any: bool)
    requires pkgc <= pkgs.Length
    ensures Index(found) == Find(pkgs[..pkgc], x, 0)
    ensures any == AnyLeft(pkgs[..pkgc])
    ensures -1 <= found < pkgc && (found != -1 ==> any)
  {
    found, any := -1, false;
    var i := 0;
    ghost var s := pkgs[..pkgc];
    while i < pkgc && found == -1
      invariant 0 <= i <= pkgc
      invariant -1 <= found < pkgc
      invariant found == -1 ==> Find(s, x, i) == Find(s, x, 0)
      invariant found == -1 ==> (any <==> exists j :: 0 <= j < i && s[j].Some?)
      invariant found != -1 ==> Find(s, x, 0) == Some(found) && any
      decreases pkgc - i, found == -1
    {
      assert s[i] == pkgs[i];
      if pkgs[i].Some? {
        any := true;
        if pkgs[i].value == x {
          found := i;
        }
      }
      if found == -1 {
        i := i + 1;
      }
    }
  }

  /** The chain of comparisons. */
  method ReadLine(buf: string, checksumField: string) returns (line: Line)
    ensures line == Classify(buf, checksumField)
  {
    hide StartsWith, FieldValue;
    if StartsWith(buf, "Package:") {
      var v := FieldCpy(buf);
      line := Package(v);
    } else if StartsWith(buf, "Version:") {
      var v := FieldCpy(buf);
      line := Version(v);
    } else if StartsWith(buf, "Architecture:") {
      var v := FieldCpy(buf);
      line := Architecture(v);
    } else if StartsWith(buf, "Size:") {
      var v := FieldCpy(buf);
      line := Size(v);
    } else if StartsWith(buf, checksumField) && |buf| > |checksumField| && buf[|checksumField|] == ':' {
      var v := FieldCpy(buf);
      line := Checksum(v);
    } else if StartsWith(buf, "Filename:") {
      var v := FieldCpy(buf);
      line := Filename(v);
    } else if buf == [] {
      line := Blank;
    } else {
      line := Other;
    }
  }

  method CopyNames(inPkgs: seq<string>) returns (pkgs: array<Option<string>>)
    requires |inPkgs| <= MAX_PKGS
    ensures fresh(pkgs) && pkgs.Length == MAX_PKGS
    ensures pkgs[..|inPkgs|] == seq(|inPkgs|, i requires 0 <= i < |inPkgs| => Some(inPkgs[i]))
  {
    pkgs := new Option<string>[MAX_PKGS](_ => None);
    var i := 0;
    while i < |inPkgs|
      invariant 0 <= i <= |inPkgs|
      invariant forall j :: 0 <= j < i ==> pkgs[j] == Some(inPkgs[j])
    {
      pkgs[i] := Some(inPkgs[i]);
      i := i + 1;
    }
  }

  /** The pending package, if there is one, is dealt with. */
  method Retire(pkgs: array<Option<string>>, pkgc: nat, outputPkg: int)
    requires -1 <= outputPkg < pkgc <= pkgs.Length
    modifies pkgs
    ensures pkgs[..pkgc] == if outputPkg == -1 then old(pkgs[..pkgc]) else old(pkgs[..pkgc])[outputPkg := None]
  {
    if outputPkg != -1 {
      pkgs[outputPkg] := None;
    }
  }

  /** PKGS mode for at most MAX_PKGS names. */
  method DoPkgMirrorPkgs(lines: seq<string>, mirror: string, checksumField: string, inPkgs: seq<string>, stale: Fields)
    returns (printed: seq<string>)
    requires |inPkgs| <= MAX_PKGS
    ensures printed == Result(Pass(Start(inPkgs, Initial(stale)), Classified(lines, checksumField), mirror))
  {
    hide Find, AnyLeft, Format, FieldValue, Classify, NotFound;
    var pkgc := |inPkgs|;
    var pkgs := CopyNames(inPkgs);
    var field, pkg, prev := "", "", "";
    var f := Initial(stale);
    var output: Option<string>, outputPkg := None, -1;
    printed := [];
    ghost var all := Pass(Start(inPkgs, f), Classified(lines, checksumField), mirror);
    assert pkgs[..pkgc] == Start(inPkgs, f).pkgs;
    var n, stopped := 0, false;
    assert lines[0..] == lines;
    while n < |lines| && !stopped
      invariant 0 <= n <= |lines| && -1 <= outputPkg < pkgc
      invariant
        Pass(State(pkg, field, f, prev, output, Index(outputPkg), pkgs[..pkgc], printed, stopped),
             Classified(lines[n..], checksumField), mirror) == all
      decreases |lines| - n, !stopped
    {
      ghost var s := State(pkg, field, f, prev, output, Index(outputPkg), pkgs[..pkgc], printed, stopped);
      var line := ReadLine(lines[n], checksumField);
      assert lines[n..][1..] == lines[n + 1..];
      assert Pass(Step(s, line, mirror), Classified(lines[n + 1..], checksumField), mirror) == all;
      match line {
        case Package(v) =>
          field, pkg := v, v;
          if pkg != prev {
            if output.Some? {
              printed := printed + [output.value];
            }
            Retire(pkgs, pkgc, outputPkg);
            prev := pkg;
          }
          output, outputPkg := None, -1;
        case Version(v) => f := f.(version := v);
        case Architecture(v) => f := f.(architecture := v);
        case Size(v) => f := f.(size := v);
        case Checksum(v) => f := f.(checksum := v);
        case Filename(v) => f := f.(filename := v);
        case Blank =>
          var found, any := Scan(pkgs, pkgc, field);
          if found != -1 {
            output, outputPkg := Some(Format(pkg, f, mirror)), found;
          }
          if !any {
            stopped := true;
          } else {
            field := "";
          }
        case Other =>
      }
      ghost var t := State(pkg, field, f, prev, output, Index(outputPkg), pkgs[..pkgc], printed, stopped);
      assert t == Step(s, line, mirror);
      n := n + 1;
    }
    ghost var last := State(pkg, field, f, prev, output, Index(outputPkg), pkgs[..pkgc], printed, stopped);
    if stopped {
      PassStopped(last, Classified(lines[n..], checksumField), mirror);
    }
    assert last == all;
    if output.Some? {
      printed := printed + [output.value];
    }
    Retire(pkgs, pkgc, outputPkg);
    assert pkgs[..pkgc] == Closed(Flushed(all)).pkgs;
    var rest := PrintNotFound(pkgs, pkgc);
    printed := printed + rest;
  }

  /** Any that were not found. */
  method PrintNotFound(pkgs: array<Option<string>>, pkgc: nat) returns (printed: seq<string>)
    requires pkgc <= pkgs.Length
    ensures printed == NotFound(pkgs[..pkgc])
  {
    printed := [];
    var i := 0;
    while i < pkgc
      invariant 0 <= i <= pkgc
      invariant printed == NotFound(pkgs[..i])
    {
      assert pkgs[..i + 1] == pkgs[..i] + [pkgs[i]];
      NotFoundMore(pkgs[..i], pkgs[i]);
      if pkgs[i].Some? {
        printed := printed + [pkgs[i].value + " -\n"];
      }
      i := i + 1;
    }
  }

  /** PKGS mode of main: the names in slices of MAX_PKGS. */
  method Pkgs(lines: seq<string>, mirror: string, checksumField: string, names: seq<string>, stale: nat -> Fields)
    returns (printed: seq<string>)
    ensures printed == Output(Classified(lines, checksumField), Chunks(names), mirror, stale, 0)
    ensures forall ss: seq<Stanza> | Complete(ss) && File(ss) == Classified(lines, checksumField) && Distinct(names) ::
      multiset(printed) == multiset(AllLinesFor(ss, names, mirror, stale, 0))
  {
    hide Result, Pass, Start, Classified, Complete, File, AllLinesFor, Distinct;
    ghost var ls := Classified(lines, checksumField);
    printed := [];
    var i, call := 0, 0;
    assert names[0..] == names;
    while |names| - i > MAX_PKGS
      invariant 0 <= i <= |names| && 0 <= call
      invariant
        printed + Output(ls, Chunks(names[i..]), mirror, stale, call) == Output(ls, Chunks(names), mirror, stale, 0)
    {
      NextChunk(names[i..]);
      assert names[i..][..MAX_PKGS] == names[i..i + MAX_PKGS];
      assert names[i..][MAX_PKGS..] == names[i + MAX_PKGS..];
      var some := DoPkgMirrorPkgs(lines, mirror, checksumField, names[i..i + MAX_PKGS], stale(call));
      printed := printed + some;
      i, call := i + MAX_PKGS, call + 1;
    }
    OutputOfOne(ls, names[i..], mirror, stale, call);
    var some := DoPkgMirrorPkgs(lines, mirror, checksumField, names[i..], stale(call));
    printed := printed + some;
    forall ss: seq<Stanza> | Complete(ss) && File(ss) == ls && Distinct(names)
      ensures multiset(printed) == multiset(AllLinesFor(ss, names, mirror, stale, 0))
    {
      OutputHasOneLineEach(ss, names, mirror, stale, 0);
    }
  }

  lemma NextChunk(names: seq<string>)
    requires |names| > MAX_PKGS
    ensures Chunks(names) != [] && Chunks(names)[0] == names[..MAX_PKGS]
    ensures Chunks(names)[1..] == Chunks(names[MAX_PKGS..])
  {
  }
}
