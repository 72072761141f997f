/**
 * Sizzle's memoised search along one direction (files-IoT/www/lib/jquery-latest.js, lines
 * 4110-4144 and 4988-5060).  For each slot of a check set the code walks from the slot's node
 * along parentNode (or previousSibling) to the first match, stamping nodes on the way; a later
 * walk that meets a stamp stops there and copies the earlier slot's result.
 */
module DirCheckSpec {
  import opened Wrappers

  /** An entry of a check set: something false, the value true, or a node. */
  datatype Slot = Falsy | True | Elem(node: nat)

  /** The nodes of a document along one direction. */
  datatype Document = Document(next: seq<Option<nat>>, isElement: seq<bool>, name: seq<string>)

  /** What the search looks for: a lower-case node name, a given node, or a selector each node passes or fails. */
  datatype Part = Word(word: string) | Reference(node: nat) | Selector(passes: seq<bool>)

  /** The direction never leads back: every step lowers the depth. */
  ghost predicate Acyclic(doc: Document, depth: seq<nat>)
  {
    && |doc.next| == |doc.isElement| == |doc.name| == |depth|
    && forall n :: 0 <= n < |doc.next| && doc.next[n].Some? ==>
         doc.next[n].value < |doc.next| && depth[doc.next[n].value] < depth[n]
  }

  predicate Fits(doc: Document, part: Part)
  {
    part.Selector? ==> |part.passes| == |doc.next|
  }

  function ToLower(s: string): string
  {
    seq(|s|, i requires 0 <= i < |s| => if 'A' <= s[i] <= 'Z' then s[i] - 'A' + 'a' else s[i])
  }

  /** A part that is a plain word is compared in lower case. */
  function Lowered(part: Part): Part
  {
    if part.Word? then Word(ToLower(part.word)) else part
  }

  /** What node n contributes when a walk reaches it. */
  function Hit(doc: Document, part: Part, n: nat): Slot
    requires n < |doc.next| == |doc.isElement| == |doc.name| && Fits(doc, part)
  {
    match part
    case Word(word) => if ToLower(doc.name[n]) == word then Elem(n) else Falsy
    case Reference(node) => if doc.isElement[n] && n == node then True else Falsy
    case Selector(passes) => if doc.isElement[n] && passes[n] then Elem(n) else Falsy
  }

  /** The uncached walk: the first hit at or after a node. */
  ghost function Search(doc: Document, depth: seq<nat>, part: Part, at: Option<nat>): Slot
    requires Acyclic(doc, depth) && Fits(doc, part)
    requires at.Some? ==> at.value < |doc.next|
    decreases if at.Some? then depth[at.value] + 1 else 0
  {
    if at.None? then Falsy
    else if Hit(doc, part, at.value) != Falsy then Hit(doc, part, at.value)
    else Search(doc, depth, part, doc.next[at.value])
  }

  /** All nodes that a walk from a node visits, in order. */
  ghost function Chain(doc: Document, depth: seq<nat>, at: Option<nat>): (c: seq<nat>)
    requires Acyclic(doc, depth)
    requires at.Some? ==> at.value < |doc.next|
    ensures forall k :: 0 <= k < |c| ==> c[k] < |doc.next|
    decreases if at.Some? then depth[at.value] + 1 else 0
  {
    if at.None? then [] else [at.value] + Chain(doc, depth, doc.next[at.value])
  }

  /** found is the first hit on the chain c, or Falsy when c has none. */
  ghost predicate FirstOn(doc: Document, part: Part, c: seq<nat>, found: Slot)
    requires |doc.next| == |doc.isElement| == |doc.name| && Fits(doc, part)
    requires forall j :: 0 <= j < |c| ==> c[j] < |doc.next|
  {
    if found == Falsy then
      forall k :: 0 <= k < |c| ==> Hit(doc, part, c[k]) == Falsy
    else
      exists k ::
        && 0 <= k < |c| && Hit(doc, part, c[k]) == found
        && forall j :: 0 <= j < k ==> Hit(doc, part, c[j]) == Falsy
  }

  lemma FirstOnCons(doc: Document, part: Part, n: nat, rest: seq<nat>, found: Slot)
    requires |doc.next| == |doc.isElement| == |doc.name| && Fits(doc, part)
    requires n < |doc.next| && forall j :: 0 <= j < |rest| ==> rest[j] < |doc.next|
    requires FirstOn(doc, part, rest, found)
    ensures FirstOn(doc, part, [n] + rest, if Hit(doc, part, n) != Falsy then Hit(doc, part, n) else found)
  {
    var c := [n] + rest;
    assert c[0] == n && forall j :: 0 < j < |c| ==> c[j] == rest[j - 1];
    if Hit(doc, part, n) == Falsy && found != Falsy {
      var k :| 0 <= k < |rest| && Hit(doc, part, rest[k]) == found &&
        forall j :: 0 <= j < k ==> Hit(doc, part, rest[j]) == Falsy;
      assert Hit(doc, part, c[k + 1]) == found;
    }
  }

  /** The search returns the first hit on the chain, and nothing when there is none. */
  lemma {:induction false} SearchIsFirstHit(doc: Document, depth: seq<nat>, part: Part, at: Option<nat>)
    requires Acyclic(doc, depth) && Fits(doc, part)
    requires at.Some? ==> at.value < |doc.next|
    ensures FirstOn(doc, part, Chain(doc, depth, at), Search(doc, depth, part, at))
    decreases if at.Some? then depth[at.value] + 1 else 0
  {
    if at.None? {
    } else {
      var next := doc.next[at.value];
      SearchIsFirstHit(doc, depth, part, next);
      FirstOnCons(doc, part, at.value, Chain(doc, depth, next), Search(doc, depth, part, next));
    }
  }

  /** Some stamps have been replaced by names given out from one moment to another. */
  ghost predicate Foreign(before: seq<int>, after: seq<int>, from: nat, to: nat)
  {
    && |before| == |after| && from <= to
    && forall n :: 0 <= n < |before| ==> after[n] == before[n] || from <= after[n] < to
  }

  /** The same, with stamps of the search itself besides. */
  ghost predicate Overwritten(before: seq<int>, after: seq<int>, doneName: nat, from: nat, to: nat)
  {
    && |before| == |after| && from <= to
    && forall n :: 0 <= n < |before| ==> after[n] == before[n] || after[n] == doneName || from <= after[n] < to
  }

  /** Where the walk for a slot begins. */
  function StartOf(doc: Document, slot: Slot): Option<nat>
    requires slot.Elem? ==> slot.node < |doc.next|
  {
    if slot.Elem? then doc.next[slot.node] else None
  }

  ghost predicate InDocument(doc: Document, slots: seq<Slot>)
  {
    forall i :: 0 <= i < |slots| && slots[i].Elem? ==> slots[i].node < |doc.next|
  }

  // ------------------------------------------------------------------
  // What a slot gets
  // ------------------------------------------------------------------

  /** c are the nodes from at on, one after the other to the end. */
  ghost predicate Follows(doc: Document, at: Option<nat>, c: seq<nat>)
  {
    && at == (if c == [] then None else Some(c[0]))
    && (forall k :: 0 <= k < |c| ==> c[k] < |doc.next|)
    && forall k :: 0 <= k < |c| ==> LeadsOn(doc, c, k)
  }

  ghost predicate LeadsOn(doc: Document, c: seq<nat>, k: nat)
    requires k < |c| && c[k] < |doc.next|
  {
    doc.next[c[k]] == if k + 1 < |c| then Some(c[k + 1]) else None
  }

  /** c are the nodes behind n in the direction, to the end; n is not among them. */
  ghost predicate Behind(doc: Document, n: nat, c: seq<nat>)
    requires n < |doc.next|
  {
    Follows(doc, doc.next[n], c) && n !in c
  }

  lemma FollowsCons(doc: Document, n: nat, c: seq<nat>)
    requires n < |doc.next| && Follows(doc, doc.next[n], c)
    ensures Follows(doc, Some(n), [n] + c)
  {
    var d := [n] + c;
    assert forall k :: 0 < k < |d| ==> d[k] == c[k - 1];
    forall k | 0 <= k < |d|
      ensures LeadsOn(doc, d, k)
    {
      if k == 0 {
        assert d[0] == n && (c != [] ==> d[1] == c[0]);
      } else {
        assert LeadsOn(doc, c, k - 1);
        assert d[k] == c[k - 1] && (k < |c| ==> d[k + 1] == c[k]);
      }
    }
  }

  lemma {:induction false} ChainFollows(doc: Document, depth: seq<nat>, at: Option<nat>, n: nat)
    requires Acyclic(doc, depth) && n < |doc.next|
    requires at.Some? ==> at.value < |doc.next| && depth[at.value] < depth[n]
    ensures Follows(doc, at, Chain(doc, depth, at)) && n !in Chain(doc, depth, at)
    decreases if at.Some? then depth[at.value] + 1 else 0
  {
    if at.None? {
      assert Chain(doc, depth, at) == [];
    } else {
      ChainFollows(doc, depth, doc.next[at.value], n);
      FollowsCons(doc, at.value, Chain(doc, depth, doc.next[at.value]));
    }
  }

  /** found is the first node of c of that lower-case name, or Falsy if there is none. */
  ghost predicate FirstNamed(doc: Document, word: string, c: seq<nat>, found: Slot)
    requires |doc.name| == |doc.next| && forall k :: 0 <= k < |c| ==> c[k] < |doc.next|
  {
    || (found == Falsy && forall k :: 0 <= k < |c| ==> ToLower(doc.name[c[k]]) != word)
    || exists k ::
         && 0 <= k < |c| && found == Elem(c[k]) && ToLower(doc.name[c[k]]) == word
         && forall j :: 0 <= j < k ==> ToLower(doc.name[c[j]]) != word
  }

  /** found is the first element of c that passes, or Falsy if none does. */
  ghost predicate FirstPassing(doc: Document, passes: seq<bool>, c: seq<nat>, found: Slot)
    requires |passes| == |doc.isElement| == |doc.next| && forall k :: 0 <= k < |c| ==> c[k] < |doc.next|
  {
    || (found == Falsy && forall k :: 0 <= k < |c| ==> !(doc.isElement[c[k]] && passes[c[k]]))
    || exists k ::
         && 0 <= k < |c| && found == Elem(c[k]) && doc.isElement[c[k]] && passes[c[k]]
         && forall j :: 0 <= j < k ==> !(doc.isElement[c[j]] && passes[c[j]])
  }

  /** The search by name gives a slot the nearest node strictly behind its own that has the name. */
  lemma SlotByName(doc: Document, depth: seq<nat>, word: string, n: nat) returns (c: seq<nat>)
    requires Acyclic(doc, depth) && n < |doc.next|
    ensures Behind(doc, n, c)
    ensures FirstNamed(doc, word, c, Search(doc, depth, Word(word), StartOf(doc, Elem(n))))
  {
    hide Search, Chain, ToLower, FirstOn, FirstNamed;
    c := Chain(doc, depth, doc.next[n]);
    ChainFollows(doc, depth, doc.next[n], n);
    SearchIsFirstHit(doc, depth, Word(word), doc.next[n]);
    HitIsNamed(doc, word, c, Search(doc, depth, Word(word), doc.next[n]));
  }

  lemma HitIsNamed(doc: Document, word: string, c: seq<nat>, found: Slot)
    requires |doc.next| == |doc.isElement| == |doc.name| && forall k :: 0 <= k < |c| ==> c[k] < |doc.next|
    requires FirstOn(doc, Word(word), c, found)
    ensures FirstNamed(doc, word, c, found)
  {
    hide ToLower;
    forall k | 0 <= k < |c|
      ensures Hit(doc, Word(word), c[k]) == if ToLower(doc.name[c[k]]) == word then Elem(c[k]) else Falsy
    {
    }
  }

  /** The search by a filter gives it the nearest element strictly behind its own that passes. */
  lemma SlotBySelector(doc: Document, depth: seq<nat>, passes: seq<bool>, n: nat) returns (c: seq<nat>)
    requires Acyclic(doc, depth) && n < |doc.next| == |passes|
    ensures Behind(doc, n, c)
    ensures FirstPassing(doc, passes, c, Search(doc, depth, Selector(passes), StartOf(doc, Elem(n))))
  {
    hide Search, Chain, FirstOn, FirstPassing;
    c := Chain(doc, depth, doc.next[n]);
    ChainFollows(doc, depth, doc.next[n], n);
    SearchIsFirstHit(doc, depth, Selector(passes), doc.next[n]);
    HitIsPassing(doc, passes, c, Search(doc, depth, Selector(passes), doc.next[n]));
  }

  lemma HitIsPassing(doc: Document, passes: seq<bool>, c: seq<nat>, found: Slot)
    requires |doc.next| == |doc.isElement| == |doc.name| == |passes| && forall k :: 0 <= k < |c| ==> c[k] < |doc.next|
    requires FirstOn(doc, Selector(passes), c, found)
    ensures FirstPassing(doc, passes, c, found)
  {
    forall k | 0 <= k < |c|
      ensures Hit(doc, Selector(passes), c[k]) == if doc.isElement[c[k]] && passes[c[k]] then Elem(c[k]) else Falsy
    {
    }
  }

  /** The search for a node gives it true exactly if that node is an element strictly behind its own. */
  lemma SlotByReference(doc: Document, depth: seq<nat>, node: nat, n: nat) returns (c: seq<nat>)
    requires Acyclic(doc, depth) && n < |doc.next|
    ensures Behind(doc, n, c)
    ensures Search(doc, depth, Reference(node), StartOf(doc, Elem(n))) ==
      if node in c && doc.isElement[node] then True else Falsy
  {
    hide Search, Chain, FirstOn;
    c := Chain(doc, depth, doc.next[n]);
    ChainFollows(doc, depth, doc.next[n], n);
    SearchIsFirstHit(doc, depth, Reference(node), doc.next[n]);
    HitIsReference(doc, node, c, Search(doc, depth, Reference(node), doc.next[n]));
  }

  lemma HitIsReference(doc: Document, node: nat, c: seq<nat>, found: Slot)
    requires |doc.next| == |doc.isElement| == |doc.name| && forall k :: 0 <= k < |c| ==> c[k] < |doc.next|
    requires FirstOn(doc, Reference(node), c, found)
    ensures found == if node in c && doc.isElement[node] then True else Falsy
  {
    if node in c {
      var k :| 0 <= k < |c| && c[k] == node;
      assert Hit(doc, Reference(node), c[k]) == if doc.isElement[node] then True else Falsy;
    }
  }

  /** A plain word is looked for whatever the case of its letters and of the names. */
  lemma SlotIgnoresCase(doc: Document, depth: seq<nat>, word: string, n: nat) returns (c: seq<nat>)
    requires Acyclic(doc, depth) && n < |doc.next|
    ensures Behind(doc, n, c)
    ensures FirstNamed(doc, ToLower(word), c, Search(doc, depth, Lowered(Word(word)), StartOf(doc, Elem(n))))
  {
    hide Search, ToLower, FirstNamed, Behind;
    c := SlotByName(doc, depth, ToLower(word), n);
  }

  /** A slot that holds no node ends false. */
  lemma SlotWithoutNode(doc: Document, depth: seq<nat>, part: Part, slot: Slot)
    requires Acyclic(doc, depth) && Fits(doc, part) && !slot.Elem?
    ensures Search(doc, depth, part, StartOf(doc, slot)) == Falsy
  {
  }

  /** Lower case: every capital has become its small letter, 32 further on, and nothing else changes. */
  lemma ToLowerLowers(s: string, i: nat)
    requires i < |s|
    ensures |ToLower(s)| == |s|
    ensures ToLower(s)[i] as int == s[i] as int + if 65 <= s[i] as int <= 90 then 32 else 0
  {
  }

  /** Every stamped node belongs to a slot before i, whose result is what a walk from that node finds. */
  ghost predicate Memo(doc: Document, depth: seq<nat>, part: Part, doneName: int,
                       sizcache: seq<int>, sizset: seq<nat>, slots: seq<Slot>, i: nat)
    requires Acyclic(doc, depth) && Fits(doc, part)
    requires |sizcache| == |sizset| == |doc.next| && i <= |slots|
  {
    forall n :: 0 <= n < |sizcache| && sizcache[n] == doneName ==>
      sizset[n] < i && slots[sizset[n]] == Search(doc, depth, part, Some(n))
  }

  /**
   * During the walk for slot i, standing before node at: a stamped node either belongs to an earlier
   * slot as above, or was stamped by this walk, lies behind us, and leads to the same result.
   */
  ghost predicate Walking(doc: Document, depth: seq<nat>, part: Part, doneName: int,
                          sizcache: seq<int>, sizset: seq<nat>, slots: seq<Slot>, i: nat,
                          start: Option<nat>, at: Option<nat>)
    requires Acyclic(doc, depth) && Fits(doc, part)
    requires |sizcache| == |sizset| == |doc.next| && i < |slots|
    requires start.Some? ==> start.value < |doc.next|
    requires at.Some? ==> at.value < |doc.next|
  {
    forall n :: 0 <= n < |sizcache| && sizcache[n] == doneName ==>
      || (sizset[n] < i && slots[sizset[n]] == Search(doc, depth, part, Some(n)))
      || (sizset[n] == i && (at.Some? ==> depth[at.value] < depth[n])
            && Search(doc, depth, part, Some(n)) == Search(doc, depth, part, start))
  }

  /** What a walk has looked at: the chain from its start on, up to a hit, a stamp or the end. */
  ghost predicate Visited(doc: Document, depth: seq<nat>, part: Part, start: Option<nat>, visited: seq<nat>,
                          doneName: int, sizcache: seq<int>)
    requires Acyclic(doc, depth) && Fits(doc, part) && |sizcache| == |doc.next|
    requires start.Some? ==> start.value < |doc.next|
  {
    var c := Chain(doc, depth, start);
    && visited <= c
    && (|visited| < |c| ==>
          || sizcache[c[|visited|]] == doneName
          || (visited != [] && Hit(doc, part, c[|visited| - 1]) != Falsy))
  }

  /** Every element among them has been stamped, unless a later name, from from on, is over the stamp. */
  ghost predicate AllStamped(doc: Document, visited: seq<nat>, doneName: int, sizcache: seq<int>, from: Option<nat>)
    requires |sizcache| == |doc.next| == |doc.isElement|
  {
    forall n :: n in visited && n < |doc.next| && doc.isElement[n] ==>
      sizcache[n] == doneName || (from.Some? && sizcache[n] >= from.value)
  }

  ghost predicate OnTheWay(doc: Document, depth: seq<nat>, start: Option<nat>, visited: seq<nat>, at: Option<nat>)
    requires Acyclic(doc, depth)
    requires (start.Some? ==> start.value < |doc.next|) && (at.Some? ==> at.value < |doc.next|)
  {
    Chain(doc, depth, start) == visited + Chain(doc, depth, at)
  }

  lemma AtTheStart(doc: Document, depth: seq<nat>, start: Option<nat>)
    requires Acyclic(doc, depth) && (start.Some? ==> start.value < |doc.next|)
    ensures OnTheWay(doc, depth, start, [], start)
  {
  }

  lemma Onward(doc: Document, depth: seq<nat>, start: Option<nat>, visited: seq<nat>, n: nat)
    requires Acyclic(doc, depth) && (start.Some? ==> start.value < |doc.next|) && n < |doc.next|
    requires OnTheWay(doc, depth, start, visited, Some(n))
    ensures OnTheWay(doc, depth, start, visited + [n], doc.next[n])
  {
    assert Chain(doc, depth, Some(n)) == [n] + Chain(doc, depth, doc.next[n]);
  }

  /** Where a walk may stop. */
  lemma MayStop(doc: Document, depth: seq<nat>, part: Part, start: Option<nat>, visited: seq<nat>, at: Option<nat>,
                doneName: int, sizcache: seq<int>)
    requires Acyclic(doc, depth) && Fits(doc, part) && |sizcache| == |doc.next|
    requires (start.Some? ==> start.value < |doc.next|) && (at.Some? ==> at.value < |doc.next|)
    requires OnTheWay(doc, depth, start, visited, at)
    requires at.None? || sizcache[at.value] == doneName ||
      (visited != [] && visited[|visited| - 1] < |doc.next| && Hit(doc, part, visited[|visited| - 1]) != Falsy)
    ensures Visited(doc, depth, part, start, visited, doneName, sizcache)
  {
    hide Hit;
    var c := Chain(doc, depth, start);
    assert at.Some? ==> Chain(doc, depth, at)[0] == at.value;
    assert |visited| < |c| ==> c[|visited|] == Chain(doc, depth, at)[0];
    assert visited != [] ==> c[|visited| - 1] == visited[|visited| - 1];
  }

  // ------------------------------------------------------------------
  // Steps of a walk
  // ------------------------------------------------------------------

  /** One step of the walk without stamps. */
  lemma SearchFrom(doc: Document, depth: seq<nat>, part: Part, n: nat)
    requires Acyclic(doc, depth) && Fits(doc, part) && n < |doc.next|
    ensures Search(doc, depth, part, Some(n)) ==
      if Hit(doc, part, n) != Falsy then Hit(doc, part, n) else Search(doc, depth, part, doc.next[n])
  {
  }

  lemma SearchEnds(doc: Document, depth: seq<nat>, part: Part)
    requires Acyclic(doc, depth) && Fits(doc, part)
    ensures Search(doc, depth, part, None) == Falsy
  {
  }

  /** Before the walk for slot i nothing carries its number. */
  lemma WalkingStarts(doc: Document, depth: seq<nat>, part: Part, doneName: int, sizcache: seq<int>, sizset: seq<nat>,
                      slots: seq<Slot>, i: nat, start: Option<nat>)
    requires Acyclic(doc, depth) && Fits(doc, part) && |sizcache| == |sizset| == |doc.next| && i < |slots|
    requires start.Some? ==> start.value < |doc.next|
    requires Memo(doc, depth, part, doneName, sizcache, sizset, slots, i)
    ensures Walking(doc, depth, part, doneName, sizcache, sizset, slots, i, start, start)
  {
    hide Search;
  }

  /** A stamp that the walk meets is an earlier slot's, and gives what is looked for. */
  lemma StampTells(doc: Document, depth: seq<nat>, part: Part, doneName: int, sizcache: seq<int>, sizset: seq<nat>,
                   slots: seq<Slot>, i: nat, start: Option<nat>, n: nat)
    requires Acyclic(doc, depth) && Fits(doc, part) && |sizcache| == |sizset| == |doc.next| && i < |slots|
    requires start.Some? ==> start.value < |doc.next|
    requires n < |doc.next| && sizcache[n] == doneName
    requires Walking(doc, depth, part, doneName, sizcache, sizset, slots, i, start, Some(n))
    ensures sizset[n] < i && slots[sizset[n]] == Search(doc, depth, part, Some(n))
    ensures Walking(doc, depth, part, doneName, sizcache, sizset, slots, i, start, None)
  {
    hide Search;
  }

  /** The walk goes on from n, having stamped it or not; or it ends there. */
  lemma WalkingGoesOn(doc: Document, depth: seq<nat>, part: Part, doneName: int, sizcache: seq<int>, sizset: seq<nat>,
                      slots: seq<Slot>, i: nat, start: Option<nat>, n: nat, stamped: bool)
    requires Acyclic(doc, depth) && Fits(doc, part) && |sizcache| == |sizset| == |doc.next| && i < |slots|
    requires start.Some? ==> start.value < |doc.next|
    requires n < |doc.next| && Search(doc, depth, part, start) == Search(doc, depth, part, Some(n))
    requires Walking(doc, depth, part, doneName, sizcache, sizset, slots, i, start, Some(n))
    ensures
      var c, s := if stamped then sizcache[n := doneName] else sizcache, if stamped then sizset[n := i] else sizset;
      && Walking(doc, depth, part, doneName, c, s, slots, i, start, doc.next[n])
      && Walking(doc, depth, part, doneName, c, s, slots, i, start, None)
  {
    hide Search;
  }

  /** Names given out later only take stamps away. */
  lemma ForeignKeeps(doc: Document, depth: seq<nat>, part: Part, doneName: nat, before: seq<int>, after: seq<int>,
                     sizset: seq<nat>, slots: seq<Slot>, i: nat, start: Option<nat>, at: Option<nat>,
                     from: nat, to: nat)
    requires Acyclic(doc, depth) && Fits(doc, part) && |before| == |sizset| == |doc.next| && i < |slots|
    requires (start.Some? ==> start.value < |doc.next|) && (at.Some? ==> at.value < |doc.next|)
    requires Foreign(before, after, from, to) && doneName < from
    requires Walking(doc, depth, part, doneName, before, sizset, slots, i, start, at)
    ensures Walking(doc, depth, part, doneName, after, sizset, slots, i, start, at)
  {
    hide Search;
  }
}

/** The searches themselves, over stamps on the nodes. */
module DirCheck {
  import opened Wrappers
  import opened DirCheckSpec

  /** The stamps that live on the nodes, and the counter that gives each search a fresh name. */
  class Sizzle {
    var done: nat
    const sizcache: array<int>
    const sizset: array<nat>

    /** Stamps of past searches are all older than the next name. */
    ghost predicate Valid(nodes: nat)
      reads this, sizcache
    {
      && sizcache.Length == sizset.Length == nodes
      && forall n :: 0 <= n < nodes ==> sizcache[n] < done
    }

    /** No node carries a stamp yet (an absent property is modelled as -1). */
    constructor (nodes: nat)
      ensures Valid(nodes) && fresh(sizcache) && fresh(sizset)
    {
      done := 0;
      sizcache := new int[nodes](_ => -1);
      sizset := new nat[nodes](_ => 0);
    }

    /** The while loop of dirNodeCheck, for slot i: from elem on, to a stamp, a match, or the end. */
    method WalkByName(doc: Document, cur: string, doneName: int, checkSet: array<Slot>, i: nat, isXML: bool,
                    start: Option<nat>, ghost depth: seq<nat>) returns (found: Slot, ghost visited: seq<nat>)
      requires Acyclic(doc, depth) && sizcache.Length == sizset.Length == |doc.next|
      requires i < checkSet.Length && (start.Some? ==> start.value < |doc.next|)
      requires Memo(doc, depth, Word(cur), doneName, sizcache[..], sizset[..], checkSet[..], i)
      modifies sizcache, sizset
      ensures found == Search(doc, depth, Word(cur), start)
      ensures Walking(doc, depth, Word(cur), doneName, sizcache[..], sizset[..], checkSet[..], i, start, None)
      ensures forall n :: 0 <= n < sizcache.Length ==> sizcache[n] == old(sizcache[n]) || sizcache[n] == doneName
      ensures Visited(doc, depth, Word(cur), start, visited, doneName, sizcache[..])
      ensures !isXML ==> AllStamped(doc, visited, doneName, sizcache[..], None)
    {
      hide Search, Walking, Memo, Visited, OnTheWay, Chain;
      found, visited := Falsy, [];
      var elem: Option<nat> := start;
      WalkingStarts(doc, depth, Word(cur), doneName, sizcache[..], sizset[..], checkSet[..], i, start);
      SearchEnds(doc, depth, Word(cur));
      AtTheStart(doc, depth, start);
      while elem.Some?
        invariant elem.Some? ==> elem.value < |doc.next|
        invariant found == Falsy && Search(doc, depth, Word(cur), start) == Search(doc, depth, Word(cur), elem)
        invariant Walking(doc, depth, Word(cur), doneName, sizcache[..], sizset[..], checkSet[..], i, start, elem)
        invariant forall n :: 0 <= n < sizcache.Length ==> sizcache[n] == old(sizcache[n]) || sizcache[n] == doneName
        invariant OnTheWay(doc, depth, start, visited, elem)
        invariant !isXML ==> AllStamped(doc, visited, doneName, sizcache[..], None)
        decreases if elem.Some? then depth[elem.value] + 1 else 0
      {
        var n := elem.value;
        SearchFrom(doc, depth, Word(cur), n);
        if sizcache[n] == doneName {
          StampTells(doc, depth, Word(cur), doneName, sizcache[..], sizset[..], checkSet[..], i, start, n);
          MayStop(doc, depth, Word(cur), start, visited, elem, doneName, sizcache[..]);
          return checkSet[sizset[n]], visited;
        }
        WalkingGoesOn(doc, depth, Word(cur), doneName, sizcache[..], sizset[..], checkSet[..], i, start, n,
                      doc.isElement[n] && !isXML);
        Onward(doc, depth, start, visited, n);
        visited := visited + [n];
        if doc.isElement[n] && !isXML {
          ghost var c, s := sizcache[..], sizset[..];
          sizcache[n], sizset[n] := doneName, i;
          assert sizcache[..] == c[n := doneName] && sizset[..] == s[n := i];
        }
        if ToLower(doc.name[n]) == cur {
          MayStop(doc, depth, Word(cur), start, visited, doc.next[n], doneName, sizcache[..]);
          return Elem(n), visited;
        }
        elem := doc.next[n];
      }
      MayStop(doc, depth, Word(cur), start, visited, None, doneName, sizcache[..]);
    }

    /** dirNodeCheck */
    method DirNodeCheck(doc: Document, cur: string, doneName: int, checkSet: array<Slot>, isXML: bool,
                        ghost depth: seq<nat>)
      requires Acyclic(doc, depth) && sizcache.Length == sizset.Length == |doc.next|
      requires InDocument(doc, checkSet[..])
      requires forall n :: 0 <= n < sizcache.Length ==> sizcache[n] != doneName
      modifies checkSet, sizcache, sizset
      ensures forall i :: 0 <= i < checkSet.Length ==>
        checkSet[i] == Search(doc, depth, Word(cur), StartOf(doc, old(checkSet[i])))
      ensures forall n :: 0 <= n < sizcache.Length ==> sizcache[n] == old(sizcache[n]) || sizcache[n] == doneName
    {
      ghost var was := checkSet[..];
      for i := 0 to checkSet.Length
        invariant forall k :: 0 <= k < i ==> checkSet[k] == Search(doc, depth, Word(cur), StartOf(doc, was[k]))
        invariant forall k :: i <= k < checkSet.Length ==> checkSet[k] == was[k]
        invariant Memo(doc, depth, Word(cur), doneName, sizcache[..], sizset[..], checkSet[..], i)
        invariant forall n :: 0 <= n < sizcache.Length ==> sizcache[n] == old(sizcache[n]) || sizcache[n] == doneName
      {
        if checkSet[i] != Falsy {
          var found;
          ghost var visited;
          found, visited := WalkByName(doc, cur, doneName, checkSet, i, isXML, StartOf(doc, checkSet[i]), depth);
          checkSet[i] := found;
        }
      }
    }

    /**
     * Sizzle.filter on one node.  A filter for child positions takes new names from the same counter, and may
     * put one over the stamp of a node: stamps lists what it does, one name for each entry.
     */
    method Filter(passes: seq<bool>, n: nat, stamps: seq<Option<nat>>) returns (ok: bool)
      requires n < |passes|
      modifies this`done, sizcache
      ensures ok == passes[n] && done == old(done) + |stamps|
      ensures Foreign(old(sizcache[..]), sizcache[..], old(done), done)
    {
      for k := 0 to |stamps|
        invariant done == old(done) + k
        invariant Foreign(old(sizcache[..]), sizcache[..], old(done), done)
      {
        if stamps[k].Some? && stamps[k].value < sizcache.Length {
          sizcache[stamps[k].value] := done;
        }
        done := done + 1;
      }
      ok := passes[n];
    }

    /** The while loop of dirCheck, for slot i: from elem on, to a stamp, a match, or the end. */
    method WalkByTest(doc: Document, cur: Part, doneName: nat, checkSet: array<Slot>, i: nat, isXML: bool,
                    start: Option<nat>, stamps: nat -> seq<Option<nat>>, ghost depth: seq<nat>)
      returns (found: Slot, ghost visited: seq<nat>)
      requires Acyclic(doc, depth) && sizcache.Length == sizset.Length == |doc.next| && !cur.Word? && Fits(doc, cur)
      requires i < checkSet.Length && (start.Some? ==> start.value < |doc.next|) && doneName < done
      requires Memo(doc, depth, cur, doneName, sizcache[..], sizset[..], checkSet[..], i)
      modifies this`done, sizcache, sizset
      ensures found == Search(doc, depth, cur, start)
      ensures Walking(doc, depth, cur, doneName, sizcache[..], sizset[..], checkSet[..], i, start, None)
      ensures Overwritten(old(sizcache[..]), sizcache[..], doneName, old(done), done)
      ensures Visited(doc, depth, cur, start, visited, doneName, sizcache[..])
      ensures !isXML ==> AllStamped(doc, visited, doneName, sizcache[..], Some(old(done)))
    {
      hide Search, Walking, Memo, Visited, OnTheWay, Chain;
      found, visited := Falsy, [];
      var elem: Option<nat> := start;
      WalkingStarts(doc, depth, cur, doneName, sizcache[..], sizset[..], checkSet[..], i, start);
      SearchEnds(doc, depth, cur);
      AtTheStart(doc, depth, start);
      while elem.Some?
        invariant elem.Some? ==> elem.value < |doc.next|
        invariant found == Falsy && Search(doc, depth, cur, start) == Search(doc, depth, cur, elem)
        invariant Walking(doc, depth, cur, doneName, sizcache[..], sizset[..], checkSet[..], i, start, elem)
        invariant Overwritten(old(sizcache[..]), sizcache[..], doneName, old(done), done)
        invariant OnTheWay(doc, depth, start, visited, elem)
        invariant !isXML ==> AllStamped(doc, visited, doneName, sizcache[..], Some(old(done)))
        decreases if elem.Some? then depth[elem.value] + 1 else 0
      {
        var n := elem.value;
        SearchFrom(doc, depth, cur, n);
        if sizcache[n] == doneName {
          StampTells(doc, depth, cur, doneName, sizcache[..], sizset[..], checkSet[..], i, start, n);
          MayStop(doc, depth, cur, start, visited, elem, doneName, sizcache[..]);
          return checkSet[sizset[n]], visited;
        }
        WalkingGoesOn(doc, depth, cur, doneName, sizcache[..], sizset[..], checkSet[..], i, start, n,
                      doc.isElement[n] && !isXML);
        Onward(doc, depth, start, visited, n);
        visited := visited + [n];
        if doc.isElement[n] {
          ghost var c, s := sizcache[..], sizset[..];
          if !isXML {
            sizcache[n], sizset[n] := doneName, i;
            assert sizcache[..] == c[n := doneName] && sizset[..] == s[n := i];
          }
          if cur.Reference? {
            if n == cur.node {
              MayStop(doc, depth, cur, start, visited, doc.next[n], doneName, sizcache[..]);
              return True, visited;
            }
          } else {
            c := sizcache[..];
            ghost var from := done;
            var ok := Filter(cur.passes, n, stamps(n));
            ForeignKeeps(doc, depth, cur, doneName, c, sizcache[..], sizset[..], checkSet[..], i, start, None,
                         from, done);
            ForeignKeeps(doc, depth, cur, doneName, c, sizcache[..], sizset[..], checkSet[..], i, start, doc.next[n],
                         from, done);
            if ok {
              MayStop(doc, depth, cur, start, visited, doc.next[n], doneName, sizcache[..]);
              return Elem(n), visited;
            }
          }
        }
        elem := doc.next[n];
      }
      MayStop(doc, depth, cur, start, visited, None, doneName, sizcache[..]);
    }

    /** dirCheck; the filter's effects may depend on the slot and the node. */
    method DirCheck(doc: Document, cur: Part, doneName: nat, checkSet: array<Slot>, isXML: bool,
                    stamps: (nat, nat) -> seq<Option<nat>>, ghost depth: seq<nat>)
      requires Acyclic(doc, depth) && sizcache.Length == sizset.Length == |doc.next| && !cur.Word? && Fits(doc, cur)
      requires InDocument(doc, checkSet[..]) && doneName < done
      requires forall n :: 0 <= n < sizcache.Length ==> sizcache[n] != doneName
      modifies this`done, checkSet, sizcache, sizset
      ensures forall i :: 0 <= i < checkSet.Length ==>
        checkSet[i] == Search(doc, depth, cur, StartOf(doc, old(checkSet[i])))
      ensures Overwritten(old(sizcache[..]), sizcache[..], doneName, old(done), done)
    {
      ghost var was := checkSet[..];
      for i := 0 to checkSet.Length
        invariant doneName < done
        invariant forall k :: 0 <= k < i ==> checkSet[k] == Search(doc, depth, cur, StartOf(doc, was[k]))
        invariant forall k :: i <= k < checkSet.Length ==> checkSet[k] == was[k]
        invariant Memo(doc, depth, cur, doneName, sizcache[..], sizset[..], checkSet[..], i)
        invariant Overwritten(old(sizcache[..]), sizcache[..], doneName, old(done), done)
      {
        if checkSet[i] != Falsy {
          var found;
          ghost var visited;
          found, visited := WalkByTest(doc, cur, doneName, checkSet, i, isXML, StartOf(doc, checkSet[i]),
                                       (n: nat) => stamps(i, n), depth);
          checkSet[i] := found;
        }
      }
    }

    /** The relative selectors "" (parentNode) and "~" (previousSibling): a fresh name for every search. */
    method Relative(doc: Document, part: Part, checkSet: array<Slot>, isXML: bool,
                    stamps: (nat, nat) -> seq<Option<nat>>, ghost depth: seq<nat>)
      requires Valid(|doc.next|) && Acyclic(doc, depth) && Fits(doc, part)
      requires InDocument(doc, checkSet[..])
      modifies this`done, checkSet, sizcache, sizset
      ensures Valid(|doc.next|)
      ensures forall i :: 0 <= i < checkSet.Length ==>
        checkSet[i] == Search(doc, depth, Lowered(part), StartOf(doc, old(checkSet[i])))
    {
      var doneName := done;
      done := done + 1;
      if part.Word? {
        DirNodeCheck(doc, ToLower(part.word), doneName, checkSet, isXML, depth);
      } else {
        DirCheck(doc, part, doneName, checkSet, isXML, stamps, depth);
      }
    }
  }
}
