/**
 * Sizzle's document-order comparator for browsers without compareDocumentPosition and
 * sourceIndex, and its duplicate removal (files-IoT/www/lib/jquery-latest.js, lines 3872-3887
 * and 4622-4698).  The comparator sees only parentNode and nextSibling; the reference is the
 * preorder traversal of the tree those links describe.
 */
module DocumentOrder {
  import opened Wrappers

  /** A document tree. */
  datatype Tree = Node(id: nat, kids: seq<Tree>)

  /** The links the comparator follows, indexed by node. */
  datatype Dom = Dom(parentNode: seq<Option<nat>>, nextSibling: seq<Option<nat>>)

  /** Document order: a node, then its children's subtrees in order. */
  function Preorder(t: Tree): (s: seq<nat>)
    ensures t.id in s
    decreases t, 1
  {
    [t.id] + PreorderAll(t.kids)
  }

  function PreorderAll(ts: seq<Tree>): seq<nat>
    decreases ts, 0
  {
    if ts == [] then [] else Preorder(ts[0]) + PreorderAll(ts[1..])
  }

  ghost predicate Distinct(s: seq<nat>)
  {
    forall i, j :: 0 <= i < j < |s| ==> s[i] != s[j]
  }

  function IndexOf(s: seq<nat>, x: nat): (i: nat)
    requires x in s
    ensures i < |s| && s[i] == x
  {
    if s[0] == x then 0 else 1 + IndexOf(s[1..], x)
  }

  function IdAt(ts: seq<Tree>, k: nat): Option<nat>
  {
    if k < |ts| then Some(ts[k].id) else None
  }

  /** The links describe the subtree t, whose root has the given parent and next sibling. */
  ghost predicate Linked(dom: Dom, t: Tree, parent: Option<nat>, sibling: Option<nat>)
    decreases t, 1
  {
    && t.id < |dom.parentNode| == |dom.nextSibling|
    && dom.parentNode[t.id] == parent && dom.nextSibling[t.id] == sibling
    && LinkedAll(dom, t.kids, t.id)
  }

  ghost predicate LinkedAll(dom: Dom, ts: seq<Tree>, parent: nat)
    decreases ts, 0
  {
    ts != [] ==>
      Linked(dom, ts[0], Some(parent), IdAt(ts, 1)) && LinkedAll(dom, ts[1..], parent)
  }

  /** A whole document: one root, every node once. */
  ghost predicate Document(dom: Dom, t: Tree)
  {
    Linked(dom, t, None, None) && Distinct(Preorder(t))
  }

  /** a comes before b in document order. */
  ghost predicate Before(t: Tree, a: nat, b: nat)
    requires a in Preorder(t) && b in Preorder(t)
  {
    IndexOf(Preorder(t), a) < IndexOf(Preorder(t), b)
  }

  /** Which child's subtree holds x. */
  function KidWith(ts: seq<Tree>, x: nat): (k: nat)
    requires x in PreorderAll(ts)
    ensures k < |ts| && x in Preorder(ts[k])
  {
    if x in Preorder(ts[0]) then 0 else 1 + KidWith(ts[1..], x)
  }

  /** The nodes from the root of t down to x. */
  function Path(t: Tree, x: nat): (p: seq<nat>)
    requires x in Preorder(t)
    ensures p != [] && p[0] == t.id && p[|p| - 1] == x
    decreases t
  {
    if x == t.id then [x] else [t.id] + Path(t.kids[KidWith(t.kids, x)], x)
  }

  // ------------------------------------------------------------------
  // Sequences of distinct nodes
  // ------------------------------------------------------------------

  lemma IndexUnique(s: seq<nat>, x: nat, i: nat)
    requires Distinct(s) && i < |s| && s[i] == x
    ensures IndexOf(s, x) == i
  {
  }

  lemma IndexInConcat(s: seq<nat>, t: seq<nat>, x: nat)
    requires Distinct(s + t) && (x in s || x in t)
    ensures IndexOf(s + t, x) == if x in s then IndexOf(s, x) else |s| + IndexOf(t, x)
  {
    hide IndexOf;
    if x in s {
      IndexUnique(s + t, x, IndexOf(s, x));
    } else {
      assert (s + t)[|s| + IndexOf(t, x)] == x;
      IndexUnique(s + t, x, |s| + IndexOf(t, x));
    }
  }

  lemma DistinctParts(s: seq<nat>, t: seq<nat>)
    requires Distinct(s + t)
    ensures Distinct(s) && Distinct(t)
    ensures forall x :: x in s ==> x !in t
  {
    assert forall i :: 0 <= i < |s| ==> (s + t)[i] == s[i];
    assert forall i :: 0 <= i < |t| ==> (s + t)[|s| + i] == t[i];
  }

  // ------------------------------------------------------------------
  // Preorder among the children of one node
  // ------------------------------------------------------------------

  /** Facts about child number k of a list of siblings. */
  lemma {:induction false} Kid(dom: Dom, ts: seq<Tree>, parent: nat, k: nat)
    requires LinkedAll(dom, ts, parent) && Distinct(PreorderAll(ts)) && k < |ts|
    ensures Linked(dom, ts[k], Some(parent), IdAt(ts, k + 1)) && Distinct(Preorder(ts[k]))
    ensures forall x :: x in Preorder(ts[k]) ==> x in PreorderAll(ts)
  {
    DistinctParts(Preorder(ts[0]), PreorderAll(ts[1..]));
    if k == 0 {
    } else {
      Kid(dom, ts[1..], parent, k - 1);
      assert ts[1..][k - 1] == ts[k];
      assert IdAt(ts[1..], k) == IdAt(ts, k + 1);
    }
  }

  /** A node lies in one child's subtree only. */
  lemma {:induction false} KidUnique(ts: seq<Tree>, x: nat, k: nat)
    requires Distinct(PreorderAll(ts)) && k < |ts| && x in Preorder(ts[k])
    ensures x in PreorderAll(ts) && KidWith(ts, x) == k
  {
    DistinctParts(Preorder(ts[0]), PreorderAll(ts[1..]));
    if k == 0 {
    } else {
      assert ts[1..][k - 1] == ts[k];
      KidUnique(ts[1..], x, k - 1);
    }
  }

  /** Nodes of different children are ordered as the children, nodes of one child as in its subtree. */
  lemma {:induction false} KidOrder(ts: seq<Tree>, a: nat, b: nat)
    requires Distinct(PreorderAll(ts)) && a in PreorderAll(ts) && b in PreorderAll(ts)
    ensures
      var i, j, all := KidWith(ts, a), KidWith(ts, b), PreorderAll(ts);
      IndexOf(all, a) < IndexOf(all, b) <==>
        if i == j then Before(ts[i], a, b) else i < j
  {
    var head, rest := Preorder(ts[0]), PreorderAll(ts[1..]);
    DistinctParts(head, rest);
    IndexInConcat(head, rest, a);
    IndexInConcat(head, rest, b);
    if a in head || b in head {
    } else {
      KidOrder(ts[1..], a, b);
    }
  }

  // ------------------------------------------------------------------
  // Paths, and where two of them part
  // ------------------------------------------------------------------

  /** Following parentNode from the end of p walks p backwards, and then to parent. */
  ghost predicate ParentChain(dom: Dom, p: seq<nat>, parent: Option<nat>)
  {
    forall i :: 0 <= i < |p| ==> ParentIs(dom, p, i, parent)
  }

  ghost predicate ParentIs(dom: Dom, p: seq<nat>, i: nat, parent: Option<nat>)
    requires i < |p|
  {
    p[i] < |dom.parentNode| && dom.parentNode[p[i]] == if i == 0 then parent else Some(p[i - 1])
  }

  lemma ParentChainCons(dom: Dom, n: nat, p: seq<nat>, parent: Option<nat>)
    requires n < |dom.parentNode| && dom.parentNode[n] == parent
    requires ParentChain(dom, p, Some(n))
    ensures ParentChain(dom, [n] + p, parent)
  {
    var q := [n] + p;
    forall i | 0 <= i < |q|
      ensures ParentIs(dom, q, i, parent)
    {
      assert i > 0 ==> ParentIs(dom, p, i - 1, Some(n));
    }
  }

  lemma {:induction false} PathIsParents(dom: Dom, t: Tree, parent: Option<nat>, sibling: Option<nat>, x: nat)
    requires Linked(dom, t, parent, sibling) && Distinct(Preorder(t)) && x in Preorder(t)
    ensures ParentChain(dom, Path(t, x), parent)
    decreases t
  {
    if x == t.id {
    } else {
      DistinctParts([t.id], PreorderAll(t.kids));
      var k := KidWith(t.kids, x);
      Kid(dom, t.kids, t.id, k);
      PathIsParents(dom, t.kids[k], Some(t.id), IdAt(t.kids, k + 1), x);
      ParentChainCons(dom, t.id, Path(t.kids[k], x), parent);
    }
  }

  /** sibs are all children of one node, from first to last. */
  ghost predicate Siblings(dom: Dom, sibs: seq<nat>)
  {
    Distinct(sibs) && forall k :: 0 <= k < |sibs| ==> NextIs(dom, sibs, k)
  }

  ghost predicate NextIs(dom: Dom, sibs: seq<nat>, k: nat)
    requires k < |sibs|
  {
    && sibs[k] < |dom.nextSibling|
    && dom.nextSibling[sibs[k]] == if k + 1 < |sibs| then Some(sibs[k + 1]) else None
  }

  function Ids(ts: seq<Tree>): (s: seq<nat>)
    ensures |s| == |ts|
  {
    seq(|ts|, k requires 0 <= k < |ts| => ts[k].id)
  }

  lemma KidsAreSiblings(dom: Dom, ts: seq<Tree>, parent: nat)
    requires LinkedAll(dom, ts, parent) && Distinct(PreorderAll(ts))
    ensures Siblings(dom, Ids(ts))
  {
    var s := Ids(ts);
    forall k | 0 <= k < |s|
      ensures NextIs(dom, s, k)
    {
      Kid(dom, ts, parent, k);
    }
    forall i, j | 0 <= i < j < |s|
      ensures s[i] != s[j]
    {
      KidUnique(ts, s[i], i);
      KidUnique(ts, s[j], j);
    }
    assert Distinct(s);
  }

  /** How two nodes lie to each other: one above the other, or below different children of one node. */
  datatype Relation = Above | Below | Apart(at: nat, sibs: seq<nat>, p: nat, q: nat)

  /** What a relation says about the two paths. */
  ghost predicate Describes(dom: Dom, rel: Relation, pa: seq<nat>, pb: seq<nat>)
  {
    match rel
    case Above => pa < pb
    case Below => pb < pa
    case Apart(at, sibs, p, q) =>
      && at < |pa| && at < |pb| && pa[..at] == pb[..at]
      && Siblings(dom, sibs) && p < |sibs| && q < |sibs| && p != q
      && pa[at] == sibs[p] && pb[at] == sibs[q]
  }

  function Deeper(rel: Relation): Relation
  {
    if rel.Apart? then rel.(at := rel.at + 1) else rel
  }

  lemma DescribesCons(dom: Dom, rel: Relation, n: nat, pa: seq<nat>, pb: seq<nat>)
    requires Describes(dom, rel, pa, pb)
    ensures Describes(dom, Deeper(rel), [n] + pa, [n] + pb)
  {
    var qa, qb := [n] + pa, [n] + pb;
    match rel
    case Apart(at, sibs, p, q) =>
      assert qa[..at + 1] == [n] + pa[..at] && qb[..at + 1] == [n] + pb[..at];
    case Above =>
      assert qa == qb[..|qa|];
    case Below =>
      assert qb == qa[..|qb|];
  }

  predicate AIsFirst(rel: Relation)
  {
    rel.Above? || (rel.Apart? && rel.p < rel.q)
  }

  /** The root comes before everything below it; below it, only the children's subtrees matter. */
  lemma RootIsFirst(t: Tree, a: nat, b: nat)
    requires Distinct(Preorder(t)) && a in Preorder(t) && b in Preorder(t) && a != b
    ensures Distinct(PreorderAll(t.kids)) && t.id !in PreorderAll(t.kids)
    ensures a == t.id ==> Before(t, a, b)
    ensures b == t.id ==> !Before(t, a, b)
    ensures a != t.id && b != t.id ==>
      (Before(t, a, b) <==> IndexOf(PreorderAll(t.kids), a) < IndexOf(PreorderAll(t.kids), b))
  {
    var all := PreorderAll(t.kids);
    DistinctParts([t.id], all);
    IndexInConcat([t.id], all, a);
    IndexInConcat([t.id], all, b);
  }

  lemma RootIsAbove(dom: Dom, t: Tree, x: nat)
    requires x in Preorder(t) && x != t.id
    ensures Describes(dom, Above, Path(t, t.id), Path(t, x)) && Describes(dom, Below, Path(t, x), Path(t, t.id))
  {
    assert Path(t, x)[..1] == [t.id];
  }

  lemma KidsApart(dom: Dom, t: Tree, a: nat, b: nat)
    requires LinkedAll(dom, t.kids, t.id) && Distinct(PreorderAll(t.kids))
    requires a in PreorderAll(t.kids) && b in PreorderAll(t.kids) && a != t.id && b != t.id
    requires KidWith(t.kids, a) != KidWith(t.kids, b)
    ensures Describes(dom, Apart(1, Ids(t.kids), KidWith(t.kids, a), KidWith(t.kids, b)), Path(t, a), Path(t, b))
  {
    hide Distinct, PreorderAll, LinkedAll, Siblings;
    KidsAreSiblings(dom, t.kids, t.id);
  }

  /** Document order is decided where the paths part. */
  lemma {:induction false} Relate(dom: Dom, t: Tree, parent: Option<nat>, sibling: Option<nat>, a: nat, b: nat)
    returns (rel: Relation)
    requires Linked(dom, t, parent, sibling) && Distinct(Preorder(t))
    requires a in Preorder(t) && b in Preorder(t) && a != b
    ensures Before(t, a, b) <==> AIsFirst(rel)
    ensures Describes(dom, rel, Path(t, a), Path(t, b))
    ensures rel.Apart? ==> rel.at > 0
    decreases t
  {
    hide IndexOf, Distinct, PreorderAll, LinkedAll, Siblings, Before, Preorder, Describes;
    RootIsFirst(t, a, b);
    if a == t.id {
      rel := Above;
      RootIsAbove(dom, t, b);
    } else if b == t.id {
      rel := Below;
      RootIsAbove(dom, t, a);
    } else {
      var i, j := KidWith(t.kids, a), KidWith(t.kids, b);
      KidOrder(t.kids, a, b);
      if i == j {
        Kid(dom, t.kids, t.id, i);
        rel := Relate(dom, t.kids[i], Some(t.id), IdAt(t.kids, i + 1), a, b);
        DescribesCons(dom, rel, t.id, Path(t.kids[i], a), Path(t.kids[i], b));
        rel := Deeper(rel);
      } else {
        KidsApart(dom, t, a, b);
        rel := Apart(1, Ids(t.kids), i, j);
      }
    }
  }

  /** Every node on a path has the path's beginning as its own. */
  lemma {:induction false} PathPrefix(t: Tree, x: nat, i: nat)
    requires Distinct(Preorder(t)) && x in Preorder(t) && i < |Path(t, x)|
    ensures Path(t, x)[i] in Preorder(t)
    ensures Path(t, Path(t, x)[i]) == Path(t, x)[..i + 1]
    decreases t
  {
    if x == t.id || i == 0 {
    } else {
      var all := PreorderAll(t.kids);
      DistinctParts([t.id], all);
      var k := KidWith(t.kids, x);
      var p := Path(t.kids[k], x);
      KidDistinct(t.kids, k);
      PathPrefix(t.kids[k], x, i - 1);
      assert Path(t, x)[i] == p[i - 1];
      KidUnique(t.kids, p[i - 1], k);
      assert ([t.id] + p)[..i + 1] == [t.id] + p[..i];
    }
  }

  lemma {:induction false} KidDistinct(ts: seq<Tree>, k: nat)
    requires Distinct(PreorderAll(ts)) && k < |ts|
    ensures Distinct(Preorder(ts[k]))
  {
    DistinctParts(Preorder(ts[0]), PreorderAll(ts[1..]));
    if k == 0 {
    } else {
      assert ts[1..][k - 1] == ts[k];
      KidDistinct(ts[1..], k - 1);
    }
  }

  /** Nodes with one parent have the same ancestors. */
  lemma SameParent(dom: Dom, t: Tree, a: nat, b: nat)
    requires Document(dom, t) && a in Preorder(t) && b in Preorder(t)
    requires a < |dom.parentNode| && b < |dom.parentNode| && dom.parentNode[a] == dom.parentNode[b]
    ensures
      var pa, pb := Path(t, a), Path(t, b);
      pa[..|pa| - 1] == pb[..|pb| - 1]
  {
    hide Path, Preorder, Linked, Distinct;
    var pa, pb := Path(t, a), Path(t, b);
    PathIsParents(dom, t, None, None, a);
    PathIsParents(dom, t, None, None, b);
    assert ParentIs(dom, pa, |pa| - 1, None) && ParentIs(dom, pb, |pb| - 1, None);
    if |pa| > 1 {
      PathPrefix(t, a, |pa| - 2);
      PathPrefix(t, b, |pb| - 2);
    }
  }

  /** a and b are the children at which the two paths part. */
  ghost predicate Children(dom: Dom, rel: Relation, a: nat, b: nat)
    requires rel.Apart?
  {
    && Siblings(dom, rel.sibs) && rel.p < |rel.sibs| && rel.q < |rel.sibs| && rel.p != rel.q
    && rel.sibs[rel.p] == a && rel.sibs[rel.q] == b
  }

  /** Paths that agree up to i part at i when they differ there, and not before the shorter one ends otherwise. */
  lemma PartAt(dom: Dom, rel: Relation, pa: seq<nat>, pb: seq<nat>, i: nat)
    requires Describes(dom, rel, pa, pb) && i < |pa| && i < |pb| && pa[..i] == pb[..i]
    ensures pa[i] != pb[i] ==> rel.Apart? && Children(dom, rel, pa[i], pb[i])
    ensures pa[i] == pb[i] && i + 1 == |pa| ==> rel.Above?
    ensures pa[i] == pb[i] && i + 1 == |pb| ==> rel.Below?
  {
    match rel
    case Apart(at, sibs, p, q) =>
      assert pa[at] != pb[at];
      if at > i {
        assert pa[..at][i] == pb[..at][i];
      }
    case Above =>
      assert pa[i] == pb[i];
    case Below =>
      assert pa[i] == pb[i];
  }

  lemma AncestorsAgree(pa: seq<nat>, pb: seq<nat>, i: nat)
    requires i < |pa| && i < |pb| && pa[..|pa| - 1][..i] == pb[..|pb| - 1][..i]
    ensures pa[..i] == pb[..i]
  {
    assert pa[..i] == pa[..|pa| - 1][..i] && pb[..i] == pb[..|pb| - 1][..i];
  }

  /** Only the root has no parent, and the root comes first. */
  lemma RootFirst(dom: Dom, t: Tree, a: nat, b: nat, rel: Relation)
    requires Document(dom, t) && a in Preorder(t) && b in Preorder(t) && a != b
    requires Describes(dom, rel, Path(t, a), Path(t, b)) && (rel.Apart? ==> rel.at > 0)
    ensures |Path(t, a)| == 1 ==> rel.Above?
    ensures |Path(t, b)| == 1 ==> rel.Below?
  {
    var pa, pb := Path(t, a), Path(t, b);
    assert pa[..0] == pb[..0];
    PathsStart(t, a, b);
    PartAt(dom, rel, pa, pb, 0);
  }

  lemma PathsStart(t: Tree, a: nat, b: nat)
    requires a in Preorder(t) && b in Preorder(t)
    ensures Path(t, a)[0] == Path(t, b)[0]
  {
  }

  /** Every node of the document has links. */
  lemma HasLinks(dom: Dom, t: Tree, x: nat)
    requires Document(dom, t) && x in Preorder(t)
    ensures x < |dom.parentNode| == |dom.nextSibling|
    ensures
      var p := Path(t, x);
      && ParentChain(dom, p, None)
      && dom.parentNode[x] == if |p| == 1 then None else Some(p[|p| - 2])
  {
    PathIsParents(dom, t, None, None, x);
    var p := Path(t, x);
    assert ParentIs(dom, p, |p| - 1, None);
  }
}

/** The comparator and uniqueSort. */
module SortOrder {
  import opened Wrappers
  import opened DocumentOrder

  class Sizzle {
    var hasDuplicate: bool
    /** True unless the engine's sort was seen to call its comparator on equal elements. */
    const baseHasDuplicate: bool

    constructor (base: bool)
      ensures baseHasDuplicate == base
    {
      baseHasDuplicate, hasDuplicate := base, false;
    }

    /** siblingCheck: ret for the same node, else whether b follows a among its siblings. */
    method SiblingCheck(dom: Dom, a: nat, b: nat, ret: int, ghost rel: Relation) returns (r: int)
      requires a != b ==> rel.Apart? && Children(dom, rel, a, b)
      ensures r == if a == b then ret else if rel.p < rel.q then -1 else 1
    {
      if a == b {
        return ret;
      }
      ghost var sibs, k := rel.sibs, rel.p + 1;
      assert NextIs(dom, sibs, rel.p);
      var cur := dom.nextSibling[a];
      while cur.Some?
        invariant rel.p < k <= |sibs|
        invariant cur == if k < |sibs| then Some(sibs[k]) else None
        invariant rel.p < rel.q ==> k <= rel.q
        decreases |sibs| - k
      {
        if cur.value == b {
          assert k == rel.q;
          return -1;
        }
        assert NextIs(dom, sibs, k);
        cur := dom.nextSibling[cur.value];
        k := k + 1;
      }
      return 1;
    }

    /** The loop that collects the ancestors of a node, outermost first. */
    method Ancestors(dom: Dom, x: nat, ghost path: seq<nat>) returns (ancestors: seq<nat>)
      requires path != [] && path[|path| - 1] == x && ParentChain(dom, path, None)
      ensures ancestors == path[..|path| - 1]
    {
      ancestors := [];
      ghost var k := |path| - 1;
      assert ParentIs(dom, path, k, None);
      var cur := dom.parentNode[x];
      while cur.Some?
        invariant 0 <= k < |path|
        invariant cur == if k > 0 then Some(path[k - 1]) else None
        invariant ancestors == path[k..|path| - 1]
        decreases k
      {
        k := k - 1;
        assert ParentIs(dom, path, k, None);
        ancestors := [cur.value] + ancestors;
        cur := dom.parentNode[cur.value];
      }
    }

    /** The walk down two lists of ancestors to the first discrepancy. */
    method Discrepancy(ap: seq<nat>, bp: seq<nat>) returns (i: nat)
      ensures i <= |ap| && i <= |bp| && ap[..i] == bp[..i]
      ensures i == |ap| || i == |bp| || ap[i] != bp[i]
    {
      i := 0;
      while i < |ap| && i < |bp|
        invariant i <= |ap| && i <= |bp| && ap[..i] == bp[..i]
      {
        if ap[i] != bp[i] {
          return;
        }
        i := i + 1;
      }
    }

    /** The part of sortOrder for nodes with different parents. */
    method CompareAncestors(dom: Dom, a: nat, b: nat, ghost pa: seq<nat>, ghost pb: seq<nat>, ghost rel: Relation)
      returns (r: int)
      requires |pa| > 1 && pa[|pa| - 1] == a && ParentChain(dom, pa, None)
      requires |pb| > 1 && pb[|pb| - 1] == b && ParentChain(dom, pb, None)
      requires pa[|pa| - 2] != pb[|pb| - 2] && Describes(dom, rel, pa, pb)
      ensures r == if AIsFirst(rel) then -1 else 1
    {
      hide ParentChain, Describes, Children;
      var ap := Ancestors(dom, a, pa);
      var bp := Ancestors(dom, b, pb);
      var al, bl := |ap|, |bp|;
      var i := Discrepancy(ap, bp);
      if al == bl {
        assert ap[al - 1] != bp[bl - 1];
      }
      AncestorsAgree(pa, pb, i);
      PartAt(dom, rel, pa, pb, i);
      if i < al && i < bl {
        r := SiblingCheck(dom, ap[i], bp[i], 0, rel);
      } else if i == al {
        r := SiblingCheck(dom, a, bp[i], -1, rel);
      } else {
        r := SiblingCheck(dom, ap[i], b, 1, rel);
      }
    }

    /** sortOrder, where neither compareDocumentPosition nor sourceIndex is available. */
    method SortOrder(dom: Dom, a: nat, b: nat, ghost t: Tree) returns (r: int)
      requires Document(dom, t) && a in Preorder(t) && b in Preorder(t)
      modifies this
      ensures r == if a == b then 0 else if Before(t, a, b) then -1 else 1
      ensures hasDuplicate == (old(hasDuplicate) || a == b)
    {
      hide Linked, Distinct, Preorder, Path, Before, ParentChain, Describes, Children;
      if a == b {
        hasDuplicate := true;
        return 0;
      }
      ghost var rel := Relate(dom, t, None, None, a, b);
      ghost var pa, pb := Path(t, a), Path(t, b);
      HasLinks(dom, t, a);
      HasLinks(dom, t, b);
      var aup, bup := dom.parentNode[a], dom.parentNode[b];
      if aup == bup {
        SameParent(dom, t, a, b);
        PartAt(dom, rel, pa, pb, |pa| - 1);
        r := SiblingCheck(dom, a, b, 0, rel);
      } else if aup.None? {
        RootFirst(dom, t, a, b, rel);
        r := -1;
      } else if bup.None? {
        RootFirst(dom, t, a, b, rel);
        r := 1;
      } else {
        r := CompareAncestors(dom, a, b, pa, pb, rel);
      }
    }

    /**
     * uniqueSort, given what the engine's sort made of results and whether it ever compared a node
     * with itself: the duplicates, now adjacent, are spliced out.
     */
    method UniqueSort(results: seq<nat>, sorted: seq<nat>, sawEqual: bool, ghost t: Tree) returns (unique: seq<nat>)
      requires multiset(sorted) == multiset(results) && AllIn(t, sorted) && InOrder(t, sorted)
      requires baseHasDuplicate || sawEqual || Distinct(sorted)
      modifies this
      ensures AllIn(t, unique)
      ensures forall i, j :: 0 <= i < j < |unique| ==> Before(t, unique[i], unique[j])
      ensures forall x :: x in unique <==> x in results
    {
      hide IndexOf, Preorder;
      SameMembers(results, sorted);
      unique := sorted;
      hasDuplicate := baseHasDuplicate || sawEqual;
      if hasDuplicate {
        var i := 1;
        while i < |unique|
          invariant 1 <= i && (i <= |unique| || unique == [])
          invariant AllIn(t, unique) && InOrder(t, unique)
          invariant forall x :: x in unique <==> x in results
          invariant forall p :: 0 < p < i && p < |unique| ==> unique[p] != unique[p - 1]
          decreases |unique| - i
        {
          if unique[i] == unique[i - 1] {
            SpliceKeeps(t, unique, i);
            unique := unique[..i] + unique[i + 1..];
          } else {
            i := i + 1;
          }
        }
        AdjacentDistinct(t, unique);
      }
      OrderedAndDistinct(t, unique);
    }

    /** Put x behind everything it does not precede, comparing from the right. */
    method Insert(dom: Dom, sorted: seq<nat>, x: nat, ghost t: Tree) returns (r: seq<nat>)
      requires Document(dom, t) && AllIn(t, sorted) && InOrder(t, sorted) && x in Preorder(t)
      modifies this
      ensures multiset(r) == multiset(sorted + [x]) && AllIn(t, r) && InOrder(t, r)
      ensures hasDuplicate == (old(hasDuplicate) || x in sorted)
    {
      hide Document, Preorder, Before;
      var i := |sorted|;
      while i > 0
        invariant 0 <= i <= |sorted|
        invariant forall k :: i <= k < |sorted| ==> sorted[k] != x && !Before(t, sorted[k], x)
        invariant hasDuplicate == old(hasDuplicate)
      {
        var c := SortOrder(dom, sorted[i - 1], x, t);
        if c <= 0 {
          break;
        }
        i := i - 1;
      }
      PlaceFound(t, sorted, x, i);
      r := sorted[..i] + [x] + sorted[i..];
      InsertKeeps(t, sorted, x, i);
    }

    /** A comparison sort: the flag goes up exactly if there are duplicates. */
    method InsertionSort(dom: Dom, results: seq<nat>, ghost t: Tree) returns (sorted: seq<nat>)
      requires Document(dom, t) && AllIn(t, results)
      modifies this
      ensures multiset(sorted) == multiset(results) && AllIn(t, sorted) && InOrder(t, sorted)
      ensures hasDuplicate == (old(hasDuplicate) || !Distinct(results))
    {
      hide Document, Preorder, Before;
      sorted := [];
      for n := 0 to |results|
        invariant multiset(sorted) == multiset(results[..n]) && AllIn(t, sorted) && InOrder(t, sorted)
        invariant hasDuplicate == (old(hasDuplicate) || !Distinct(results[..n]))
      {
        SameMembers(sorted, results[..n]);
        OneMoreMember(results, n);
        sorted := Insert(dom, sorted, results[n], t);
      }
      assert results[..|results|] == results;
    }

    /** uniqueSort with that sort: nothing is left to assume about the engine. */
    method UniqueSortByInsertion(dom: Dom, results: seq<nat>, ghost t: Tree) returns (unique: seq<nat>)
      requires Document(dom, t) && AllIn(t, results)
      modifies this
      ensures AllIn(t, unique)
      ensures forall i, j :: 0 <= i < j < |unique| ==> Before(t, unique[i], unique[j])
      ensures forall x :: x in unique <==> x in results
    {
      hide Document, Preorder, Before;
      hasDuplicate := baseHasDuplicate;
      var sorted := InsertionSort(dom, results, t);
      if Distinct(results) {
        StillDistinct(results, sorted);
      }
      unique := UniqueSort(results, sorted, hasDuplicate, t);
    }
  }

  ghost predicate AllIn(t: Tree, s: seq<nat>)
  {
    forall x :: x in s ==> x in Preorder(t)
  }

  /** No node comes after one that it precedes. */
  ghost predicate InOrder(t: Tree, s: seq<nat>)
    requires AllIn(t, s)
  {
    forall i, j :: 0 <= i < j < |s| ==> !Before(t, s[j], s[i])
  }

  lemma SameMembers(s: seq<nat>, r: seq<nat>)
    requires multiset(s) == multiset(r)
    ensures forall x :: x in s <==> x in r
  {
    forall x
      ensures x in s <==> x in r
    {
      assert x in s <==> x in multiset(s);
    }
  }

  /** Document order is total. */
  lemma Comparable(t: Tree, a: nat, b: nat)
    requires a in Preorder(t) && b in Preorder(t) && a != b
    ensures Before(t, a, b) || Before(t, b, a)
  {
  }

  lemma SpliceKeeps(t: Tree, s: seq<nat>, i: nat)
    requires AllIn(t, s) && InOrder(t, s) && 0 < i < |s| && s[i] == s[i - 1]
    ensures
      var r := s[..i] + s[i + 1..];
      AllIn(t, r) && InOrder(t, r) && forall x :: x in r <==> x in s
  {
    hide Before, Preorder;
    var r := s[..i] + s[i + 1..];
    assert forall k :: 0 <= k < |r| ==> r[k] == s[if k < i then k else k + 1];
    forall x | x in s
      ensures x in r
    {
      var k :| 0 <= k < |s| && s[k] == x;
      assert r[if k < i then k else k - 1] == x;
    }
  }

  /** In an ordered list equal nodes are adjacent. */
  lemma AdjacentDistinct(t: Tree, s: seq<nat>)
    requires AllIn(t, s) && InOrder(t, s)
    requires forall p :: 0 < p < |s| ==> s[p] != s[p - 1]
    ensures Distinct(s)
  {
    forall i, j | 0 <= i < j < |s|
      ensures s[i] != s[j]
    {
      Comparable(t, s[j], s[j - 1]);
      assert !Before(t, s[j], s[j - 1]);
      assert i < j - 1 ==> !Before(t, s[j - 1], s[i]);
    }
  }

  lemma OrderedAndDistinct(t: Tree, s: seq<nat>)
    requires AllIn(t, s) && InOrder(t, s) && Distinct(s)
    ensures forall i, j :: 0 <= i < j < |s| ==> Before(t, s[i], s[j])
  {
    forall i, j | 0 <= i < j < |s|
      ensures Before(t, s[i], s[j])
    {
      Comparable(t, s[i], s[j]);
    }
  }

  /** Where the comparisons stop, everything on the left is not after x, and it tells whether x is there. */
  lemma PlaceFound(t: Tree, s: seq<nat>, x: nat, i: nat)
    requires AllIn(t, s) && InOrder(t, s) && x in Preorder(t) && i <= |s|
    requires forall k :: i <= k < |s| ==> s[k] != x && !Before(t, s[k], x)
    requires i > 0 ==> s[i - 1] == x || Before(t, s[i - 1], x)
    ensures forall k :: 0 <= k < i ==> !Before(t, x, s[k])
    ensures x in s <==> i > 0 && s[i - 1] == x
  {
    hide IndexOf, Preorder;
    forall k | 0 <= k < i
      ensures !Before(t, x, s[k]) && (s[k] == x ==> s[i - 1] == x)
    {
      assert k < i - 1 ==> !Before(t, s[i - 1], s[k]);
    }
  }

  lemma InsertKeeps(t: Tree, s: seq<nat>, x: nat, i: nat)
    requires AllIn(t, s) && InOrder(t, s) && x in Preorder(t) && i <= |s|
    requires forall k :: 0 <= k < i ==> !Before(t, x, s[k])
    requires forall k :: i <= k < |s| ==> !Before(t, s[k], x)
    ensures
      var r := s[..i] + [x] + s[i..];
      multiset(r) == multiset(s + [x]) && AllIn(t, r) && InOrder(t, r)
  {
    hide Before, Preorder;
    var r := s[..i] + [x] + s[i..];
    assert s == s[..i] + s[i..];
    forall y | y in r
      ensures y in Preorder(t)
    {
      assert y == x || y in s;
    }
    forall p, q | 0 <= p < q < |r|
      ensures !Before(t, r[q], r[p])
    {
      if p == i {
        assert r[p] == x && r[q] == s[q - 1];
      } else if q == i {
        assert r[p] == s[p] && r[q] == x;
      } else {
        var u, v := if p < i then p else p - 1, if q < i then q else q - 1;
        assert r[p] == s[u] && r[q] == s[v];
      }
    }
  }

  lemma OneMoreMember(s: seq<nat>, n: nat)
    requires n < |s|
    ensures s[..n + 1] == s[..n] + [s[n]]
    ensures Distinct(s[..n + 1]) <==> Distinct(s[..n]) && s[n] !in s[..n]
  {
    assert s[..n + 1] == s[..n] + [s[n]];
    if Distinct(s[..n + 1]) {
      forall i | 0 <= i < n
        ensures s[..n][i] != s[n]
      {
        assert s[..n + 1][i] != s[..n + 1][n];
      }
      forall i, j | 0 <= i < j < n
        ensures s[..n][i] != s[..n][j]
      {
        assert s[..n + 1][i] != s[..n + 1][j];
      }
    }
  }

  lemma StillDistinct(s: seq<nat>, r: seq<nat>)
    requires Distinct(s) && multiset(s) == multiset(r)
    ensures Distinct(r)
  {
    forall i, j | 0 <= i < j < |r|
      ensures r[i] != r[j]
    {
      assert r == r[..i] + [r[i]] + r[i + 1..j] + [r[j]] + r[j + 1..];
      AtMostOnce(s, r[i]);
      assert multiset(r)[r[i]] <= 1;
    }
  }

  lemma {:induction false} AtMostOnce(s: seq<nat>, x: nat)
    requires Distinct(s)
    ensures multiset(s)[x] <= 1
  {
    if s == [] {
    } else {
      assert s == [s[0]] + s[1..];
      AtMostOnce(s[1..], x);
      assert s[0] !in s[1..];
      assert s[0] !in multiset(s[1..]);
    }
  }
}
