/** The last step of resolveDependencies: list the nodes of the lock children first. */
module NodeOrder {
  import opened Sequences
  import opened Locks
  import opened LockValidation

  predicate OrdinalLe(a: Edge, b: Edge) { a.ordinal <= b.ordinal }

  /** The edges of a parent in ordinal order. */
  function Children(l: Lock, parent: string): (es: seq<Edge>)
    ensures forall e :: e in es <==> e in l.edges && e.parent == parent
  {
    SortMembers(Out(l.edges, parent), OrdinalLe);
    Sort(Out(l.edges, parent), OrdinalLe)
  }

  /** nodes.find(n => n.versionId === id) */
  function Find(nodes: seq<Node>, id: string): (n: Node)
    requires id in Ids(nodes)
    ensures n in nodes && n.versionId == id
  {
    if nodes[0].versionId == id then nodes[0]
    else
      assert exists i :: 0 < i < |nodes| && nodes[i].versionId == id by {
        var i :| 0 <= i < |nodes| && Ids(nodes)[i] == id;
      }
      FindTail(nodes, id);
      Find(nodes[1..], id)
  }

  lemma FindTail(nodes: seq<Node>, id: string)
    requires nodes != [] && id in Ids(nodes) && nodes[0].versionId != id
    ensures id in Ids(nodes[1..])
  {
    var i :| 0 <= i < |nodes| && Ids(nodes)[i] == id;
    assert Ids(nodes[1..])[i - 1] == id;
  }

  /** No edge leads out of the lock. */
  ghost predicate Closed(l: Lock) {
    forall e :: e in l.edges ==> e.child in Ids(l.nodes)
  }

  ghost function Unseen(l: Lock, seen: set<string>): set<string> { Elements(Ids(l.nodes)) - seen }

  datatype Walked = Walked(seen: set<string>, ordered: seq<Node>)

  /** What visit does with the remaining edges of one parent. */
  function VisitAll(l: Lock, todo: seq<Edge>, w: Walked): (r: Walked)
    requires Closed(l) && forall e :: e in todo ==> e in l.edges
    ensures w.seen <= r.seen
    decreases Unseen(l, w.seen), |todo|
  {
    if todo == [] then w
    else
      var child := todo[0].child;
      assert todo[0] in todo;
      if child in w.seen then VisitAll(l, todo[1..], w)
      else
        assert child in Unseen(l, w.seen);
        var below := VisitAll(l, Children(l, child), Walked(w.seen + {child}, w.ordered));
        assert Unseen(l, below.seen) <= Unseen(l, w.seen + {child}) < Unseen(l, w.seen);
        VisitAll(l, todo[1..], Walked(below.seen, below.ordered + [Find(l.nodes, child)]))
  }

  // ---- Children come first -------------------------------------------------------------

  /** Every child of a listed node is listed before it. */
  ghost predicate ChildrenFirst(edges: seq<Edge>, ordered: seq<Node>) {
    forall i, e :: 0 <= i < |ordered| && e in edges && e.parent == ordered[i].versionId ==> e.child in Ids(ordered[..i])
  }

  /** The nodes listed so far, and the open parents still to be listed, are those seen. */
  ghost predicate Listing(l: Lock, w: Walked, open: set<string>) {
    && w.seen == open + Elements(Ids(w.ordered)) && open !! Elements(Ids(w.ordered))
    && NoDup(Ids(w.ordered)) && (forall n :: n in w.ordered ==> n in l.nodes)
    && ChildrenFirst(l.edges, w.ordered)
  }

  /** Every open parent leads to the one whose edges are being followed. */
  ghost predicate Open(l: Lock, open: set<string>, parent: string) {
    Reaches(l.edges, ROOT, parent) &&
    forall o {:trigger Reaches(l.edges, o, parent)} :: o in open ==> Reaches(l.edges, o, parent)
  }

  lemma OpenBelow(l: Lock, open: set<string>, e: Edge)
    requires Open(l, open, e.parent) && e in l.edges
    ensures Open(l, open + {e.child}, e.child)
  {
    EdgeBelow(l.edges, e);
    ReachesBelow(l.edges, ROOT, e.parent, e.child);
    forall o | o in open + {e.child} ensures Reaches(l.edges, o, e.child) {
      if o == e.child {
        ReachesSelf(l.edges, o);
      } else {
        assert Reaches(l.edges, o, e.parent);
        ReachesBelow(l.edges, o, e.parent, e.child);
      }
    }
  }

  /** An edge back to an open parent would close a cycle. */
  lemma NotOpen(l: Lock, open: set<string>, e: Edge)
    requires Acyclic(l.edges) && Open(l, open, e.parent) && e in l.edges
    ensures e.child !in open
  {
    if e.child in open {
      assert Reaches(l.edges, e.child, e.parent);
      EdgeBelow(l.edges, e);
      ReachesBelow(l.edges, ROOT, e.parent, e.child);
      var m: nat :| Walk(l.edges, e.child, e.parent, m);
      var n: nat :| 0 < n && Walk(l.edges, e.parent, e.child, n);
      WalkJoin(l.edges, e.child, e.parent, e.child, m, n);
    }
  }

  lemma ListOne(l: Lock, w: Walked, open: set<string>, n: Node)
    requires Listing(l, w, open + {n.versionId}) && n.versionId !in open && n in l.nodes
    requires forall e :: e in l.edges && e.parent == n.versionId ==> e.child in Ids(w.ordered)
    ensures Listing(l, Walked(w.seen, w.ordered + [n]), open)
  {
    var more := w.ordered + [n];
    assert Ids(more) == Ids(w.ordered) + [n.versionId];
    assert Elements(Ids(more)) == Elements(Ids(w.ordered)) + {n.versionId};
    assert n.versionId !in Ids(w.ordered);
    forall i, e | 0 <= i < |more| && e in l.edges && e.parent == more[i].versionId
      ensures e.child in Ids(more[..i])
    {
      if i < |w.ordered| {
        assert more[..i] == w.ordered[..i];
      } else {
        assert more[..i] == w.ordered;
      }
    }
  }

  ghost predicate AllListed(todo: seq<Edge>, ordered: seq<Node>) {
    forall e :: e in todo ==> e.child in Ids(ordered)
  }

  lemma ListedGrows(ordered: seq<Node>, more: seq<Node>, id: string)
    requires ordered <= more && id in Ids(ordered)
    ensures id in Ids(more)
  {
    var i :| 0 <= i < |ordered| && Ids(ordered)[i] == id;
    assert Ids(more)[i] == id;
  }

  /** Following a parent's edges lists every node below it, children first. */
  lemma {:induction false} VisitLists(l: Lock, todo: seq<Edge>, w: Walked, open: set<string>, parent: string)
    requires Closed(l) && Acyclic(l.edges) && Listing(l, w, open) && Open(l, open, parent)
    requires forall e :: e in todo ==> e in l.edges && e.parent == parent
    ensures var r := VisitAll(l, todo, w);
      Listing(l, r, open) && w.ordered <= r.ordered && AllListed(todo, r.ordered)
    decreases Unseen(l, w.seen), |todo|
  {
    if todo != [] {
      var e := todo[0];
      assert e in todo;
      NotOpen(l, open, e);
      var next := if e.child in w.seen then w else VisitOne(l, e, w);
      if e.child !in w.seen {
        VisitOneLists(l, e, w, open);
      }
      VisitLists(l, todo[1..], next, open, parent);
      var r := VisitAll(l, todo, w);
      assert r == VisitAll(l, todo[1..], next);
      ListedGrows(next.ordered, r.ordered, e.child);
      forall f | f in todo ensures f.child in Ids(r.ordered) {
        if f != e { assert f in todo[1..]; }
      }
    }
  }

  function VisitOne(l: Lock, e: Edge, w: Walked): (r: Walked)
    requires Closed(l) && e in l.edges && e.child !in w.seen
    ensures w.seen + {e.child} <= r.seen
  {
    var below := VisitAll(l, Children(l, e.child), Walked(w.seen + {e.child}, w.ordered));
    Walked(below.seen, below.ordered + [Find(l.nodes, e.child)])
  }

  lemma {:induction false} VisitOneLists(l: Lock, e: Edge, w: Walked, open: set<string>)
    requires Closed(l) && Acyclic(l.edges) && Listing(l, w, open) && Open(l, open, e.parent)
    requires e in l.edges && e.child !in w.seen
    ensures var r := VisitOne(l, e, w);
      Listing(l, r, open) && w.ordered <= r.ordered && e.child in Ids(r.ordered)
    ensures Unseen(l, VisitOne(l, e, w).seen) < Unseen(l, w.seen)
    decreases Unseen(l, w.seen), 0
  {
    var start := Walked(w.seen + {e.child}, w.ordered);
    assert e.child in Unseen(l, w.seen);
    assert Unseen(l, start.seen) < Unseen(l, w.seen);
    OpenBelow(l, open, e);
    assert start.seen == (open + {e.child}) + Elements(Ids(w.ordered));
    VisitLists(l, Children(l, e.child), start, open + {e.child}, e.child);
    var below := VisitAll(l, Children(l, e.child), start);
    var n := Find(l.nodes, e.child);
    ListOne(l, below, open, n);
    assert Ids(below.ordered + [n])[|below.ordered|] == e.child;
  }

  // ---- The whole list --------------------------------------------------------------------

  function Reordered(l: Lock): Lock
    requires Closed(l)
  {
    l.(nodes := VisitAll(l, Children(l, ROOT), Walked({}, [])).ordered)
  }

  lemma {:induction false} ListedWalk(l: Lock, ordered: seq<Node>, a: string, b: string, n: nat)
    requires ChildrenFirst(l.edges, ordered) && AllListed(Children(l, ROOT), ordered)
    requires a == ROOT || a in Ids(ordered)
    requires 0 < n && Walk(l.edges, a, b, n)
    ensures b in Ids(ordered)
    decreases n
  {
    var e :| e in l.edges && e.parent == a && Walk(l.edges, e.child, b, n - 1);
    if a == ROOT {
      assert e in Children(l, ROOT);
    } else {
      var i :| 0 <= i < |ordered| && Ids(ordered)[i] == a;
      assert ordered[i].versionId == a;
      assert ordered[..i] <= ordered;
      ListedGrows(ordered[..i], ordered, e.child);
    }
    if n > 1 {
      ListedWalk(l, ordered, e.child, b, n - 1);
    }
  }

  lemma SameNodes(nodes: seq<Node>, ordered: seq<Node>)
    requires NoDup(Ids(nodes)) && NoDup(Ids(ordered))
    requires forall n :: n in ordered ==> n in nodes
    requires forall id :: id in Ids(nodes) ==> id in Ids(ordered)
    ensures multiset(ordered) == multiset(nodes)
  {
    NodeKeys(nodes);
    NodeKeys(ordered);
    forall n | n in nodes ensures n in ordered {
      InIds(nodes, n);
      var m := IdOf(ordered, n.versionId);
      SameId(nodes, n, m);
    }
    SubsetIncluded(ordered, nodes, IdOfNode);
    SubsetIncluded(nodes, ordered, IdOfNode);
  }

  /** The final list holds exactly the nodes of the lock, and every child precedes its parents. */
  lemma ReorderedLists(l: Lock)
    requires Closed(l) && Acyclic(l.edges) && AllReached(l)
    requires NoDup(Ids(l.nodes)) && ROOT !in Ids(l.nodes)
    ensures multiset(Reordered(l).nodes) == multiset(l.nodes)
    ensures ChildrenFirst(l.edges, Reordered(l).nodes)
  {
    ReachesSelf(l.edges, ROOT);
    assert Ids([]) == [];
    VisitLists(l, Children(l, ROOT), Walked({}, []), {}, ROOT);
    var ordered := Reordered(l).nodes;
    forall id | id in Ids(l.nodes) ensures id in Ids(ordered) {
      var n: nat :| Walk(l.edges, ROOT, id, n);
      ListedWalk(l, ordered, ROOT, id, n);
    }
    SameNodes(l.nodes, ordered);
  }

  // ---- Siblings keep their order ---------------------------------------------------------------

  /** A parent's edges are followed by ordinal. */
  lemma ChildrenByOrdinal(l: Lock, parent: string, i: nat, j: nat)
    requires i < j < |Children(l, parent)|
    ensures Children(l, parent)[i].ordinal <= Children(l, parent)[j].ordinal
    ensures multiset(Children(l, parent)) == multiset(Out(l.edges, parent))
  {
    SortCorrect(Out(l.edges, parent), OrdinalLe);
    assert OrdinalLe(Children(l, parent)[i], Children(l, parent)[j]);
  }

  /** The edges are followed one after the other. */
  lemma {:induction false} VisitAllSplits(l: Lock, a: seq<Edge>, b: seq<Edge>, w: Walked)
    requires Closed(l) && forall e :: e in a + b ==> e in l.edges
    ensures forall e :: e in a || e in b ==> e in a + b
    ensures VisitAll(l, a + b, w) == VisitAll(l, b, VisitAll(l, a, w))
    decreases Unseen(l, w.seen), |a|
  {
    assert forall e :: e in a || e in b ==> e in a + b;
    if a == [] {
      assert a + b == b;
    } else {
      assert a[0] in a && (a + b)[0] == a[0] && (a + b)[1..] == a[1..] + b;
      var next := if a[0].child in w.seen then w else VisitOne(l, a[0], w);
      assert Unseen(l, next.seen) <= Unseen(l, w.seen);
      if Unseen(l, next.seen) != Unseen(l, w.seen) { assert Unseen(l, next.seen) < Unseen(l, w.seen); }
      VisitAllSplits(l, a[1..], b, next);
    }
  }

  /** Only what the edges lead to is listed. */
  lemma {:induction false} OnlyReached(l: Lock, todo: seq<Edge>, w: Walked, id: string)
    requires Closed(l) && (forall e :: e in todo ==> e in l.edges) && id in Ids(VisitAll(l, todo, w).ordered)
    ensures id in Ids(w.ordered) || exists e :: e in todo && Reaches(l.edges, e.child, id)
    decreases Unseen(l, w.seen), |todo|
  {
    if todo != [] {
      var e := todo[0];
      assert e in todo;
      var next := if e.child in w.seen then w else VisitOne(l, e, w);
      assert Unseen(l, next.seen) <= Unseen(l, w.seen);
      if e.child !in w.seen { assert e.child in Unseen(l, w.seen) && e.child !in Unseen(l, next.seen); }
      OnlyReached(l, todo[1..], next, id);
      if id in Ids(next.ordered) && e.child !in w.seen { OneReached(l, e, w, id); }
    }
  }

  lemma {:induction false} OneReached(l: Lock, e: Edge, w: Walked, id: string)
    requires Closed(l) && e in l.edges && e.child !in w.seen && id in Ids(VisitOne(l, e, w).ordered)
    ensures id in Ids(w.ordered) || Reaches(l.edges, e.child, id)
    decreases Unseen(l, w.seen), 0
  {
    var start := Walked(w.seen + {e.child}, w.ordered);
    var below := VisitAll(l, Children(l, e.child), start);
    assert e.child in Unseen(l, w.seen) && Unseen(l, start.seen) < Unseen(l, w.seen);
    if id == e.child {
      ReachesSelf(l.edges, id);
    } else {
      assert Ids(below.ordered + [Find(l.nodes, e.child)]) == Ids(below.ordered) + [e.child];
      OnlyReached(l, Children(l, e.child), start, id);
      if f :| f in Children(l, e.child) && Reaches(l.edges, f.child, id) {
        ReachesFrom(l.edges, f, id);
      }
    }
  }

  lemma ReachesFrom(edges: seq<Edge>, f: Edge, id: string)
    requires f in edges && Reaches(edges, f.child, id)
    ensures Reaches(edges, f.parent, id)
  {
    var n: nat :| Walk(edges, f.child, id, n);
    assert Walk(edges, f.parent, id, n + 1);
  }

  /** The first k edges of the root. */
  function Foremost(l: Lock, k: nat): (a: seq<Edge>)
    requires k <= |Children(l, ROOT)|
    ensures forall e :: e in a ==> e in l.edges && e.parent == ROOT
  {
    assert forall e :: e in Children(l, ROOT)[..k] ==> e in Children(l, ROOT);
    Children(l, ROOT)[..k]
  }

  lemma NothingSeen(l: Lock)
    ensures Listing(l, Walked({}, []), {}) && Open(l, {}, ROOT)
  {
    ReachesSelf(l.edges, ROOT);
    assert Ids([]) == [];
  }

  /** What following them lists is the beginning of the whole list. */
  lemma ForemostListed(l: Lock, k: nat)
    requires Closed(l) && Acyclic(l.edges) && AllReached(l) && k <= |Children(l, ROOT)|
    ensures var part := VisitAll(l, Foremost(l, k), Walked({}, [])).ordered;
      part <= Reordered(l).nodes && AllListed(Foremost(l, k), part) && AllListed(Children(l, ROOT), Reordered(l).nodes)
  {
    var a, b, start := Foremost(l, k), Children(l, ROOT)[k..], Walked({}, []);
    assert Children(l, ROOT) == a + b;
    NothingSeen(l);
    VisitLists(l, a, start, {}, ROOT);
    VisitAllSplits(l, a, b, start);
    VisitLists(l, b, VisitAll(l, a, start), {}, ROOT);
    VisitLists(l, Children(l, ROOT), start, {}, ROOT);
  }

  lemma NotYetListed(l: Lock, a: seq<Edge>, id: string)
    requires Closed(l) && forall g :: g in a ==> g in l.edges && !Reaches(l.edges, g.child, id)
    ensures id !in Ids(VisitAll(l, a, Walked({}, [])).ordered)
  {
    assert Ids([]) == [];
    if id in Ids(VisitAll(l, a, Walked({}, [])).ordered) { OnlyReached(l, a, Walked({}, []), id); }
  }

  /** No edge of the root up to the ordinal leads to the id. */
  ghost predicate Apart(l: Lock, ordinal: int, id: string) {
    forall g :: g in l.edges && g.parent == ROOT && g.ordinal <= ordinal ==> !Reaches(l.edges, g.child, id)
  }

  lemma ForemostApart(l: Lock, k: nat, id: string)
    requires Closed(l) && k < |Children(l, ROOT)| && Apart(l, Children(l, ROOT)[k].ordinal, id)
    ensures id !in Ids(VisitAll(l, Foremost(l, k + 1), Walked({}, [])).ordered)
  {
    var a := Foremost(l, k + 1);
    forall g | g in a ensures !Reaches(l.edges, g.child, id) {
      var h :| 0 <= h < |a| && a[h] == g;
      if h < k { ChildrenByOrdinal(l, ROOT, h, k); }
    }
    NotYetListed(l, a, id);
  }

  lemma Position(nodes: seq<Node>, id: string) returns (i: nat)
    requires id in Ids(nodes)
    ensures i < |nodes| && nodes[i].versionId == id
  {
    i :| i < |nodes| && Ids(nodes)[i] == id;
  }

  /** What the root asks for first is listed first, unless something as early needs the other one. */
  lemma RootsInOrder(l: Lock, e: Edge, f: Edge) returns (i: nat, j: nat)
    requires Closed(l) && Acyclic(l.edges) && AllReached(l)
    requires e in l.edges && e.parent == ROOT && f in l.edges && f.parent == ROOT && e.ordinal < f.ordinal
    requires forall g :: g in l.edges && g.parent == ROOT && g.ordinal <= e.ordinal ==>
      !Reaches(l.edges, g.child, f.child)
    ensures i < j < |Reordered(l).nodes|
    ensures Reordered(l).nodes[i].versionId == e.child && Reordered(l).nodes[j].versionId == f.child
  {
    assert Apart(l, e.ordinal, f.child);
    var k :| 0 <= k < |Children(l, ROOT)| && Children(l, ROOT)[k] == e;
    ForemostListed(l, k + 1);
    ForemostApart(l, k, f.child);
    i, j := Positions(l, k, f);
  }

  lemma Positions(l: Lock, k: nat, f: Edge) returns (i: nat, j: nat)
    requires Closed(l) && k < |Children(l, ROOT)| && f in Children(l, ROOT)
    requires var part := VisitAll(l, Foremost(l, k + 1), Walked({}, [])).ordered;
      part <= Reordered(l).nodes && AllListed(Foremost(l, k + 1), part) && f.child !in Ids(part) &&
      AllListed(Children(l, ROOT), Reordered(l).nodes)
    ensures i < j < |Reordered(l).nodes| && Reordered(l).nodes[i].versionId == Children(l, ROOT)[k].child
    ensures Reordered(l).nodes[j].versionId == f.child
  {
    var part := VisitAll(l, Foremost(l, k + 1), Walked({}, [])).ordered;
    assert Foremost(l, k + 1)[k] == Children(l, ROOT)[k];
    i := Position(part, Children(l, ROOT)[k].child);
    j := Position(Reordered(l).nodes, f.child);
    forall m | 0 <= m < |part| ensures Reordered(l).nodes[m].versionId != f.child {
      assert Ids(part)[m] in Ids(part);
    }
  }

  lemma NodesReordered(nodes: seq<Node>, nodes': seq<Node>, root: Root, limits: Limits)
    requires NodesOk(nodes, root, limits) && multiset(nodes) == multiset(nodes')
    ensures NodesOk(nodes', root, limits)
    ensures forall id :: id in Ids(nodes') <==> id in Ids(nodes)
    ensures forall n :: n in nodes' <==> n in nodes
  {
    SameMembers(nodes, nodes');
    NodeKeys(nodes);
    NodeKeys(nodes');
    IncludedLength(nodes', nodes);
    IncludedNoDup(nodes', nodes, IdOfNode);
    IncludedNoDup(nodes', nodes, IdentityOf);
    MapIncluded(nodes', nodes, IdentityOf);
    MapIncluded(nodes', nodes, IdOfNode);
    MapIncluded(nodes, nodes', IdOfNode);
    MapIncluded(nodes', nodes, SizeOf);
    SameMembers(Ids(nodes), Ids(nodes'));
    SameMembers(Identities(nodes), Identities(nodes'));
    assert forall i :: 0 <= i < |nodes| ==> nodes[i] in nodes;
    SumIncluded(Sizes(nodes'), Sizes(nodes));
  }

  lemma SameMembers<T(!new)>(xs: seq<T>, ys: seq<T>)
    requires multiset(ys) <= multiset(xs)
    ensures forall y :: y in ys ==> y in xs
    ensures multiset(xs) == multiset(ys) ==> forall x :: x in xs ==> x in ys
  {
    forall y | y in ys ensures y in xs { assert y in multiset(ys); }
    if multiset(xs) == multiset(ys) {
      forall x | x in xs ensures x in ys { assert x in multiset(xs); }
    }
  }

  /** Validity does not depend on the order of the nodes. */
  lemma ValidReordered(sv: Semver, l: Lock, nodes: seq<Node>, root: Root, limits: Limits)
    requires ValidLock(sv, l, root, limits) && multiset(nodes) == multiset(l.nodes)
    ensures ValidLock(sv, l.(nodes := nodes), root, limits)
  {
    NodesReordered(l.nodes, nodes, root, limits);
    forall e | e in l.edges ensures EdgeOk(sv, nodes, e) {
      assert EdgeOk(sv, l.nodes, e);
      var n :| n in l.nodes && Pins(sv, e, n);
      assert n in nodes;
    }
  }

  lemma ValidIsClosed(sv: Semver, l: Lock, root: Root, limits: Limits)
    requires ValidLock(sv, l, root, limits)
    ensures Closed(l)
  {
    forall e | e in l.edges ensures e.child in Ids(l.nodes) {
      assert EdgeOk(sv, l.nodes, e);
      var n :| n in l.nodes && Pins(sv, e, n);
      InIds(l.nodes, n);
    }
  }

  /** The reordered lock of a valid lock: a permutation, children first, still valid. */
  lemma ReorderedValid(sv: Semver, l: Lock, root: Root, limits: Limits)
    requires ValidLock(sv, l, root, limits)
    ensures Closed(l)
    ensures multiset(Reordered(l).nodes) == multiset(l.nodes)
    ensures ChildrenFirst(l.edges, Reordered(l).nodes)
    ensures ValidLock(sv, Reordered(l), root, limits)
  {
    ValidIsClosed(sv, l, root, limits);
    ReorderedLists(l);
    ValidReordered(sv, l, Reordered(l).nodes, root, limits);
  }

  // ---- The recursion that fills seen and ordered -------------------------------------------

  class Lister {
    const l: Lock
    var seen: set<string>
    var ordered: seq<Node>

    constructor (l: Lock)
      ensures this.l == l && seen == {} && ordered == []
    {
      this.l := l;
      seen, ordered := {}, [];
    }

    /** visit(parent) */
    method Visit(parent: string)
      requires Closed(l)
      modifies this
      ensures old(seen) <= seen
      ensures Walked(seen, ordered) == VisitAll(l, Children(l, parent), old(Walked(seen, ordered)))
      decreases Unseen(l, seen)
    {
      var todo := Children(l, parent);
      ghost var start := Walked(seen, ordered);
      var i := 0;
      while i < |todo|
        invariant 0 <= i <= |todo|
        invariant start.seen <= seen
        invariant forall e :: e in todo[i..] ==> e in l.edges
        invariant VisitAll(l, todo[i..], Walked(seen, ordered)) == VisitAll(l, todo, start)
      {
        var child := todo[i].child;
        assert todo[i..][0] == todo[i] && todo[i..][1..] == todo[i + 1..];
        assert todo[i] in todo;
        if child !in seen {
          assert child in Unseen(l, seen);
          seen := seen + {child};
          Visit(child);
          ordered := ordered + [Find(l.nodes, child)];
        }
        i := i + 1;
      }
    }
  }

  method OrderNodes(l: Lock) returns (r: Lock)
    requires Closed(l)
    ensures r == Reordered(l)
  {
    var lister := new Lister(l);
    lister.Visit(ROOT);
    r := l.(nodes := lister.ordered);
  }
}
