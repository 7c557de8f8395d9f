/** A partial lock built from valid child locks grows monotonically, so an invalid one
    has no valid extension. */
module Pruning {
  import opened Sequences
  import opened Locks
  import opened Merging

  /** What CompositionService.node establishes before it offers a choice. */
  ghost predicate ValidChoice(sv: Semver, c: Choice) {
    0 <= c.node.expandedBytes && ValidLock(sv, c.lock, c.AsRoot(), COMPOSITION_LIMITS)
  }

  /** A lock with nothing missing and nothing loose, whatever its limits and pins. */
  ghost predicate Anchored(l: Lock) {
    && l.formatVersion == 1
    && NoDup(Ids(l.nodes)) && NoDup(Map(l.edges, KeyOf))
    && (forall e :: e in l.edges ==> '/' !in e.dep.alias)
    && (forall e :: e in l.edges ==> e.parent == ROOT || e.parent in Ids(l.nodes))
    && (forall e :: e in l.edges ==> e.child in Ids(l.nodes))
    && AllReached(l)
  }

  /** m consists of l, the choice, the choice's own lock and one edge from the root. */
  ghost predicate Joined(l: Lock, d: Dependency, c: Choice, index: nat, m: Lock) {
    && (forall n :: n in m.nodes <==> n in l.nodes || n == c.node || n in c.lock.nodes)
    && (forall e :: e in m.edges <==> e in l.edges || e in Reparented(c) || e == RootEdge(d, c, index))
  }

  ghost predicate Mergeable(l: Lock, d: Dependency, c: Choice) {
    && c.node.versionId != ROOT && '/' !in d.alias
    && forall e :: e in l.edges && e.parent == ROOT ==> e.dep.alias != d.alias
  }

  lemma SortKeepsKeys<T(!new), K(!new)>(xs: seq<T>, le: (T, T) -> bool, key: T -> K)
    requires TotalPreorder(le) && NoDup(Map(xs, key))
    ensures NoDup(Map(Sort(xs, le), key)) && forall x :: x in Sort(xs, le) <==> x in xs
  {
    SortCorrect(xs, le);
    SortMembers(xs, le);
    IncludedNoDup(Sort(xs, le), xs, key);
  }

  lemma MergedNodes(l: Lock, d: Dependency, c: Choice, index: nat)
    requires NoDup(Ids(l.nodes)) && Merge(l, d, c, index).Some?
    ensures var m := Merge(l, d, c, index).value;
      NoDup(Ids(m.nodes)) && forall n :: n in m.nodes <==> n in l.nodes || n == c.node || n in c.lock.nodes
  {
    var added := [c.node] + c.lock.nodes;
    NodeKeys(l.nodes);
    AddAllCorrect(l.nodes, IdOfNode, added);
    var nodes := AddAll(l.nodes, IdOfNode, added).value;
    LePreorders();
    SortKeepsKeys(nodes, NodeLe, IdOfNode);
    NodeKeys(Sort(nodes, NodeLe));
  }

  lemma ChildIsNode(sv: Semver, c: Choice, f: Edge)
    requires ValidChoice(sv, c) && f in c.lock.edges
    ensures f.child in Ids(c.lock.nodes) && f.child != ROOT && '/' !in f.dep.alias
    ensures f.parent == ROOT || (f.parent in Ids(c.lock.nodes) && f.parent != ROOT)
  {
    assert EdgeOk(sv, c.lock.nodes, f);
    var n :| n in c.lock.nodes && Pins(sv, f, n);
    InIds(c.lock.nodes, n);
  }

  lemma ChoiceEdges(sv: Semver, c: Choice)
    requires ValidChoice(sv, c) && c.node.versionId != ROOT
    ensures forall e :: e in Reparented(c) ==>
      '/' !in e.dep.alias && e.parent != ROOT && (e.parent == c.node.versionId || e.parent in Ids(c.lock.nodes)) &&
      e.child in Ids(c.lock.nodes)
  {
    forall e | e in Reparented(c)
      ensures '/' !in e.dep.alias && e.parent != ROOT
      ensures e.parent == c.node.versionId || e.parent in Ids(c.lock.nodes)
      ensures e.child in Ids(c.lock.nodes)
    {
      var f := FromReparented(c, e);
      ChildIsNode(sv, c, f);
    }
  }

  lemma FreshRootKey(edges: seq<Edge>, e: Edge)
    requires e.parent == ROOT && '/' !in e.dep.alias
    requires forall f :: f in edges ==> '/' !in f.dep.alias && (f.parent == ROOT ==> f.dep.alias != e.dep.alias)
    ensures forall f :: f in edges ==> f.Key() != e.Key()
  {
    forall f | f in edges ensures f.Key() != e.Key() {
      if f.Key() == e.Key() {
        KeyInjective(f.parent, f.dep.alias, e.parent, e.dep.alias);
      }
    }
  }

  lemma SetFresh(edges: seq<Edge>, e: Edge)
    requires NoDup(Map(edges, KeyOf)) && forall f :: f in edges ==> f.Key() != e.Key()
    ensures SetEdge(edges, e) == edges + [e] && NoDup(Map(SetEdge(edges, e), KeyOf))
  {
    var i := IndexOf(edges, KeyOf, e.Key());
    assert forall j :: 0 <= j < |edges| ==> edges[j] in edges;
    assert Map(edges + [e], KeyOf) == Map(edges, KeyOf) + [e.Key()];
    assert e.Key() !in Map(edges, KeyOf);
  }

  lemma MergedEdges(sv: Semver, l: Lock, d: Dependency, c: Choice, index: nat)
    requires Anchored(l) && ValidChoice(sv, c) && Mergeable(l, d, c) && Merge(l, d, c, index).Some?
    ensures var m := Merge(l, d, c, index).value;
      NoDup(Map(m.edges, KeyOf)) &&
      forall e :: e in m.edges <==> e in l.edges || e in Reparented(c) || e == RootEdge(d, c, index)
  {
    AddAllCorrect(l.edges, KeyOf, Reparented(c));
    var edges := AddAll(l.edges, KeyOf, Reparented(c)).value;
    var e := RootEdge(d, c, index);
    ChoiceEdges(sv, c);
    FreshRootKey(edges, e);
    SetFresh(edges, e);
    SortMerged(edges, e);
  }

  lemma SortMerged(edges: seq<Edge>, e: Edge)
    requires NoDup(Map(edges + [e], KeyOf))
    ensures NoDup(Map(Sort(edges + [e], EdgeLe), KeyOf))
    ensures forall f :: f in Sort(edges + [e], EdgeLe) <==> f in edges || f == e
  {
    LePreorders();
    SortKeepsKeys(edges + [e], EdgeLe, KeyOf);
  }

  /** A path inside the choice's own lock becomes a path below the choice. */
  lemma {:induction false} ReparentedWalk(c: Choice, edges: seq<Edge>, a: string, b: string, n: nat)
    requires forall f :: f in c.lock.edges ==> f.child != ROOT && Reparent(f, c.node.versionId) in edges
    requires Walk(c.lock.edges, a, b, n) && b != ROOT
    ensures Walk(edges, if a == ROOT then c.node.versionId else a, b, n)
    decreases n
  {
    if n > 0 {
      var f :| f in c.lock.edges && f.parent == a && Walk(c.lock.edges, f.child, b, n - 1);
      ReparentedWalk(c, edges, f.child, b, n - 1);
      WalkStep(edges, Reparent(f, c.node.versionId), b, n - 1);
    }
  }

  lemma MergedReached(sv: Semver, l: Lock, d: Dependency, c: Choice, index: nat, m: Lock)
    requires Anchored(l) && ValidChoice(sv, c) && Mergeable(l, d, c)
    requires Joined(l, d, c, index, m)
    ensures AllReached(m)
  {
    var root := RootEdge(d, c, index);
    assert root in m.edges;
    forall id | id in Ids(m.nodes) ensures Reaches(m.edges, ROOT, id) {
      var n := IdOf(m.nodes, id);
      if n in l.nodes {
        InIds(l.nodes, n);
        var k: nat :| Walk(l.edges, ROOT, id, k);
        WalkGrows(l.edges, m.edges, ROOT, id, k);
      } else if n == c.node {
        assert Walk(m.edges, root.child, id, 0);
        assert Walk(m.edges, ROOT, id, 1);
      } else {
        InIds(c.lock.nodes, n);
        var k: nat :| Walk(c.lock.edges, ROOT, id, k);
        forall f | f in c.lock.edges ensures f.child != ROOT && Reparent(f, c.node.versionId) in m.edges {
          InReparented(c, f);
          ChildIsNode(sv, c, f);
        }
        ReparentedWalk(c, m.edges, ROOT, id, k);
        WalkStep(m.edges, root, id, k);
      }
    }
  }

  /** Merging a valid choice keeps a partial lock whole and adds exactly that choice. */
  lemma MergeAnchored(sv: Semver, l: Lock, d: Dependency, c: Choice, index: nat)
    requires Anchored(l) && ValidChoice(sv, c) && Mergeable(l, d, c) && Merge(l, d, c, index).Some?
    ensures Anchored(Merge(l, d, c, index).value) && Joined(l, d, c, index, Merge(l, d, c, index).value)
  {
    var m := Merge(l, d, c, index).value;
    MergedNodes(l, d, c, index);
    MergedEdges(sv, l, d, c, index);
    MergedReached(sv, l, d, c, index, m);
    MergedEnds(sv, l, d, c, index, m);
  }

  lemma MergedEnds(sv: Semver, l: Lock, d: Dependency, c: Choice, index: nat, m: Lock)
    requires Anchored(l) && ValidChoice(sv, c) && Mergeable(l, d, c) && Joined(l, d, c, index, m)
    ensures forall e :: e in m.edges ==>
      '/' !in e.dep.alias && (e.parent == ROOT || e.parent in Ids(m.nodes)) && e.child in Ids(m.nodes)
  {
    ChoiceEdges(sv, c);
    InIds(m.nodes, c.node);
    forall e | e in m.edges
      ensures '/' !in e.dep.alias && (e.parent == ROOT || e.parent in Ids(m.nodes)) && e.child in Ids(m.nodes)
    {
      if e in l.edges {
        if e.parent != ROOT { IdStays(l.nodes, m.nodes, e.parent); }
        IdStays(l.nodes, m.nodes, e.child);
      } else if e in Reparented(c) {
        if e.parent != c.node.versionId { IdStays(c.lock.nodes, m.nodes, e.parent); }
        IdStays(c.lock.nodes, m.nodes, e.child);
      }
    }
  }

  lemma IdStays(nodes: seq<Node>, more: seq<Node>, id: string)
    requires id in Ids(nodes) && forall n :: n in nodes ==> n in more
    ensures id in Ids(more)
  {
    var n := IdOf(nodes, id);
    InIds(more, n);
  }

  // ---- Monotonicity ----------------------------------------------------------------

  ghost predicate Within(l: Lock, m: Lock) {
    && (forall n :: n in l.nodes ==> n in m.nodes)
    && (forall e :: e in l.edges ==> e in m.edges)
  }

  lemma NodesShrink(l: Lock, m: Lock, root: Root, limits: Limits)
    requires Anchored(l) && Within(l, m) && NodesOk(m.nodes, root, limits)
    ensures NodesOk(l.nodes, root, limits)
  {
    NodeKeys(l.nodes);
    NodeKeys(m.nodes);
    SubsetIncluded(l.nodes, m.nodes, IdOfNode);
    IncludedLength(l.nodes, m.nodes);
    IncludedNoDup(l.nodes, m.nodes, IdentityOf);
    MapIncluded(l.nodes, m.nodes, SizeOf);
    assert forall i :: 0 <= i < |m.nodes| ==> m.nodes[i] in m.nodes;
    SumIncluded(Sizes(l.nodes), Sizes(m.nodes));
    assert forall id :: id in Ids(l.nodes) ==> id in Ids(m.nodes) by {
      forall id | id in Ids(l.nodes) ensures id in Ids(m.nodes) { IdStays(l.nodes, m.nodes, id); }
    }
    MapIncluded(l.nodes, m.nodes, IdentityOf);
    assert root.Identity() !in multiset(Identities(m.nodes));
    assert root.Identity() !in multiset(Identities(l.nodes));
  }

  lemma FanOutShrinks(l: Lock, m: Lock, parent: string, fanOut: nat)
    requires multiset(l.edges) <= multiset(m.edges) && FanOutOk(m.edges, parent, fanOut)
    ensures FanOutOk(l.edges, parent, fanOut)
  {
    var few, many := Out(l.edges, parent), Out(m.edges, parent);
    OutIncluded(l.edges, m.edges, parent);
    IncludedLength(few, many);
    EdgeKeys(few);
    EdgeKeys(many);
    IncludedNoDup(few, many, AliasOf);
    IncludedNoDup(few, many, OrdinalOf);
  }

  lemma EdgesShrink(sv: Semver, l: Lock, m: Lock, limits: Limits)
    requires Anchored(l) && Within(l, m) && NoDup(Ids(m.nodes)) && EdgesOk(sv, m, limits)
    ensures EdgesOk(sv, l, limits)
  {
    SubsetIncluded(l.edges, m.edges, KeyOf);
    forall p ensures FanOutOk(l.edges, p, limits.fanOut) {
      FanOutShrinks(l, m, p, limits.fanOut);
    }
    forall e | e in l.edges ensures EdgeOk(sv, l.nodes, e) {
      var n := IdOf(l.nodes, e.child);
      assert EdgeOk(sv, m.nodes, e);
      var n' :| n' in m.nodes && Pins(sv, e, n');
      SameId(m.nodes, n, n');
      assert Pins(sv, e, n);
    }
  }

  /** An invalid lock assembled from valid choices stays invalid whatever is added. */
  lemma InvalidNeverRecovers(sv: Semver, l: Lock, m: Lock, root: Root, limits: Limits)
    requires Anchored(l) && Within(l, m) && !ValidLock(sv, l, root, limits)
    ensures !ValidLock(sv, m, root, limits)
  {
    if ValidLock(sv, m, root, limits) {
      NodesShrink(l, m, root, limits);
      EdgesShrink(sv, l, m, limits);
      AcyclicShrinks(l.edges, m.edges);
      if HasWalk(l.edges, ROOT, limits.depth + 1) {
        HasWalkGrows(l.edges, m.edges, ROOT, limits.depth + 1);
      }
      assert Shape(sv, l);
    }
  }
}
