/** How the resolver adds one published choice to a partial lock, and why a partial
    lock that is invalid can be abandoned. */
module Merging {
  import opened Sequences
  import opened Locks

  /** A published version together with its own immutable lock. */
  datatype Choice = Choice(node: Node, lock: Lock) {
    function AsRoot(): Root
      requires 0 <= node.expandedBytes
    {
      Root(node.workspace, node.skill, node.expandedBytes)
    }
  }

  // ---- Merging keyed rows ----------------------------------------------------

  /** Two rows with one key are the same row. */
  ghost predicate Agree<T(!new), K>(xs: seq<T>, key: T -> K) {
    forall a, b :: a in xs && b in xs && key(a) == key(b) ==> a == b
  }

  function IndexOf<T, K(==)>(xs: seq<T>, key: T -> K, k: K): (i: nat)
    ensures i <= |xs| && (i < |xs| ==> key(xs[i]) == k)
    ensures forall j :: 0 <= j < i ==> key(xs[j]) != k
  {
    if xs == [] || key(xs[0]) == k then 0
    else
      var i := IndexOf(xs[1..], key, k);
      assert forall j :: 0 < j < i + 1 ==> xs[j] == xs[1..][j - 1];
      i + 1
  }

  /** Map.set for a key that must not change its value: None when it would. */
  function Add<T(==), K(==)>(xs: seq<T>, key: T -> K, y: T): Option<seq<T>> {
    var i := IndexOf(xs, key, key(y));
    if i == |xs| then Some(xs + [y]) else if xs[i] == y then Some(xs) else None
  }

  function AddAll<T(==), K(==)>(xs: seq<T>, key: T -> K, ys: seq<T>): Option<seq<T>>
    decreases |ys|
  {
    if ys == [] then Some(xs)
    else match Add(xs, key, ys[0])
      case None => None
      case Some(xs') => AddAll(xs', key, ys[1..])
  }

  lemma {:induction false} AgreeNoDup<T(!new), K(!new)>(xs: seq<T>, key: T -> K)
    requires NoDup(Map(xs, key))
    ensures Agree(xs, key)
  {
    forall a, b | a in xs && b in xs && key(a) == key(b) ensures a == b {
      KeyIsUnique(xs, key, a, b);
    }
  }

  lemma AddKeeps<T(!new), K(!new)>(xs: seq<T>, key: T -> K, y: T)
    requires NoDup(Map(xs, key)) && Add(xs, key, y).Some?
    ensures NoDup(Map(Add(xs, key, y).value, key))
    ensures forall x :: x in Add(xs, key, y).value <==> x in xs || x == y
  {
    var i := IndexOf(xs, key, key(y));
    if i == |xs| {
      assert Map(xs + [y], key) == Map(xs, key) + [key(y)];
      assert key(y) !in Map(xs, key);
    } else {
      assert xs[i] in xs;
    }
  }

  /** Merging succeeds exactly when all the rows agree, and then holds exactly their union. */
  lemma {:induction false} AddAllCorrect<T(!new), K(!new)>(xs: seq<T>, key: T -> K, ys: seq<T>)
    requires NoDup(Map(xs, key))
    ensures AddAll(xs, key, ys).Some? <==> Agree(xs + ys, key)
    ensures AddAll(xs, key, ys).Some? ==>
      NoDup(Map(AddAll(xs, key, ys).value, key)) &&
      forall x :: x in AddAll(xs, key, ys).value <==> x in xs || x in ys
    decreases |ys|
  {
    AgreeNoDup(xs, key);
    if ys == [] {
      assert xs + ys == xs;
    } else {
      var y := ys[0];
      var i := IndexOf(xs, key, key(y));
      assert y in xs + ys;
      if Add(xs, key, y).None? {
        assert xs[i] in xs + ys && key(xs[i]) == key(y) && xs[i] != y;
        assert !Agree(xs + ys, key);
      } else {
        var xs' := Add(xs, key, y).value;
        AddKeeps(xs, key, y);
        AddAllCorrect(xs', key, ys[1..]);
        assert ys == [y] + ys[1..];
        assert forall x :: x in xs + ys <==> x in xs' + ys[1..];
      }
    }
  }

  // ---- Keys --------------------------------------------------------------------

  function KeyOf(e: Edge): string { e.Key() }

  /** parent/alias determines both parts because an alias holds no slash. */
  lemma KeyInjective(p: string, a: string, q: string, b: string)
    requires p + "/" + a == q + "/" + b && '/' !in a && '/' !in b
    ensures p == q && a == b
  {
    var s, t := p + "/" + a, q + "/" + b;
    assert forall i :: |p| < i < |s| ==> s[i] in a;
    assert forall i :: |q| < i < |t| ==> t[i] in b;
    assert s[|p|] == '/' && t[|q|] == '/';
    assert s[..|p|] == p && t[..|q|] == q;
    assert s[|p| + 1..] == a && t[|q| + 1..] == b;
  }

  lemma EdgeKeyInjective(e: Edge, f: Edge)
    requires EdgeShape(e) && EdgeShape(f) && e.Key() == f.Key()
    ensures e.parent == f.parent && e.dep.alias == f.dep.alias
  {
    KeyInjective(e.parent, e.dep.alias, f.parent, f.dep.alias);
  }

  // ---- One step of the search ----------------------------------------------------

  predicate NodeLe(a: Node, b: Node) { StrLe(a.versionId, b.versionId) }

  predicate EdgeLe(a: Edge, b: Edge) {
    if a.parent == b.parent then a.ordinal <= b.ordinal else StrLe(a.parent, b.parent)
  }

  lemma LePreorders()
    ensures TotalPreorder(NodeLe) && TotalPreorder(EdgeLe)
  {
    forall a, b ensures NodeLe(a, b) || NodeLe(b, a) { StrLeTotal(a.versionId, b.versionId); }
    forall a, b, c | NodeLe(a, b) && NodeLe(b, c) ensures NodeLe(a, c) {
      StrLeTransitive(a.versionId, b.versionId, c.versionId);
    }
    forall a, b ensures EdgeLe(a, b) || EdgeLe(b, a) { StrLeTotal(a.parent, b.parent); }
    forall a, b, c | EdgeLe(a, b) && EdgeLe(b, c) ensures EdgeLe(a, c) {
      StrLeTotal(a.parent, b.parent);
      StrLeTotal(b.parent, c.parent);
      if a.parent != b.parent && b.parent != c.parent {
        StrLeTransitive(a.parent, b.parent, c.parent);
      }
    }
  }

  /** A child's own root becomes the child. */
  function Reparent(e: Edge, id: string): Edge {
    if e.parent == ROOT then e.(parent := id) else e
  }

  function Reparented(c: Choice): seq<Edge> {
    seq(|c.lock.edges|, i requires 0 <= i < |c.lock.edges| => Reparent(c.lock.edges[i], c.node.versionId))
  }

  lemma InReparented(c: Choice, f: Edge)
    requires f in c.lock.edges
    ensures Reparent(f, c.node.versionId) in Reparented(c)
  {
    var i :| 0 <= i < |c.lock.edges| && c.lock.edges[i] == f;
    assert Reparented(c)[i] == Reparent(f, c.node.versionId);
  }

  lemma FromReparented(c: Choice, e: Edge) returns (f: Edge)
    requires e in Reparented(c)
    ensures f in c.lock.edges && e == Reparent(f, c.node.versionId)
  {
    var i :| 0 <= i < |c.lock.edges| && Reparented(c)[i] == e;
    f := c.lock.edges[i];
  }

  function RootEdge(d: Dependency, c: Choice, index: nat): Edge {
    Edge(d, ROOT, c.node.versionId, index)
  }

  /** Map.set: a new key goes last, a known key keeps its place. */
  function SetEdge(edges: seq<Edge>, e: Edge): seq<Edge> {
    var i := IndexOf(edges, KeyOf, e.Key());
    if i == |edges| then edges + [e] else edges[i := e]
  }

  /** The lock that the search tries next, unless an immutable row would change. */
  function Merge(l: Lock, d: Dependency, c: Choice, index: nat): Option<Lock> {
    var nodes := AddAll(l.nodes, IdOfNode, [c.node] + c.lock.nodes);
    var edges := AddAll(l.edges, KeyOf, Reparented(c));
    if nodes.None? || edges.None? then None
    else Some(Lock(1, Sort(nodes.value, NodeLe), Sort(SetEdge(edges.value, RootEdge(d, c, index)), EdgeLe)))
  }

  /** A choice can be merged exactly when no immutable row would change: rows with one version
      id, or with one parent and alias, are the same row. */
  lemma MergeSucceeds(l: Lock, d: Dependency, c: Choice, index: nat)
    requires NoDup(Ids(l.nodes)) && NoDup(Map(l.edges, KeyOf))
    requires forall e :: e in l.edges + Reparented(c) ==> '/' !in e.dep.alias
    ensures var nodes, edges := l.nodes + ([c.node] + c.lock.nodes), l.edges + Reparented(c);
      Merge(l, d, c, index).Some? <==>
        (forall a, b :: a in nodes && b in nodes && a.versionId == b.versionId ==> a == b) &&
        (forall e, f :: e in edges && f in edges && e.parent == f.parent && e.dep.alias == f.dep.alias ==> e == f)
  {
    NodeKeys(l.nodes);
    AddAllCorrect(l.nodes, IdOfNode, [c.node] + c.lock.nodes);
    AddAllCorrect(l.edges, KeyOf, Reparented(c));
    var edges := l.edges + Reparented(c);
    forall e, f | e in edges && f in edges
      ensures KeyOf(e) == KeyOf(f) <==> e.parent == f.parent && e.dep.alias == f.dep.alias
    {
      if KeyOf(e) == KeyOf(f) { KeyInjective(e.parent, e.dep.alias, f.parent, f.dep.alias); }
    }
  }

  /** The rows of a merged lock are sorted: nodes by version id, edges by parent and ordinal. */
  lemma MergeSorted(l: Lock, d: Dependency, c: Choice, index: nat, i: nat, j: nat)
    requires Merge(l, d, c, index).Some? && i < j
    ensures var m := Merge(l, d, c, index).value;
      && (j < |m.nodes| ==> StrLe(m.nodes[i].versionId, m.nodes[j].versionId))
      && (j < |m.edges| ==>
            if m.edges[i].parent == m.edges[j].parent then m.edges[i].ordinal <= m.edges[j].ordinal
            else StrLe(m.edges[i].parent, m.edges[j].parent))
  {
    LePreorders();
    SortCorrect(AddAll(l.nodes, IdOfNode, [c.node] + c.lock.nodes).value, NodeLe);
    SortCorrect(SetEdge(AddAll(l.edges, KeyOf, Reparented(c)).value, RootEdge(d, c, index)), EdgeLe);
  }
}
