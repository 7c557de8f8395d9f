/** Dependency locks and what makes one valid, stated without reference to the
    algorithm that checks it. */
module Locks {
  import opened Sequences

  datatype Scope = Execution | Verification | Both
  datatype Mode = Include | Invoke

  datatype Dependency = Dependency(
    alias: string, workspace: string, skill: string, version: string,
    scope: Scope, mode: Mode, order: Option<int>, required: bool)

  datatype Node = Node(
    versionId: string, workspaceId: string, skillId: string,
    workspace: string, skill: string, semanticVersion: string,
    digest: string, closureDigest: string, expandedBytes: int)
  {
    function Identity(): string { workspace + "/" + skill }
  }

  datatype Edge = Edge(dep: Dependency, parent: string, child: string, ordinal: int) {
    /** The key under which the resolver's merge stores an edge. */
    function Key(): string { parent + "/" + dep.alias }
  }

  datatype Lock = Lock(formatVersion: int, nodes: seq<Node>, edges: seq<Edge>)

  datatype Root = Root(workspace: string, skill: string, expandedBytes: nat) {
    function Identity(): string { workspace + "/" + skill }
  }

  datatype Limits = Limits(depth: nat, fanOut: nat, nodes: nat, expandedBytes: nat, attempts: nat)

  /** Semantic versioning, abstractly: which texts are versions and ranges, which
      versions satisfy a range, and the precedence order (a total preorder). */
  datatype Semver = Semver(
    valid: string -> bool, validRange: string -> bool,
    satisfies: (string, string) -> bool, atMost: (string, string) -> bool)

  const ROOT := "$root"
  const EMPTY := Lock(1, [], [])
  const MAX_SAFE_INTEGER := 9007199254740991
  const COMPOSITION_LIMITS := Limits(12, 32, 128, 50 * 1024 * 1024, 4096)

  // ---- Shape of the persisted value ----------------------------------------

  predicate Digest(s: string) {
    |s| == 71 && s[..7] == "sha256:" &&
    forall i :: 7 <= i < 71 ==> '0' <= s[i] <= '9' || 'a' <= s[i] <= 'f'
  }

  predicate SelectorChar(c: char) { 'a' <= c <= 'z' || '0' <= c <= '9' }

  /** Lower-case words joined by single hyphens; in particular free of '/'. */
  predicate Selector(s: string) {
    1 <= |s| <= 120 && SelectorChar(s[0]) && SelectorChar(s[|s| - 1]) &&
    (forall c :: c in s ==> SelectorChar(c) || c == '-') &&
    (forall i, j :: 0 <= i < |s| && 0 <= j < |s| && j == i + 1 ==> s[i] != '-' || s[j] != '-')
  }

  predicate DependencyShape(d: Dependency) {
    Selector(d.alias) && Selector(d.workspace) && Selector(d.skill) && 1 <= |d.version| <= 200 &&
    (d.order.Some? ==> 0 <= d.order.value <= 1000)
  }

  predicate NodeShape(sv: Semver, n: Node) {
    n.versionId != "" && n.workspaceId != "" && n.skillId != "" && n.workspace != "" && n.skill != "" &&
    sv.valid(n.semanticVersion) && Digest(n.digest) && Digest(n.closureDigest)
  }

  predicate EdgeShape(e: Edge) {
    e.parent != "" && e.child != "" && 0 <= e.ordinal <= MAX_SAFE_INTEGER && DependencyShape(e.dep)
  }

  predicate Shape(sv: Semver, lock: Lock) {
    (forall n :: n in lock.nodes ==> NodeShape(sv, n)) && (forall e :: e in lock.edges ==> EdgeShape(e))
  }

  // ---- Nodes ---------------------------------------------------------------

  function Ids(nodes: seq<Node>): seq<string> {
    seq(|nodes|, i requires 0 <= i < |nodes| => nodes[i].versionId)
  }

  function Identities(nodes: seq<Node>): seq<string> {
    seq(|nodes|, i requires 0 <= i < |nodes| => nodes[i].Identity())
  }

  function Sizes(nodes: seq<Node>): seq<int> {
    seq(|nodes|, i requires 0 <= i < |nodes| => nodes[i].expandedBytes)
  }

  function IdOfNode(n: Node): string { n.versionId }
  function IdentityOf(n: Node): string { n.Identity() }
  function SizeOf(n: Node): int { n.expandedBytes }

  lemma NodeKeys(nodes: seq<Node>)
    ensures Ids(nodes) == Map(nodes, IdOfNode)
    ensures Identities(nodes) == Map(nodes, IdentityOf)
    ensures Sizes(nodes) == Map(nodes, SizeOf)
  {
  }

  ghost predicate NodesOk(nodes: seq<Node>, root: Root, limits: Limits) {
    && |nodes| <= limits.nodes
    && NoDup(Ids(nodes)) && ROOT !in Ids(nodes)
    && NoDup(Identities(nodes)) && root.Identity() !in Identities(nodes)
    && (forall n :: n in nodes ==> 0 <= n.expandedBytes <= MAX_SAFE_INTEGER)
    && root.expandedBytes + Sum(Sizes(nodes)) <= limits.expandedBytes
  }

  // ---- Edges ---------------------------------------------------------------

  /** edges.filter(e => e.parent === parent) */
  function Out(edges: seq<Edge>, parent: string): (out: seq<Edge>)
    ensures forall e :: e in out <==> e in edges && e.parent == parent
  {
    if edges == [] then []
    else if edges[0].parent == parent then [edges[0]] + Out(edges[1..], parent)
    else Out(edges[1..], parent)
  }

  function Aliases(edges: seq<Edge>): seq<string> {
    seq(|edges|, i requires 0 <= i < |edges| => edges[i].dep.alias)
  }

  function Ordinals(edges: seq<Edge>): seq<int> {
    seq(|edges|, i requires 0 <= i < |edges| => edges[i].ordinal)
  }

  function AliasOf(e: Edge): string { e.dep.alias }
  function OrdinalOf(e: Edge): int { e.ordinal }

  lemma EdgeKeys(edges: seq<Edge>)
    ensures Aliases(edges) == Map(edges, AliasOf)
    ensures Ordinals(edges) == Map(edges, OrdinalOf)
  {
  }

  lemma {:induction false} OutCounts(edges: seq<Edge>, parent: string, e: Edge)
    ensures multiset(Out(edges, parent))[e] == if e.parent == parent then multiset(edges)[e] else 0
  {
    if edges != [] {
      OutCounts(edges[1..], parent, e);
      assert edges == [edges[0]] + edges[1..];
    }
  }

  lemma OutIncluded(edges: seq<Edge>, more: seq<Edge>, parent: string)
    requires multiset(edges) <= multiset(more)
    ensures multiset(Out(edges, parent)) <= multiset(Out(more, parent))
  {
    forall e ensures multiset(Out(edges, parent))[e] <= multiset(Out(more, parent))[e] {
      OutCounts(edges, parent, e);
      OutCounts(more, parent, e);
    }
  }

  ghost predicate FanOutOk(edges: seq<Edge>, parent: string, fanOut: nat) {
    var out := Out(edges, parent);
    |out| <= fanOut && NoDup(Aliases(out)) && NoDup(Ordinals(out))
  }

  /** The pinned child exists and is what the edge asks for. */
  predicate Pins(sv: Semver, e: Edge, n: Node) {
    n.versionId == e.child && sv.validRange(e.dep.version) && sv.satisfies(n.semanticVersion, e.dep.version) &&
    n.workspace == e.dep.workspace && n.skill == e.dep.skill
  }

  ghost predicate EdgeOk(sv: Semver, nodes: seq<Node>, e: Edge) {
    exists n :: n in nodes && Pins(sv, e, n)
  }

  ghost predicate EdgesOk(sv: Semver, lock: Lock, limits: Limits) {
    && (forall p :: FanOutOk(lock.edges, p, limits.fanOut))
    && (forall e :: e in lock.edges ==> EdgeOk(sv, lock.nodes, e))
    && (forall e :: e in lock.edges ==> e.parent == ROOT || e.parent in Ids(lock.nodes))
  }

  // ---- Paths ---------------------------------------------------------------

  /** There is a path of exactly n edges from a to b. */
  ghost predicate Walk(edges: seq<Edge>, a: string, b: string, n: nat)
    decreases n
  {
    if n == 0 then a == b
    else exists e :: e in edges && e.parent == a && Walk(edges, e.child, b, n - 1)
  }

  /** There is a path of exactly n edges that starts at a. */
  ghost predicate HasWalk(edges: seq<Edge>, a: string, n: nat)
    decreases n
  {
    n == 0 || exists e :: e in edges && e.parent == a && HasWalk(edges, e.child, n - 1)
  }

  ghost predicate Reaches(edges: seq<Edge>, a: string, b: string) {
    exists n: nat :: Walk(edges, a, b, n)
  }

  /** b is a proper descendant of a. */
  ghost predicate Below(edges: seq<Edge>, a: string, b: string) {
    exists n: nat :: 0 < n && Walk(edges, a, b, n)
  }

  ghost predicate Acyclic(edges: seq<Edge>) {
    forall v :: Reaches(edges, ROOT, v) ==> !Below(edges, v, v)
  }

  ghost predicate AllReached(lock: Lock) {
    forall id :: id in Ids(lock.nodes) ==> Reaches(lock.edges, ROOT, id)
  }

  /** What the format promises of a lock: every limit, identity, pin and path condition. */
  ghost predicate ValidLock(sv: Semver, lock: Lock, root: Root, limits: Limits) {
    && lock.formatVersion == 1
    && Shape(sv, lock)
    && NodesOk(lock.nodes, root, limits)
    && EdgesOk(sv, lock, limits)
    && Acyclic(lock.edges)
    && !HasWalk(lock.edges, ROOT, limits.depth + 1)
    && AllReached(lock)
  }

  // ---- Lemmas about paths --------------------------------------------------

  lemma {:induction false} WalkJoin(edges: seq<Edge>, a: string, b: string, c: string, m: nat, n: nat)
    requires Walk(edges, a, b, m) && Walk(edges, b, c, n)
    ensures Walk(edges, a, c, m + n)
    decreases m
  {
    if m > 0 {
      var e :| e in edges && e.parent == a && Walk(edges, e.child, b, m - 1);
      WalkJoin(edges, e.child, b, c, m - 1, n);
    }
  }

  lemma WalkStep(edges: seq<Edge>, e: Edge, b: string, n: nat)
    requires e in edges && Walk(edges, e.child, b, n)
    ensures Walk(edges, e.parent, b, n + 1)
  {
  }

  lemma EdgeBelow(edges: seq<Edge>, e: Edge)
    requires e in edges
    ensures Below(edges, e.parent, e.child)
  {
    assert Walk(edges, e.child, e.child, 0);
    assert Walk(edges, e.parent, e.child, 1);
  }

  lemma BelowTransitive(edges: seq<Edge>, a: string, b: string, c: string)
    requires Below(edges, a, b) && Below(edges, b, c)
    ensures Below(edges, a, c)
  {
    var m: nat :| 0 < m && Walk(edges, a, b, m);
    var n: nat :| 0 < n && Walk(edges, b, c, n);
    WalkJoin(edges, a, b, c, m, n);
  }

  lemma ReachesBelow(edges: seq<Edge>, a: string, b: string, c: string)
    requires Reaches(edges, a, b) && Below(edges, b, c)
    ensures Reaches(edges, a, c)
  {
    var m: nat :| Walk(edges, a, b, m);
    var n: nat :| 0 < n && Walk(edges, b, c, n);
    WalkJoin(edges, a, b, c, m, n);
  }

  lemma ReachesSelf(edges: seq<Edge>, a: string)
    ensures Reaches(edges, a, a)
  {
    assert Walk(edges, a, a, 0);
  }

  /** The last edge of a nonempty path. */
  lemma {:induction false} LastEdge(edges: seq<Edge>, a: string, b: string, n: nat) returns (e: Edge)
    requires 0 < n && Walk(edges, a, b, n)
    ensures e in edges && e.child == b && Walk(edges, a, e.parent, n - 1)
    decreases n
  {
    e :| e in edges && e.parent == a && Walk(edges, e.child, b, n - 1);
    if n > 1 {
      var first := e;
      e := LastEdge(edges, e.child, b, n - 1);
      assert Walk(edges, a, e.parent, n - 1);
    }
  }

  lemma {:induction false} ShorterWalk(edges: seq<Edge>, a: string, n: nat)
    requires HasWalk(edges, a, n + 1)
    ensures HasWalk(edges, a, n)
    decreases n
  {
    if n > 0 {
      var e :| e in edges && e.parent == a && HasWalk(edges, e.child, n);
      ShorterWalk(edges, e.child, n - 1);
    }
  }

  lemma {:induction false} MuchShorterWalk(edges: seq<Edge>, a: string, m: nat, n: nat)
    requires m <= n && HasWalk(edges, a, n)
    ensures HasWalk(edges, a, m)
    decreases n
  {
    if m < n {
      ShorterWalk(edges, a, n - 1);
      MuchShorterWalk(edges, a, m, n - 1);
    }
  }

  lemma {:induction false} WalkIsWalk(edges: seq<Edge>, a: string, b: string, n: nat)
    requires Walk(edges, a, b, n)
    ensures HasWalk(edges, a, n)
    decreases n
  {
    if n > 0 {
      var e :| e in edges && e.parent == a && Walk(edges, e.child, b, n - 1);
      WalkIsWalk(edges, e.child, b, n - 1);
    }
  }

  /** More edges keep every path. */
  lemma {:induction false} WalkGrows(edges: seq<Edge>, more: seq<Edge>, a: string, b: string, n: nat)
    requires Walk(edges, a, b, n) && forall e :: e in edges ==> e in more
    ensures Walk(more, a, b, n)
    decreases n
  {
    if n > 0 {
      var e :| e in edges && e.parent == a && Walk(edges, e.child, b, n - 1);
      WalkGrows(edges, more, e.child, b, n - 1);
    }
  }

  lemma {:induction false} HasWalkGrows(edges: seq<Edge>, more: seq<Edge>, a: string, n: nat)
    requires HasWalk(edges, a, n) && forall e :: e in edges ==> e in more
    ensures HasWalk(more, a, n)
    decreases n
  {
    if n > 0 {
      var e :| e in edges && e.parent == a && HasWalk(edges, e.child, n - 1);
      HasWalkGrows(edges, more, e.child, n - 1);
    }
  }

  lemma AcyclicShrinks(edges: seq<Edge>, more: seq<Edge>)
    requires Acyclic(more) && forall e :: e in edges ==> e in more
    ensures Acyclic(edges)
  {
    forall v | Reaches(edges, ROOT, v) ensures !Below(edges, v, v) {
      var m: nat :| Walk(edges, ROOT, v, m);
      WalkGrows(edges, more, ROOT, v, m);
      if Below(edges, v, v) {
        var n: nat :| 0 < n && Walk(edges, v, v, n);
        WalkGrows(edges, more, v, v, n);
        assert Reaches(more, ROOT, v) && Below(more, v, v);
      }
    }
  }

  /** Two nodes with one id are one node, and so on for the other keys. */
  lemma SameId(nodes: seq<Node>, a: Node, b: Node)
    requires NoDup(Ids(nodes)) && a in nodes && b in nodes && a.versionId == b.versionId
    ensures a == b
  {
    NodeKeys(nodes);
    KeyIsUnique(nodes, IdOfNode, a, b);
  }

  lemma IdOf(nodes: seq<Node>, id: string) returns (n: Node)
    requires id in Ids(nodes)
    ensures n in nodes && n.versionId == id
  {
    var i :| 0 <= i < |nodes| && Ids(nodes)[i] == id;
    n := nodes[i];
  }

  lemma InIds(nodes: seq<Node>, n: Node)
    requires n in nodes
    ensures n.versionId in Ids(nodes)
  {
    var i :| 0 <= i < |nodes| && nodes[i] == n;
    assert Ids(nodes)[i] == n.versionId;
  }
}
