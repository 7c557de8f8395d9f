/** validateLock: the check that every persisted and every merged lock passes through. */
module LockValidation {
  import opened Sequences
  import opened Locks

  /** The conflict that validateLock reports. */
  datatype Reason =
    | InvalidPersistedLock | NodeLimit | DuplicateNode | ReachesRoot | IncompatibleVersions | InvalidSize
    | ByteLimit | Cycle | InvalidFanOut | InvalidPin | DepthLimit | Unreachable

  datatype Verdict = Accepted | Conflict(reason: Reason)

  /** new Map(nodes.map(n => [n.versionId, n])): a later node replaces an earlier one. */
  method NodeMap(nodes: seq<Node>) returns (m: map<string, Node>)
    ensures m.Keys == Elements(Ids(nodes))
    ensures forall id :: id in m ==> m[id] in nodes && m[id].versionId == id
  {
    m := map[];
    for i := 0 to |nodes|
      invariant m.Keys == Elements(Ids(nodes)[..i])
      invariant forall id :: id in m ==> m[id] in nodes && m[id].versionId == id
    {
      m := m[nodes[i].versionId := nodes[i]];
      assert Ids(nodes)[..i + 1] == Ids(nodes)[..i] + [nodes[i].versionId];
    }
    assert Ids(nodes)[..|nodes|] == Ids(nodes);
  }

  /** The part of NodesOk that the loop over the nodes has established for a prefix. */
  ghost predicate PrefixOk(nodes: seq<Node>, i: nat, root: Root, bytes: int, seen: map<string, string>)
    requires i <= |nodes|
  {
    && seen.Keys == Elements(Identities(nodes)[..i])
    && NoDup(Identities(nodes)[..i]) && root.Identity() !in seen
    && (forall j :: 0 <= j < i ==> 0 <= nodes[j].expandedBytes <= MAX_SAFE_INTEGER)
    && (forall k :: k in seen ==> exists j :: 0 <= j < i && nodes[j].Identity() == k && nodes[j].versionId == seen[k])
    && bytes == root.expandedBytes + Sum(Sizes(nodes)[..i])
  }

  lemma PrefixStep(nodes: seq<Node>, i: nat, root: Root, bytes: int, seen: map<string, string>)
    requires i < |nodes| && PrefixOk(nodes, i, root, bytes, seen)
    requires nodes[i].Identity() != root.Identity() && nodes[i].Identity() !in seen
    requires 0 <= nodes[i].expandedBytes <= MAX_SAFE_INTEGER
    ensures PrefixOk(nodes, i + 1, root, bytes + nodes[i].expandedBytes,
      seen[nodes[i].Identity() := nodes[i].versionId])
  {
    var ids, sizes := Identities(nodes), Sizes(nodes);
    assert ids[..i + 1] == ids[..i] + [ids[i]];
    assert ids[i] == nodes[i].Identity() && sizes[i] == nodes[i].expandedBytes;
    assert sizes[..i + 1] == sizes[..i] + [sizes[i]];
    SumAppend(sizes[..i], [sizes[i]]);
    assert ids[i] !in ids[..i];
    var seen' := seen[nodes[i].Identity() := nodes[i].versionId];
    forall k | k in seen'
      ensures exists j :: 0 <= j < i + 1 && nodes[j].Identity() == k && nodes[j].versionId == seen'[k]
    {
      if k != nodes[i].Identity() {
        var j :| 0 <= j < i && nodes[j].Identity() == k && nodes[j].versionId == seen[k];
      }
    }
  }

  /** With distinct ids, an identity seen before was another version's. */
  lemma SeenBefore(nodes: seq<Node>, i: nat, root: Root, bytes: int, seen: map<string, string>)
    requires i < |nodes| && PrefixOk(nodes, i, root, bytes, seen)
    requires NoDup(Ids(nodes)) && nodes[i].Identity() in seen
    ensures seen[nodes[i].Identity()] != nodes[i].versionId && !NoDup(Identities(nodes))
  {
    var identity := nodes[i].Identity();
    var j :| 0 <= j < i && nodes[j].Identity() == identity && nodes[j].versionId == seen[identity];
    NoDupPositions(Ids(nodes));
    NoDupPositions(Identities(nodes));
    assert Ids(nodes)[j] != Ids(nodes)[i];
    assert Identities(nodes)[j] == Identities(nodes)[i];
  }

  /** The loop over the nodes: identities, sizes and the running byte total. */
  method CheckNodes(nodes: seq<Node>, root: Root, limits: Limits) returns (v: Verdict)
    requires |nodes| <= limits.nodes && NoDup(Ids(nodes)) && ROOT !in Ids(nodes)
    ensures v.Accepted? <==> NodesOk(nodes, root, limits)
  {
    var identities: map<string, string> := map[];
    var bytes: int := root.expandedBytes;
    for i := 0 to |nodes|
      invariant PrefixOk(nodes, i, root, bytes, identities)
    {
      var node := nodes[i];
      var identity := node.Identity();
      assert Identities(nodes)[i] == identity;
      if identity == root.Identity() {
        return Conflict(ReachesRoot);
      }
      if identity in identities {
        SeenBefore(nodes, i, root, bytes, identities);
      }
      if identity in identities && identities[identity] != node.versionId {
        return Conflict(IncompatibleVersions);
      }
      if node.expandedBytes < 0 || node.expandedBytes > MAX_SAFE_INTEGER {
        return Conflict(InvalidSize);
      }
      PrefixStep(nodes, i, root, bytes, identities);
      identities := identities[identity := node.versionId];
      bytes := bytes + node.expandedBytes;
    }
    assert Identities(nodes)[..|nodes|] == Identities(nodes) && Sizes(nodes)[..|nodes|] == Sizes(nodes);
    v := if bytes > limits.expandedBytes then Conflict(ByteLimit) else Accepted;
  }

  // ---- What the path search knows --------------------------------------------

  /** The recorded heights are the lengths of longest paths. */
  ghost predicate Heights(edges: seq<Edge>, memo: map<string, nat>) {
    forall p {:trigger IsHeight(edges, p, memo[p])} :: p in memo ==> IsHeight(edges, p, memo[p])
  }

  ghost predicate IsHeight(edges: seq<Edge>, p: string, h: nat) {
    HasWalk(edges, p, h) && !HasWalk(edges, p, h + 1)
  }

  /** Every explored parent is well formed and all it leads to is explored. */
  ghost predicate Explored(sv: Semver, lock: Lock, limits: Limits, memo: map<string, nat>, reached: set<string>) {
    && (forall p {:trigger FanOutOk(lock.edges, p, limits.fanOut)} :: p in memo ==>
      FanOutOk(lock.edges, p, limits.fanOut))
    && (forall e :: e in lock.edges && e.parent in memo ==>
      EdgeOk(sv, lock.nodes, e) && e.child in memo && e.child in reached)
  }

  ghost predicate NodesMatch(lock: Lock, nodes: map<string, Node>) {
    nodes.Keys == Elements(Ids(lock.nodes)) && NoDup(Ids(lock.nodes)) &&
    forall id :: id in nodes ==> nodes[id] in lock.nodes && nodes[id].versionId == id
  }

  ghost predicate ReachedSound(lock: Lock, nodes: map<string, Node>, reached: set<string>) {
    reached <= nodes.Keys &&
    forall c {:trigger Reaches(lock.edges, ROOT, c)} :: c in reached ==> Reaches(lock.edges, ROOT, c)
  }

  /** Edges of the parent under exploration whose subtree is done. */
  ghost predicate Done(sv: Semver, lock: Lock, memo: map<string, nat>, reached: set<string>, e: Edge, result: nat) {
    EdgeOk(sv, lock.nodes, e) && e.child in memo && e.child in reached && memo[e.child] < result
  }

  /** The first i edges of out are done and result is one more than their greatest height. */
  ghost predicate Progress(sv: Semver, lock: Lock, memo: map<string, nat>, reached: set<string>,
                           out: seq<Edge>, i: nat, result: nat)
    requires i <= |out|
  {
    && (forall j {:trigger Done(sv, lock, memo, reached, out[j], result)} ::
         0 <= j < i ==> Done(sv, lock, memo, reached, out[j], result))
    && (result == 0 || exists j {:trigger Tallest(memo, out[j], result)} :: 0 <= j < i && Tallest(memo, out[j], result))
  }

  ghost predicate Tallest(memo: map<string, nat>, e: Edge, result: nat) {
    e.child in memo && memo[e.child] + 1 == result
  }

  ghost predicate Extends(memo: map<string, nat>, reached: set<string>, memo': map<string, nat>,
      reached': set<string>) {
    memo.Keys <= memo'.Keys && (forall p :: p in memo ==> memo'[p] == memo[p]) && reached <= reached'
  }

  lemma Advance(sv: Semver, lock: Lock, memo: map<string, nat>, reached: set<string>,
                memo': map<string, nat>, reached': set<string>, memo0: map<string, nat>, reached0: set<string>,
                out: seq<Edge>, i: nat, result: nat, below: nat)
    requires Extends(memo0, reached0, memo, reached)
    requires i < |out| && Progress(sv, lock, memo, reached, out, i, result)
    requires Extends(memo, reached, memo', reached')
    requires EdgeOk(sv, lock.nodes, out[i]) && out[i].child in reached'
    requires out[i].child in memo' && memo'[out[i].child] == below
    ensures Progress(sv, lock, memo', reached', out, i + 1, if result < 1 + below then 1 + below else result)
    ensures Extends(memo0, reached0, memo', reached')
  {
    var result' := if result < 1 + below then 1 + below else result;
    forall j | 0 <= j < i + 1 ensures Done(sv, lock, memo', reached', out[j], result') {
      if j < i {
        assert Done(sv, lock, memo, reached, out[j], result);
      }
    }
    if result' == result && result != 0 {
      var j :| 0 <= j < i && Tallest(memo, out[j], result);
      assert Tallest(memo', out[j], result');
    } else {
      assert Tallest(memo', out[i], result');
    }
  }

  /** Every active parent is a proper ancestor of p. */
  ghost predicate Above(edges: seq<Edge>, active: set<string>, p: string) {
    forall a {:trigger Below(edges, a, p)} :: a in active ==> Below(edges, a, p)
  }

  lemma BadPin(sv: Semver, lock: Lock, limits: Limits, nodes: map<string, Node>, edge: Edge)
    requires NodesMatch(lock, nodes) && edge in lock.edges
    requires edge.child !in nodes || !Pins(sv, edge, nodes[edge.child])
    ensures !EdgesOk(sv, lock, limits)
  {
    if EdgeOk(sv, lock.nodes, edge) {
      var n :| n in lock.nodes && Pins(sv, edge, n);
      InIds(lock.nodes, n);
      SameId(lock.nodes, n, nodes[edge.child]);
    }
  }

  lemma HeightUpper(edges: seq<Edge>, e: Edge, h: nat, n: nat)
    requires IsHeight(edges, e.child, h) && h < n
    ensures !HasWalk(edges, e.child, n)
  {
    if HasWalk(edges, e.child, n) {
      MuchShorterWalk(edges, e.child, h + 1, n);
    }
  }

  /** The height of a parent from the heights of its children. */
  lemma HeightOf(edges: seq<Edge>, memo: map<string, nat>, parent: string, result: nat)
    requires Heights(edges, memo)
    requires forall e :: e in edges && e.parent == parent ==> e.child in memo && memo[e.child] < result
    requires result == 0 ||
      exists e :: e in edges && e.parent == parent && e.child in memo && memo[e.child] + 1 == result
    ensures IsHeight(edges, parent, result)
  {
    if result > 0 {
      var e :| e in edges && e.parent == parent && e.child in memo && memo[e.child] + 1 == result;
      assert IsHeight(edges, e.child, memo[e.child]);
    }
    if HasWalk(edges, parent, result + 1) {
      var e :| e in edges && e.parent == parent && HasWalk(edges, e.child, result);
      assert IsHeight(edges, e.child, memo[e.child]);
      HeightUpper(edges, e, memo[e.child], result);
    }
  }

  lemma AllDone(sv: Semver, lock: Lock, memo: map<string, nat>, reached: set<string>, parent: string, result: nat)
    requires var out := Out(lock.edges, parent); Progress(sv, lock, memo, reached, out, |out|, result)
    ensures forall e :: e in lock.edges && e.parent == parent ==> Done(sv, lock, memo, reached, e, result)
    ensures result == 0 ||
      exists e :: e in lock.edges && e.parent == parent && e.child in memo && memo[e.child] + 1 == result
  {
    var out := Out(lock.edges, parent);
    forall e | e in lock.edges && e.parent == parent
      ensures Done(sv, lock, memo, reached, e, result)
    {
      assert e in out;
      var j :| 0 <= j < |out| && out[j] == e;
      assert Done(sv, lock, memo, reached, out[j], result);
    }
    if result > 0 {
      var j :| 0 <= j < |out| && Tallest(memo, out[j], result);
      assert out[j] in out;
    }
  }

  /** Recording a parent once all its edges are done. */
  lemma Record(sv: Semver, lock: Lock, limits: Limits, memo: map<string, nat>, reached: set<string>,
               parent: string, result: nat)
    requires Heights(lock.edges, memo) && Explored(sv, lock, limits, memo, reached)
    requires FanOutOk(lock.edges, parent, limits.fanOut) && parent !in memo
    requires var out := Out(lock.edges, parent); Progress(sv, lock, memo, reached, out, |out|, result)
    ensures Heights(lock.edges, memo[parent := result])
    ensures Explored(sv, lock, limits, memo[parent := result], reached)
  {
    AllDone(sv, lock, memo, reached, parent, result);
    HeightOf(lock.edges, memo, parent, result);
  }

  /** Following an edge keeps the active parents above the new one. */
  lemma Descend(edges: seq<Edge>, edge: Edge, active: set<string>)
    requires edge in edges && Reaches(edges, ROOT, edge.parent)
    requires Above(edges, active, edge.parent)
    ensures Reaches(edges, ROOT, edge.child)
    ensures Above(edges, active + {edge.parent}, edge.child)
  {
    EdgeBelow(edges, edge);
    ReachesBelow(edges, ROOT, edge.parent, edge.child);
    forall a | a in active ensures Below(edges, a, edge.child) {
      assert Below(edges, a, edge.parent);
      BelowTransitive(edges, a, edge.parent, edge.child);
    }
  }

  /** new Set(keys).size !== edges.length, and the bound on the number of edges. */
  method FanOutConflict(out: seq<Edge>, fanOut: nat) returns (bad: bool)
    ensures bad <==> |out| > fanOut || !NoDup(Aliases(out)) || !NoDup(Ordinals(out))
  {
    DistinctCount(Aliases(out));
    DistinctCount(Ordinals(out));
    bad := |out| > fanOut || |Elements(Aliases(out))| != |out| || |Elements(Ordinals(out))| != |out|;
  }

  /** The edges of p have been listed just when p is explored or being explored. */
  ghost predicate Listed(expansions: multiset<string>, memo: map<string, nat>, active: set<string>, p: string) {
    expansions[p] == if p in memo || p in active then 1 else 0
  }

  ghost predicate Single(expansions: multiset<string>, p: string) { expansions[p] <= 1 }

  /** The state that the inner function height shares between its calls. */
  class PathCheck {
    const sv: Semver
    const lock: Lock
    const limits: Limits
    const nodes: map<string, Node>
    /** The longest path below every parent already explored. */
    var memo: map<string, nat>
    /** Every child an explored edge has led to. */
    var reached: set<string>
    /** How often the edges of each parent were listed. */
    ghost var expansions: multiset<string>

    constructor (sv: Semver, lock: Lock, limits: Limits, nodes: map<string, Node>)
      ensures this.sv == sv && this.lock == lock && this.limits == limits && this.nodes == nodes
      ensures memo == map[] && reached == {} && expansions == multiset{}
    {
      this.sv, this.lock, this.limits, this.nodes := sv, lock, limits, nodes;
      memo, reached, expansions := map[], {}, multiset{};
    }

    ghost predicate Valid(active: set<string>)
      reads this
    {
      && NodesMatch(lock, nodes)
      && Heights(lock.edges, memo) && Explored(sv, lock, limits, memo, reached)
      && memo.Keys !! active
      && (forall p {:trigger Listed(expansions, memo, active, p)} :: Listed(expansions, memo, active, p))
      && ReachedSound(lock, nodes, reached)
    }

    /** No parent's edges were listed twice. */
    ghost predicate Once()
      reads this
    {
      forall p {:trigger Single(expansions, p)} :: Single(expansions, p)
    }

    lemma ValidOnce(active: set<string>)
      requires Valid(active)
      ensures Once()
    {
      forall p ensures Single(expansions, p) {
        assert Listed(expansions, memo, active, p);
      }
    }

    ghost predicate GraphOk() { EdgesOk(sv, lock, limits) && Acyclic(lock.edges) }

    /** memo gains nothing yet, but the parent's edges are listed once and for all. */
    method Enter(parent: string, active: set<string>)
      requires Valid(active) && parent !in active && parent !in memo
      modifies this`expansions
      ensures Valid(active + {parent})
    {
      ghost var before := expansions;
      expansions := expansions + multiset{parent};
      forall p ensures Listed(expansions, memo, active + {parent}, p) {
        assert Listed(before, memo, active, p);
      }
    }

    method Reach(child: string, active: set<string>)
      requires Valid(active) && child in nodes && Reaches(lock.edges, ROOT, child)
      modifies this`reached
      ensures Valid(active) && reached == old(reached) + {child}
    {
      reached := reached + {child};
    }

    method Leave(parent: string, active: set<string>, result: nat)
      requires Valid(active + {parent}) && parent !in active
      requires FanOutOk(lock.edges, parent, limits.fanOut)
      requires var out := Out(lock.edges, parent); Progress(sv, lock, memo, reached, out, |out|, result)
      modifies this`memo
      ensures Valid(active) && parent in memo && memo[parent] == result
      ensures Extends(old(memo), reached, memo, reached)
    {
      Record(sv, lock, limits, memo, reached, parent, result);
      ghost var before := memo;
      memo := memo[parent := result];
      forall p ensures Listed(expansions, memo, active, p) {
        assert Listed(expansions, before, active + {parent}, p);
      }
    }

    /** One turn of height's loop: check the pin, then measure the child. */
    method Follow(edge: Edge, active: set<string>, ghost rest: set<string>) returns (r: Option<nat>)
      requires nodes.Keys <= rest + active
      requires edge in lock.edges && Valid(active) && Reaches(lock.edges, ROOT, edge.parent)
      requires Above(lock.edges, active - {edge.parent}, edge.parent)
      modifies this
      ensures r.Some? ==> Valid(active) && EdgeOk(sv, lock.nodes, edge)
      ensures r.Some? ==> edge.child in reached && edge.child in memo && memo[edge.child] == r.value
      ensures r.Some? ==> Extends(old(memo), old(reached), memo, reached)
      ensures r.None? ==> !GraphOk()
      ensures Once()
      decreases rest, 2
    {
      if edge.child !in nodes || !Pins(sv, edge, nodes[edge.child]) {
        BadPin(sv, lock, limits, nodes, edge);
        ValidOnce(active);
        return None;
      }
      Descend(lock.edges, edge, active - {edge.parent});
      Reach(edge.child, active);
      r := Height(edge.child, active, rest);
    }

    /** height's loop over the edges of a parent. */
    method FollowAll(parent: string, active: set<string>, ghost rest: set<string>) returns (r: Option<nat>)
      requires nodes.Keys <= rest + active
      requires Valid(active) && Reaches(lock.edges, ROOT, parent) && Above(lock.edges, active - {parent}, parent)
      modifies this
      ensures r.Some? ==> Valid(active) && Extends(old(memo), old(reached), memo, reached)
      ensures r.Some? ==> var out := Out(lock.edges, parent); Progress(sv, lock, memo, reached, out, |out|, r.value)
      ensures r.None? ==> !GraphOk()
      ensures Once()
      decreases rest, 3
    {
      ghost var memo0, reached0 := memo, reached;
      var out := Out(lock.edges, parent);
      assert forall j :: 0 <= j < |out| ==> out[j] in lock.edges && out[j].parent == parent;
      var result := 0;
      var i := 0;
      while i < |out|
        invariant 0 <= i <= |out|
        invariant Valid(active) && Extends(memo0, reached0, memo, reached)
        invariant Progress(sv, lock, memo, reached, out, i, result)
      {
        ghost var memo1, reached1 := memo, reached;
        var below := Follow(out[i], active, rest);
        if below.None? {
          return None;
        }
        Advance(sv, lock, memo1, reached1, memo, reached, memo0, reached0, out, i, result, below.value);
        result := if result < 1 + below.value then 1 + below.value else result;
        i := i + 1;
      }
      ValidOnce(active);
      r := Some(result);
    }

    /** What height does for a parent met for the first time. */
    method Expand(parent: string, active: set<string>, ghost rest: set<string>) returns (r: Option<nat>)
      requires nodes.Keys <= rest + active && parent in rest && parent !in active && parent !in memo
      requires Valid(active) && Reaches(lock.edges, ROOT, parent) && Above(lock.edges, active, parent)
      requires FanOutOk(lock.edges, parent, limits.fanOut)
      modifies this
      ensures r.Some? ==> Valid(active) && parent in memo && memo[parent] == r.value
      ensures r.Some? ==> Extends(old(memo), old(reached), memo, reached)
      ensures r.None? ==> !GraphOk()
      ensures Once()
      decreases rest, 0
    {
      Enter(parent, active);
      assert active + {parent} - {parent} == active;
      r := FollowAll(parent, active + {parent}, rest - {parent});
      if r.Some? {
        ghost var memo2 := memo;
        Leave(parent, active, r.value);
        ValidOnce(active);
      }
    }

    /** height(parent, active): the length of the longest path below parent, or a conflict. */
    method Height(parent: string, active: set<string>, ghost rest: set<string>) returns (r: Option<nat>)
      requires nodes.Keys <= rest + active && parent in rest + active
      requires Valid(active) && Reaches(lock.edges, ROOT, parent) && Above(lock.edges, active, parent)
      modifies this
      ensures r.Some? ==> Valid(active) && parent in memo && memo[parent] == r.value
      ensures r.Some? ==> Extends(old(memo), old(reached), memo, reached)
      ensures r.None? ==> !GraphOk()
      ensures Once()
      decreases rest, 1
    {
      ValidOnce(active);
      if parent in active {
        assert Below(lock.edges, parent, parent);
        return None;
      }
      if parent in memo {
        return Some(memo[parent]);
      }
      var bad := FanOutConflict(Out(lock.edges, parent), limits.fanOut);
      if bad {
        assert !FanOutOk(lock.edges, parent, limits.fanOut);
        return None;
      }
      r := Expand(parent, active, rest);
    }
  }

  /** Everything that paths from an explored parent lead to is explored. */
  lemma {:induction false} AllSettled(sv: Semver, lock: Lock, limits: Limits, memo: map<string, nat>,
                                      reached: set<string>, a: string, b: string, n: nat)
    requires Explored(sv, lock, limits, memo, reached) && a in memo && Walk(lock.edges, a, b, n)
    ensures b in memo && (0 < n ==> b in reached)
    decreases n
  {
    if n > 0 {
      var e :| e in lock.edges && e.parent == a && Walk(lock.edges, e.child, b, n - 1);
      AllSettled(sv, lock, limits, memo, reached, e.child, b, n - 1);
    }
  }

  /** Going round a cycle gives paths of every length. */
  lemma {:induction false} CycleWalks(edges: seq<Edge>, v: string, n: nat, k: nat)
    requires 0 < n && Walk(edges, v, v, n)
    ensures HasWalk(edges, v, k)
    decreases k
  {
    if k <= n {
      WalkIsWalk(edges, v, v, n);
      MuchShorterWalk(edges, v, k, n);
    } else {
      CycleWalks(edges, v, n, k - n);
      WalkThen(edges, v, v, n, k - n);
    }
  }

  lemma {:induction false} WalkThen(edges: seq<Edge>, a: string, b: string, n: nat, k: nat)
    requires Walk(edges, a, b, n) && HasWalk(edges, b, k)
    ensures HasWalk(edges, a, n + k)
    decreases n
  {
    if n > 0 {
      var e :| e in edges && e.parent == a && Walk(edges, e.child, b, n - 1);
      WalkThen(edges, e.child, b, n - 1, k);
    }
  }

  /** Finite heights everywhere below the root leave no room for a cycle. */
  lemma SettledAcyclic(sv: Semver, lock: Lock, limits: Limits, memo: map<string, nat>, reached: set<string>)
    requires Heights(lock.edges, memo) && Explored(sv, lock, limits, memo, reached) && ROOT in memo
    ensures Acyclic(lock.edges)
  {
    forall v | Reaches(lock.edges, ROOT, v) ensures !Below(lock.edges, v, v) {
      var m: nat :| Walk(lock.edges, ROOT, v, m);
      AllSettled(sv, lock, limits, memo, reached, ROOT, v, m);
      if Below(lock.edges, v, v) {
        var n: nat :| 0 < n && Walk(lock.edges, v, v, n);
        assert IsHeight(lock.edges, v, memo[v]);
        CycleWalks(lock.edges, v, n, memo[v] + 1);
      }
    }
  }

  lemma NoOut(edges: seq<Edge>, p: string)
    requires forall e :: e in edges ==> e.parent != p
    ensures Out(edges, p) == []
  {
  }

  /** Once every node is reached, what was checked below the root holds of every edge. */
  lemma SettledEdges(sv: Semver, lock: Lock, limits: Limits, memo: map<string, nat>, reached: set<string>)
    requires Explored(sv, lock, limits, memo, reached) && ROOT in memo
    requires forall id :: id in Ids(lock.nodes) ==> id in memo
    requires forall e :: e in lock.edges ==> e.parent == ROOT || e.parent in Ids(lock.nodes)
    ensures EdgesOk(sv, lock, limits)
  {
    forall p ensures FanOutOk(lock.edges, p, limits.fanOut) {
      if p != ROOT && p !in Ids(lock.nodes) {
        NoOut(lock.edges, p);
      }
    }
  }

  /** Every node is reached exactly when the search has reached them all. */
  lemma ReachedAll(sv: Semver, lock: Lock, limits: Limits, memo: map<string, nat>, reached: set<string>)
    requires Explored(sv, lock, limits, memo, reached) && ROOT in memo && ROOT !in Ids(lock.nodes)
    requires forall c :: c in reached ==> c in Ids(lock.nodes) && Reaches(lock.edges, ROOT, c)
    ensures AllReached(lock) <==> reached == Elements(Ids(lock.nodes))
    ensures AllReached(lock) ==> forall id :: id in Ids(lock.nodes) ==> id in memo
  {
    if AllReached(lock) {
      forall id | id in Ids(lock.nodes) ensures id in reached && id in memo {
        var n: nat :| Walk(lock.edges, ROOT, id, n);
        AllSettled(sv, lock, limits, memo, reached, ROOT, id, n);
      }
    }
  }

  lemma SubsetSize<T>(a: set<T>, b: set<T>)
    requires a <= b
    ensures |a| == |b| <==> a == b
    ensures |a| <= |b|
  {
    assert b == a + (b - a);
  }

  /** validateLock(lock, root, limits): accepts exactly the valid locks. */
  method ValidateLock(sv: Semver, lock: Lock, root: Root, limits: Limits) returns (v: Verdict)
    ensures v.Accepted? <==> ValidLock(sv, lock, root, limits)
  {
    if !Shape(sv, lock) {
      return Conflict(InvalidPersistedLock);
    }
    if lock.formatVersion != 1 || |lock.nodes| > limits.nodes {
      return Conflict(NodeLimit);
    }
    var nodes := NodeMap(lock.nodes);
    DistinctCount(Ids(lock.nodes));
    if |nodes.Keys| != |lock.nodes| || ROOT in nodes {
      return Conflict(DuplicateNode);
    }
    v := CheckNodes(lock.nodes, root, limits);
    if v.Conflict? {
      return;
    }
    v := CheckPaths(sv, lock, limits, nodes);
  }

  ghost predicate PathsOk(sv: Semver, lock: Lock, limits: Limits) {
    EdgesOk(sv, lock, limits) && Acyclic(lock.edges) && !HasWalk(lock.edges, ROOT, limits.depth + 1) && AllReached(lock)
  }

  lemma DepthDecides(edges: seq<Edge>, height: nat, depth: nat)
    requires IsHeight(edges, ROOT, height)
    ensures height > depth <==> HasWalk(edges, ROOT, depth + 1)
  {
    if height > depth {
      MuchShorterWalk(edges, ROOT, depth + 1, height);
    } else if HasWalk(edges, ROOT, depth + 1) {
      MuchShorterWalk(edges, ROOT, height + 1, depth + 1);
    }
  }

  /** What the checks after the search decide. */
  lemma Decide(sv: Semver, lock: Lock, limits: Limits, memo: map<string, nat>, reached: set<string>)
    requires Heights(lock.edges, memo) && Explored(sv, lock, limits, memo, reached) && ROOT in memo
    requires ROOT !in Ids(lock.nodes)
    requires forall c :: c in reached ==> c in Ids(lock.nodes) && Reaches(lock.edges, ROOT, c)
    ensures PathsOk(sv, lock, limits) <==>
      (&& memo[ROOT] <= limits.depth
       && |reached| == |Elements(Ids(lock.nodes))|
       && forall e :: e in lock.edges ==> e.parent == ROOT || e.parent in Ids(lock.nodes))
  {
    assert IsHeight(lock.edges, ROOT, memo[ROOT]);
    DepthDecides(lock.edges, memo[ROOT], limits.depth);
    ReachedAll(sv, lock, limits, memo, reached);
    SubsetSize(reached, Elements(Ids(lock.nodes)));
    if AllReached(lock) && forall e :: e in lock.edges ==> e.parent == ROOT || e.parent in Ids(lock.nodes) {
      SettledAcyclic(sv, lock, limits, memo, reached);
      SettledEdges(sv, lock, limits, memo, reached);
    }
  }

  /** The part of validateLock that follows the edges from the root. */
  method CheckPaths(sv: Semver, lock: Lock, limits: Limits, nodes: map<string, Node>) returns (v: Verdict)
    requires NodesMatch(lock, nodes) && ROOT !in nodes
    ensures v.Accepted? <==> PathsOk(sv, lock, limits)
  {
    var check := new PathCheck(sv, lock, limits, nodes);
    ReachesSelf(lock.edges, ROOT);
    var depth := check.Height(ROOT, {}, {ROOT} + nodes.Keys);
    if depth.None? {
      return Conflict(Cycle);
    }
    Decide(sv, lock, limits, check.memo, check.reached);
    if depth.value > limits.depth {
      return Conflict(DepthLimit);
    }
    if |check.reached| != |nodes.Keys| || exists e :: e in lock.edges && e.parent != ROOT && e.parent !in nodes {
      return Conflict(Unreachable);
    }
    v := Accepted;
  }
}
