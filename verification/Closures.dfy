/** CompositionService.resolve: one walk over a lock that computes the execution closure
    and the verification closure. */
module Closures {
  import opened Sequences
  import opened Locks
  import NodeOrder

  datatype Purpose = Execute | Verify

  predicate ForExecution(e: Edge) { !e.dep.scope.Verification? }

  /** The edges that are not for verification alone. */
  function ExecutionEdges(edges: seq<Edge>): (r: seq<Edge>)
    ensures forall e :: e in r <==> e in edges && e.dep.scope != Verification
  {
    FilterMembers(edges, ForExecution);
    Filter(edges, ForExecution)
  }

  /** The name under which an id appears as a parent among the edges. */
  function ParentName(root: string, id: string): string { if id == root then ROOT else id }

  /** Set.add: a set lists its values in the order of their first insertion. */
  function Added(ids: seq<string>, id: string): seq<string> { if id in ids then ids else ids + [id] }

  // ---- What is to be computed --------------------------------------------------------

  /** The root itself, or something that the edges lead to from it. */
  ghost predicate Required(edges: seq<Edge>, root: string, id: string) {
    id == root || Below(edges, ROOT, id)
  }

  /** ids lists exactly what is required, once each. */
  ghost predicate IsClosure(edges: seq<Edge>, root: string, ids: seq<string>) {
    NoDup(ids) && forall id :: id in ids <==> Required(edges, root, id)
  }

  /** Every id is listed after everything its edges lead to. */
  ghost predicate DependenciesFirst(edges: seq<Edge>, root: string, ids: seq<string>) {
    forall i, e :: 0 <= i < |ids| && e in edges && e.parent == ParentName(root, ids[i]) ==> e.child in ids[..i]
  }

  // ---- A plain walk in one mode, which the two-mode walk refines twice -----------------

  /** The ids with id appended after everything that its edges lead to, in the order of the
      edges; height bounds the length of the paths. */
  ghost function Listed(edges: seq<Edge>, root: string, id: string, ids: seq<string>, height: nat): seq<string>
    decreases height, 0, 0
  {
    if id in ids then ids
    else
      var out := Out(edges, ParentName(root, id));
      var below := if height == 0 then ids else ListedAll(edges, root, out, ids, height - 1);
      if id in below then below else below + [id]
  }

  ghost function ListedAll(edges: seq<Edge>, root: string, todo: seq<Edge>, ids: seq<string>, height: nat): seq<string>
    decreases height, 1, |todo|
  {
    if todo == [] then ids
    else ListedAll(edges, root, todo[1..], Listed(edges, root, todo[0].child, ids, height), height)
  }

  /** Nothing is added when every child is there. */
  lemma {:induction false} NothingToList(edges: seq<Edge>, root: string, todo: seq<Edge>, ids: seq<string>, height: nat)
    requires forall e :: e in todo ==> e.child in ids
    ensures ListedAll(edges, root, todo, ids, height) == ids
    decreases |todo|
  {
    if todo != [] {
      assert todo[0] in todo;
      NothingToList(edges, root, todo[1..], ids, height);
    }
  }

  datatype Lists = Lists(execution: seq<string>, verification: seq<string>)

  /** Two plain walks: one over all edges, and in execution mode one over the execution edges. */
  ghost function AfterOne(edges: seq<Edge>, root: string, id: string, execution: bool, l: Lists, height: nat): Lists {
    Lists(if execution then Listed(ExecutionEdges(edges), root, id, l.execution, height) else l.execution,
          Listed(edges, root, id, l.verification, height))
  }

  ghost function AfterAll(edges: seq<Edge>, root: string, todo: seq<Edge>, execution: bool, l: Lists,
      height: nat): Lists
  {
    Lists(if execution then ListedAll(ExecutionEdges(edges), root, Filter(todo, ForExecution), l.execution, height)
          else l.execution,
          ListedAll(edges, root, todo, l.verification, height))
  }

  lemma AfterStep(edges: seq<Edge>, root: string, todo: seq<Edge>, execution: bool, l: Lists, height: nat)
    requires todo != []
    ensures AfterAll(edges, root, todo, execution, l, height) ==
      AfterAll(edges, root, todo[1..], execution,
        AfterOne(edges, root, todo[0].child, execution && ForExecution(todo[0]), l, height), height)
  {
    if ForExecution(todo[0]) {
      assert Filter(todo, ForExecution)[1..] == Filter(todo[1..], ForExecution);
    }
  }

  /** The first i edges have been followed. */
  ghost predicate Onward(edges: seq<Edge>, root: string, out: seq<Edge>, i: nat, execution: bool, start: Lists,
      now: Lists, height: nat)
    requires i <= |out|
  {
    if height == 0 then i == 0 && now == start
    else
      AfterAll(edges, root, out[i..], execution, now, height - 1) ==
      AfterAll(edges, root, out, execution, start, height - 1)
  }

  lemma OnwardStep(edges: seq<Edge>, root: string, out: seq<Edge>, i: nat, execution: bool, start: Lists, now: Lists,
      height: nat)
    requires i < |out| && 0 < height && Onward(edges, root, out, i, execution, start, now, height)
    ensures Onward(edges, root, out, i + 1, execution, start,
      AfterOne(edges, root, out[i].child, execution && ForExecution(out[i]), now, height - 1), height)
  {
    AfterStep(edges, root, out[i..], execution, now, height - 1);
    assert out[i..][1..] == out[i + 1..];
  }

  /** All edges of id have been followed. */
  ghost predicate Followed(edges: seq<Edge>, root: string, id: string, execution: bool, start: Lists, now: Lists,
      height: nat)
  {
    now == if height == 0 then start
      else AfterAll(edges, root, Out(edges, ParentName(root, id)), execution, start, height - 1)
  }

  ghost predicate Grown(l: Lists, now: Lists) { l.execution <= now.execution && l.verification <= now.verification }

  /** The id is listed, in execution mode in both lists. */
  ghost predicate Covered(l: Lists, id: string, execution: bool) {
    id in l.verification && (execution ==> id in l.execution)
  }

  ghost predicate AllCovered(edges: seq<Edge>, parent: string, execution: bool, l: Lists) {
    forall e :: e in edges && e.parent == parent ==> Covered(l, e.child, execution && ForExecution(e))
  }

  /** The loop over the edges of id has followed the first i. */
  ghost predicate Turned(edges: seq<Edge>, root: string, id: string, i: nat, execution: bool, start: Lists, now: Lists,
      height: nat)
    requires i <= |Out(edges, ParentName(root, id))|
  {
    var out := Out(edges, ParentName(root, id));
    && Grown(start, now) && (forall j :: 0 <= j < i ==> Covered(now, out[j].child, execution && ForExecution(out[j])))
    && Onward(edges, root, out, i, execution, start, now, height)
  }

  lemma TurnedStarts(edges: seq<Edge>, root: string, id: string, execution: bool, start: Lists, height: nat)
    ensures Turned(edges, root, id, 0, execution, start, start, height)
  {
    assert Out(edges, ParentName(root, id))[0..] == Out(edges, ParentName(root, id));
  }

  lemma TurnedStep(edges: seq<Edge>, root: string, id: string, i: nat, execution: bool, start: Lists, now: Lists,
      next: Lists, height: nat)
    requires i < |Out(edges, ParentName(root, id))| && 0 < height && Grown(now, next)
    requires Turned(edges, root, id, i, execution, start, now, height)
    requires var e := Out(edges, ParentName(root, id))[i]; var mode := execution && ForExecution(e);
      Covered(next, e.child, mode) && next == AfterOne(edges, root, e.child, mode, now, height - 1)
    ensures Turned(edges, root, id, i + 1, execution, start, next, height)
  {
    OnwardStep(edges, root, Out(edges, ParentName(root, id)), i, execution, start, now, height);
  }

  lemma TurnedDone(edges: seq<Edge>, root: string, id: string, execution: bool, start: Lists, now: Lists, height: nat)
    requires Turned(edges, root, id, |Out(edges, ParentName(root, id))|, execution, start, now, height)
    ensures Grown(start, now) && AllCovered(edges, ParentName(root, id), execution, now)
    ensures Followed(edges, root, id, execution, start, now, height)
  {
    var out := Out(edges, ParentName(root, id));
    forall e | e in out ensures Covered(now, e.child, execution && ForExecution(e)) {
      var j :| 0 <= j < |out| && out[j] == e;
    }
    assert out[|out|..] == [];
  }

  /** One id in either mode, from what following its edges gives. */
  lemma AfterOneIs(edges: seq<Edge>, root: string, id: string, execution: bool, l: Lists, below: Lists, height: nat)
    requires DependenciesFirst(edges, root, l.verification)
    requires !(execution && id in l.execution) && !(!execution && id in l.verification)
    requires Followed(edges, root, id, execution, l, below, height)
    ensures AfterOne(edges, root, id, execution, l, height) ==
      Lists(if execution then Added(below.execution, id) else below.execution, Added(below.verification, id))
  {
    OutOfExecution(edges, ParentName(root, id));
    if id in l.verification { AlreadyListed(edges, root, l.verification, id, height); }
  }

  lemma AlreadyListed(edges: seq<Edge>, root: string, ids: seq<string>, id: string, height: nat)
    requires DependenciesFirst(edges, root, ids) && id in ids
    ensures 0 < height ==> ListedAll(edges, root, Out(edges, ParentName(root, id)), ids, height - 1) == ids
  {
    var i :| 0 <= i < |ids| && ids[i] == id;
    forall e | e in Out(edges, ParentName(root, id)) ensures e.child in ids { assert e.child in ids[..i]; }
    if 0 < height { NothingToList(edges, root, Out(edges, ParentName(root, id)), ids, height - 1); }
  }

  lemma {:induction false} OutOfExecution(edges: seq<Edge>, parent: string)
    ensures Out(ExecutionEdges(edges), parent) == Filter(Out(edges, parent), ForExecution)
  {
    if edges != [] {
      OutOfExecution(edges[1..], parent);
      assert ForExecution(edges[0]) ==> ([edges[0]] + ExecutionEdges(edges[1..]))[1..] == ExecutionEdges(edges[1..]);
    }
  }

  /** A list on its way to a closure. */
  ghost predicate Partial(edges: seq<Edge>, root: string, ids: seq<string>) {
    && NoDup(ids) && DependenciesFirst(edges, root, ids)
    && forall id {:trigger Required(edges, root, id)} :: id in ids ==> Required(edges, root, id)
  }

  lemma AddRequired(edges: seq<Edge>, root: string, ids: seq<string>, id: string)
    requires Partial(edges, root, ids) && Required(edges, root, id)
    requires forall e :: e in edges && e.parent == ParentName(root, id) ==> e.child in ids
    ensures Partial(edges, root, Added(ids, id)) && id in Added(ids, id) && ids <= Added(ids, id)
  {
    if id !in ids {
      var more := ids + [id];
      forall i, e | 0 <= i < |more| && e in edges &&
        e.parent == ParentName(root, more[i]) ensures e.child in more[..i] {
        if i < |ids| {
          assert more[..i] == ids[..i];
        } else {
          assert more[..i] == ids;
        }
      }
    }
  }

  lemma {:induction false} ClosedUnderWalks(edges: seq<Edge>, root: string, ids: seq<string>, a: string, b: string,
      n: nat)
    requires DependenciesFirst(edges, root, ids) && a in ids
    requires Walk(edges, ParentName(root, a), b, n) && 0 < n
    requires forall e :: e in edges ==> e.child != root
    ensures b in ids
    decreases n
  {
    var e :| e in edges && e.parent == ParentName(root, a) && Walk(edges, e.child, b, n - 1);
    var i :| 0 <= i < |ids| && ids[i] == a;
    assert e.child in ids[..i];
    if n > 1 {
      ClosedUnderWalks(edges, root, ids, e.child, b, n - 1);
    }
  }

  /** Once the root is listed, nothing required is missing. */
  lemma PartialIsClosure(edges: seq<Edge>, root: string, ids: seq<string>)
    requires Partial(edges, root, ids) && root in ids
    requires forall e :: e in edges ==> e.child != root
    ensures IsClosure(edges, root, ids)
  {
    forall id | Required(edges, root, id) ensures id in ids {
      if id != root {
        var n: nat :| 0 < n && Walk(edges, ROOT, id, n);
        ClosedUnderWalks(edges, root, ids, root, id, n);
      }
    }
  }

  lemma ChildRequired(edges: seq<Edge>, root: string, e: Edge, id: string)
    requires e in edges && e.parent == ParentName(root, id) && Required(edges, root, id)
    ensures Required(edges, root, e.child)
  {
    EdgeBelow(edges, e);
    if id != root {
      BelowTransitive(edges, ROOT, id, e.child);
    }
  }

  lemma ExecutionMembers(edges: seq<Edge>)
    ensures forall e :: e in ExecutionEdges(edges) <==> e in edges && ForExecution(e)
  {
    FilterMembers(edges, ForExecution);
  }

  /** What one edge asks for, in either mode, one level further down. */
  lemma NextLevel(edges: seq<Edge>, root: string, e: Edge, id: string, execution: bool, height: nat)
    requires e in edges && e.parent == ParentName(root, id) && e.child != root
    requires Required(edges, root, id) && (execution ==> Required(ExecutionEdges(edges), root, id))
    requires !HasWalk(edges, ParentName(root, id), height + 1)
    ensures 0 < height && !HasWalk(edges, ParentName(root, e.child), height - 1 + 1)
    ensures Required(edges, root, e.child)
    ensures execution && ForExecution(e) ==> Required(ExecutionEdges(edges), root, e.child)
  {
    ChildRequired(edges, root, e, id);
    ExecutionMembers(edges);
    if execution && ForExecution(e) {
      ChildRequired(ExecutionEdges(edges), root, e, id);
    }
  }

  // ---- The walk ------------------------------------------------------------------------

  class Closure {
    const edges: seq<Edge>
    const root: string
    var executionIds: seq<string>
    var verificationIds: seq<string>

    constructor (edges: seq<Edge>, root: string)
      ensures this.edges == edges && this.root == root && executionIds == [] && verificationIds == []
    {
      this.edges, this.root := edges, root;
      executionIds, verificationIds := [], [];
    }

    ghost predicate Valid()
      reads this
    {
      && Partial(ExecutionEdges(edges), root, executionIds) && Partial(edges, root, verificationIds)
      && (forall id :: id in executionIds ==> id in verificationIds)
    }

    ghost function Now(): Lists
      reads this
    {
      Lists(executionIds, verificationIds)
    }

    /** What visit(id, execution) may be called for. */
    ghost predicate Wanted(id: string, execution: bool) {
      Required(edges, root, id) && (execution ==> Required(ExecutionEdges(edges), root, id))
    }

    lemma ChildWanted(e: Edge, id: string, execution: bool, height: nat)
      requires e in Out(edges, ParentName(root, id)) && Wanted(id, execution)
      requires !HasWalk(edges, ParentName(root, id), height + 1) && forall f :: f in edges ==> f.child != root
      ensures 0 < height && Wanted(e.child, execution && ForExecution(e))
      ensures !HasWalk(edges, ParentName(root, e.child), height - 1 + 1)
    {
      NextLevel(edges, root, e, id, execution, height);
    }

    /** visit(id, execution); height bounds the length of the paths below id. */
    method Visit(id: string, execution: bool, ghost height: nat)
      requires Valid() && Wanted(id, execution) && !HasWalk(edges, ParentName(root, id), height + 1)
      requires forall e :: e in edges ==> e.child != root
      modifies this
      ensures Valid() && Grown(old(Now()), Now()) && Covered(Now(), id, execution)
      ensures Now() == AfterOne(edges, root, id, execution, old(Now()), height)
      decreases height, 1
    {
      if execution && id in executionIds {
        return;
      }
      if !execution && id in verificationIds {
        return;
      }
      ghost var before := Now();
      VisitChildren(id, execution, height);
      AfterOneIs(edges, root, id, execution, before, Now(), height);
      ghost var execution0, verification0 := executionIds, verificationIds;
      AddRequired(edges, root, verificationIds, id);
      verificationIds := Added(verificationIds, id);
      if execution {
        ExecutionMembers(edges);
        AddRequired(ExecutionEdges(edges), root, executionIds, id);
        executionIds := Added(executionIds, id);
      }
    }

    /** visit's loop over the edges of id. */
    method VisitChildren(id: string, execution: bool, ghost height: nat)
      requires Valid() && Wanted(id, execution) && !HasWalk(edges, ParentName(root, id), height + 1)
      requires forall e :: e in edges ==> e.child != root
      modifies this
      ensures Valid() && Grown(old(Now()), Now())
      ensures AllCovered(edges, ParentName(root, id), execution, Now())
      ensures Followed(edges, root, id, execution, old(Now()), Now(), height)
      decreases height, 0
    {
      var out := Out(edges, ParentName(root, id));
      ghost var start := Now();
      TurnedStarts(edges, root, id, execution, start, height);
      var i := 0;
      while i < |out|
        invariant 0 <= i <= |out| && Valid() && Turned(edges, root, id, i, execution, start, Now(), height)
      {
        ChildWanted(out[i], id, execution, height);
        ghost var now := Now();
        Visit(out[i].child, execution && ForExecution(out[i]), height - 1);
        TurnedStep(edges, root, id, i, execution, start, now, Now(), height);
        i := i + 1;
      }
      TurnedDone(edges, root, id, execution, start, Now(), height);
    }
  }

  // ---- The plan ------------------------------------------------------------------------

  datatype Plan = Plan(executionModules: seq<string>, invocations: seq<Edge>, verificationModules: seq<string>)

  predicate Invokes(root: string, executionIds: seq<string>, e: Edge) {
    e.dep.mode.Invoke? && ForExecution(e) && (if e.parent == ROOT then root else e.parent) in executionIds
  }

  function Invocations(root: string, executionIds: seq<string>, edges: seq<Edge>): seq<Edge> {
    Filter(edges, (e: Edge) => Invokes(root, executionIds, e))
  }

  /** Both ends of the edge, the root under its own id, are among ids. */
  ghost predicate BothEndsIn(root: string, ids: seq<string>, e: Edge) {
    (if e.parent == ROOT then root else e.parent) in ids && e.child in ids
  }

  /** resolve(versionId, purpose), for a version whose lock does not contain that version;
      verifies tells which versions have a verify entrypoint. */
  method Resolve(sv: Semver, lock: Lock, self: Root, limits: Limits, versionId: string, purpose: Purpose,
      verifies: string -> bool)
    returns (plan: Plan, ghost executionIds: seq<string>, ghost verificationIds: seq<string>)
    requires ValidLock(sv, lock, self, limits) && versionId !in Ids(lock.nodes)
    ensures executionIds == Listed(ExecutionEdges(lock.edges), versionId, versionId, [], limits.depth)
    ensures verificationIds == Listed(lock.edges, versionId, versionId, [], limits.depth)
    ensures IsClosure(ExecutionEdges(lock.edges), versionId, executionIds)
    ensures DependenciesFirst(ExecutionEdges(lock.edges), versionId, executionIds)
    ensures plan.executionModules == if purpose.Verify? then [] else executionIds
    ensures IsClosure(lock.edges, versionId, verificationIds)
    ensures DependenciesFirst(lock.edges, versionId, verificationIds)
    ensures forall id :: id in verificationIds <==> id == versionId || id in Ids(lock.nodes)
    ensures plan.verificationModules == Filter(verificationIds, verifies)
    ensures purpose.Verify? ==> plan.invocations == []
    ensures purpose.Execute? ==> plan.invocations == Invocations(versionId, executionIds, lock.edges)
    ensures purpose.Execute? ==> forall e :: e in plan.invocations <==>
      e in lock.edges && e.dep.mode == Invoke && e.dep.scope != Verification && BothEndsIn(versionId, executionIds, e)
  {
    ChildrenAreNodes(sv, lock, self, limits);
    var closure := new Closure(lock.edges, versionId);
    assert closure.Wanted(versionId, true);
    closure.Visit(versionId, true, limits.depth);
    ExecutionMembers(lock.edges);
    executionIds, verificationIds := closure.executionIds, closure.verificationIds;
    var ids := closure.executionIds;
    PartialIsClosure(ExecutionEdges(lock.edges), versionId, ids);
    PartialIsClosure(lock.edges, versionId, closure.verificationIds);
    EverythingVerified(lock, versionId, closure.verificationIds);
    InvocationEnds(lock.edges, versionId, ids);
    FilterMembers(lock.edges, (e: Edge) => Invokes(versionId, ids, e));
    plan := Plan(if purpose.Verify? then [] else ids,
                 if purpose.Verify? then [] else Invocations(versionId, ids, lock.edges),
                 Filter(closure.verificationIds, verifies));
  }

  lemma ChildrenAreNodes(sv: Semver, lock: Lock, self: Root, limits: Limits)
    requires ValidLock(sv, lock, self, limits)
    ensures forall e :: e in lock.edges ==> e.child in Ids(lock.nodes) && e.child != ROOT
  {
    NodeOrder.ValidIsClosed(sv, lock, self, limits);
  }

  /** Every node of the lock is in the verification closure. */
  lemma EverythingVerified(lock: Lock, root: string, ids: seq<string>)
    requires IsClosure(lock.edges, root, ids) && AllReached(lock) && ROOT !in Ids(lock.nodes)
    requires forall e :: e in lock.edges ==> e.child in Ids(lock.nodes)
    ensures forall id :: id in ids <==> id == root || id in Ids(lock.nodes)
  {
    forall id | id in Ids(lock.nodes) ensures id in ids {
      assert Required(lock.edges, root, id);
    }
    forall id | id in ids && id != root ensures id in Ids(lock.nodes) {
      assert Required(lock.edges, root, id);
      var n: nat :| 0 < n && Walk(lock.edges, ROOT, id, n);
      var e := LastEdge(lock.edges, ROOT, id, n);
    }
  }

  /** An execution edge out of the closure leads back into it. */
  lemma InvocationEnds(edges: seq<Edge>, root: string, ids: seq<string>)
    requires IsClosure(ExecutionEdges(edges), root, ids)
    requires forall e :: e in edges ==> e.parent == ROOT || e.parent != root
    ensures forall e :: e in edges && Invokes(root, ids, e) ==> BothEndsIn(root, ids, e)
  {
    ExecutionMembers(edges);
    forall e | e in edges && Invokes(root, ids, e) ensures BothEndsIn(root, ids, e) {
      var id := if e.parent == ROOT then root else e.parent;
      assert Required(ExecutionEdges(edges), root, id);
      ChildRequired(ExecutionEdges(edges), root, e, id);
      assert Required(ExecutionEdges(edges), root, e.child);
    }
  }
}
