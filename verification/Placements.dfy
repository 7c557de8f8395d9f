/** The placement table as a register whose epoch only moves forward. */
module Placements {
  import opened Sequences

  datatype State = Active | Moving | Tombstoned

  datatype Placement = Placement(namespace: string, regionId: string, epoch: int, state: State,
    movingTo: Option<string>, rest: string)
  {
    /** The table's CHECK constraints. */
    predicate Storable() { 0 < epoch && (state == Moving <==> movingTo.Some?) }
  }

  type Table = map<string, Placement>

  datatype Request =
    | PutIfAbsent(next: Placement)
    | CompareAndSet(namespace: string, expectedEpoch: int, expectedState: Option<State>, next: Placement)

  datatype Reply =
    | Written(placement: Placement) | Kept(placement: Placement)
    | NamespaceImmutable | EpochNonMonotonic | ConstraintViolated

  /** The row a request would replace, if its UPDATE matches. */
  predicate Matches(t: Table, q: Request)
    requires q.CompareAndSet?
  {
    q.namespace in t && t[q.namespace].epoch == q.expectedEpoch &&
    (q.expectedState.None? || t[q.namespace].state == q.expectedState.value)
  }

  function Answer(t: Table, q: Request): Reply {
    match q
    case PutIfAbsent(next) =>
      if !next.Storable() then ConstraintViolated
      else if next.namespace in t then Kept(t[next.namespace]) else Written(next)
    case CompareAndSet(namespace, expectedEpoch, _, next) =>
      if next.namespace != namespace then NamespaceImmutable
      else if next.epoch <= expectedEpoch then EpochNonMonotonic
      else if !Matches(t, q) then Kept(if namespace in t then t[namespace] else next)
      else if !next.Storable() then ConstraintViolated
      else Written(next)
  }

  function After(t: Table, q: Request): Table {
    if Answer(t, q).Written? then t[q.next.namespace := q.next] else t
  }

  function AfterAll(t: Table, requests: seq<Request>): Table
    decreases |requests|
  {
    if requests == [] then t else AfterAll(After(t, requests[0]), requests[1..])
  }

  /** Requests take effect one after the other. */
  lemma {:induction false} OneAfterTheOther(t: Table, requests: seq<Request>, q: Request)
    ensures AfterAll(t, requests + [q]) == After(AfterAll(t, requests), q)
    decreases |requests|
  {
    if requests == [] {
      assert [q][1..] == [] && AfterAll(After(t, q), []) == After(t, q);
    } else {
      OneAfterTheOther(After(t, requests[0]), requests[1..], q);
      assert (requests + [q])[1..] == requests[1..] + [q];
    }
  }

  predicate WellKept(t: Table) { forall k :: k in t ==> t[k].namespace == k && t[k].Storable() }

  /** How often a compare-and-set from this epoch succeeds for the namespace. */
  function Wins(t: Table, requests: seq<Request>, namespace: string, epoch: int): nat
    decreases |requests|
  {
    if requests == [] then 0
    else
      var q := requests[0];
      (if q.CompareAndSet? && q.namespace == namespace && q.expectedEpoch == epoch && Answer(t, q).Written? then 1
       else 0)
        + Wins(After(t, q), requests[1..], namespace, epoch)
  }

  /** Requests never remove a placement; one that changes it raises its epoch. */
  lemma {:induction false} EpochsOnlyGrow(t: Table, requests: seq<Request>, k: string)
    requires WellKept(t) && k in t
    ensures var t' := AfterAll(t, requests);
      WellKept(t') && k in t' && (t'[k] == t[k] || t[k].epoch < t'[k].epoch)
    decreases |requests|
  {
    if requests != [] {
      EpochsOnlyGrow(After(t, requests[0]), requests[1..], k);
    }
  }

  /** However requests interleave, at most one compare-and-set from an epoch succeeds. */
  lemma {:induction false} OneWinnerPerEpoch(t: Table, requests: seq<Request>, namespace: string, epoch: int)
    requires WellKept(t)
    ensures Wins(t, requests, namespace, epoch) <= 1
    ensures namespace in t && epoch < t[namespace].epoch ==> Wins(t, requests, namespace, epoch) == 0
    decreases |requests|
  {
    if requests != [] {
      OneWinnerPerEpoch(After(t, requests[0]), requests[1..], namespace, epoch);
    }
  }

  /** A winner's placement is in force until a later compare-and-set names its epoch. */
  lemma {:induction false} WinnerStays(t: Table, requests: seq<Request>, k: string)
    requires WellKept(t) && k in t && Wins(t, requests, k, t[k].epoch) == 0
    ensures k in AfterAll(t, requests) && AfterAll(t, requests)[k] == t[k]
    decreases |requests|
  {
    if requests != [] {
      WinnerStays(After(t, requests[0]), requests[1..], k);
    }
  }

  class PostgresPlacementDirectory {
    var table: Table

    method Put(next: Placement) returns (reply: Reply)
      requires WellKept(table)
      modifies this
      ensures reply == Answer(old(table), PutIfAbsent(next)) && table == After(old(table), PutIfAbsent(next))
      ensures WellKept(table)
      ensures reply == ConstraintViolated <==>
        !(0 < next.epoch && (next.state == Moving <==> next.movingTo != None))
      ensures reply != ConstraintViolated ==>
        && (next.namespace in old(table) ==> reply == Kept(old(table)[next.namespace]) && table == old(table))
        && (next.namespace !in old(table) ==> reply == Written(next) && table == old(table)[next.namespace := next])
    {
      if !next.Storable() { return ConstraintViolated; }
      if next.namespace !in table {
        table := table[next.namespace := next];
        return Written(next);
      }
      reply := Kept(table[next.namespace]);
    }

    method Replace(namespace: string, expectedEpoch: int, expectedState: Option<State>, next: Placement)
        returns (reply: Reply)
      requires WellKept(table)
      modifies this
      ensures var q := CompareAndSet(namespace, expectedEpoch, expectedState, next);
        reply == Answer(old(table), q) && table == After(old(table), q)
      ensures WellKept(table)
      ensures reply.Written? <==>
        next.namespace == namespace && expectedEpoch < next.epoch && namespace in old(table) &&
        old(table)[namespace].epoch == expectedEpoch &&
        (expectedState == None || old(table)[namespace].state == expectedState.value) &&
        0 < next.epoch && (next.state == Moving <==> next.movingTo != None)
      ensures reply.Written? ==> reply == Written(next) && table == old(table)[namespace := next]
      ensures !reply.Written? ==> table == old(table)
      ensures reply == NamespaceImmutable <==> next.namespace != namespace
      ensures reply == EpochNonMonotonic <==> next.namespace == namespace && next.epoch <= expectedEpoch
      ensures reply.Kept? ==> reply.placement == if namespace in table then table[namespace] else next
    {
      if next.namespace != namespace { return NamespaceImmutable; }
      if next.epoch <= expectedEpoch { return EpochNonMonotonic; }
      if namespace in table && table[namespace].epoch == expectedEpoch &&
         (expectedState.None? || expectedState.value == table[namespace].state) {
        if !next.Storable() { return ConstraintViolated; }
        table := table[namespace := next];
        return Written(next);
      }
      reply := Kept(if namespace in table then table[namespace] else next);
    }
  }
}
