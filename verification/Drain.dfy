/** One invocation of a drain worker, among any number of others. */
module Drain {
  import opened Sequences
  import opened Outbox
  import opened OutboxInvariant

  /** A row this worker has claimed and not yet settled. */
  datatype Claimed = Claimed(workspace: string, event: Event)

  /** What onEvent is told. */
  datatype Notice = Notice(workspace: string, event: Event, processed: bool)

  datatype Failure = LimitInvalid | LeaseInvalid | DurationInvalid
  datatype Outcome = Drained(processed: nat, failed: nat) | Rejected(failure: Failure)
  datatype Turn = Turn(workspace: string, action: Action)

  const BATCH := 25

  ghost function Tally(notices: seq<Notice>, processed: bool): nat
    decreases |notices|
  {
    if notices == [] then 0
    else Tally(notices[..|notices| - 1], processed) + (if notices[|notices| - 1].processed == processed then 1 else 0)
  }

  /** The workspaces with a failure. */
  ghost function FailedIn(notices: seq<Notice>): set<string> { set n | n in notices && !n.processed :: n.workspace }

  /** Of two notices of one workspace, the earlier is of a processed event with the smaller sequence. */
  ghost predicate InOrder(m: Notice, n: Notice) {
    m.workspace == n.workspace ==> m.processed && m.event.sequence < n.event.sequence
  }

  ghost predicate Orderly(notices: seq<Notice>) {
    forall i, j {:trigger InOrder(notices[i], notices[j])} :: 0 <= i < j < |notices| ==> InOrder(notices[i], notices[j])
  }

  // ---- How workspaces change over time ------------------------------------------------------

  /** History only grows, and no row is newly held with the token. */
  ghost predicate Elapsed(w: Workspace, w': Workspace, region: string, token: string) {
    && w.log <= w'.log && w.settled <= w'.settled && w.claimed <= w'.claimed && w.cleared <= w'.cleared &&
      w.applied <= w'.applied
    && forall id {:trigger Holds(CellOf(w', region), id, token)} ::
         Holds(CellOf(w', region), id, token) ==> Holds(CellOf(w, region), id, token)
  }

  ghost predicate AllElapsed(before: map<string, Workspace>, after: map<string, Workspace>, region: string,
      token: string) {
    before.Keys == after.Keys &&
    forall k {:trigger after[k]} :: k in after ==> Elapsed(before[k], after[k], region, token)
  }

  /** The rows held with the token are those held before, or those in the list. */
  ghost predicate HeldWithin(before: map<string, Workspace>, now: map<string, Workspace>, region: string,
      token: string, rows: seq<Claimed>) {
    before.Keys == now.Keys &&
    forall k, id {:trigger Holds(CellOf(now[k], region), id, token)} ::
      k in now && Holds(CellOf(now[k], region), id, token) ==>
        Holds(CellOf(before[k], region), id, token) || InList(rows, k, id)
  }

  ghost predicate InList(rows: seq<Claimed>, k: string, id: string) {
    exists r :: r in rows && r.workspace == k && r.event.id == id
  }

  /** The event is processed in the workspace. */
  ghost predicate Settled(w: Workspace, e: Event) { exists i :: 0 <= i < w.settled && i < |w.log| && w.log[i] == e }

  ghost predicate AllSettled(world: map<string, Workspace>, notices: seq<Notice>) {
    forall n {:trigger n in notices} :: n in notices ==>
      n.workspace in world && (n.processed ==> Settled(world[n.workspace], n.event))
  }

  lemma ElapsedTwice(a: map<string, Workspace>, b: map<string, Workspace>, c: map<string, Workspace>, region: string,
      token: string)
    requires AllElapsed(a, b, region, token) && AllElapsed(b, c, region, token)
    ensures AllElapsed(a, c, region, token)
  {
    forall k | k in c ensures Elapsed(a[k], c[k], region, token) {
      assert Elapsed(a[k], b[k], region, token) && Elapsed(b[k], c[k], region, token);
    }
  }

  lemma SettledLater(a: map<string, Workspace>, b: map<string, Workspace>, region: string, token: string,
      notices: seq<Notice>)
    requires AllElapsed(a, b, region, token) && AllSettled(a, notices)
    ensures AllSettled(b, notices)
  {
    forall n | n in notices ensures n.workspace in b && (n.processed ==> Settled(b[n.workspace], n.event)) {
      assert Elapsed(a[n.workspace], b[n.workspace], region, token);
      if n.processed {
        var i :| 0 <= i < a[n.workspace].settled && i < |a[n.workspace].log| && a[n.workspace].log[i] == n.event;
        assert b[n.workspace].log[i] == n.event;
      }
    }
  }

  lemma HeldLater(before: map<string, Workspace>, a: map<string, Workspace>, b: map<string, Workspace>,
      region: string, token: string, rows: seq<Claimed>)
    requires HeldWithin(before, a, region, token, rows) && AllElapsed(a, b, region, token)
    ensures HeldWithin(before, b, region, token, rows)
  {
    forall k, id | k in b && Holds(CellOf(b[k], region), id, token)
      ensures Holds(CellOf(before[k], region), id, token) || InList(rows, k, id)
    {
      assert Elapsed(a[k], b[k], region, token);
    }
  }

  lemma ExecuteElapsed(world: map<string, Workspace>, k: string, a: Action, region: string, token: string)
    requires k in world && Enabled(world[k], a) && !(a.ClaimRow? && a.token == token)
    ensures AllElapsed(world, world[k := Step(world[k], a)], region, token)
  {
  }

  // ---- Claims -------------------------------------------------------------------------------

  /** The row has just been claimed: it is the first unsettled event of its workspace. */
  ghost predicate JustClaimed(world: map<string, Workspace>, region: string, token: string, now: int, r: Claimed) {
    && r.workspace in world
    && var w := world[r.workspace];
       && w.settled < |w.log| && w.log[w.settled] == r.event && Copy(token, region, r.event) in w.claimed
       && r.event.id in CellOf(w, region).outbox &&
         CellOf(w, region).outbox[r.event.id].claim == Some(Claim(token, now))
  }

  ghost predicate ApartFrom(r: Claimed, s: Claimed) { r.workspace != s.workspace }

  ghost predicate OnePerWorkspace(rows: seq<Claimed>) {
    forall i, j {:trigger ApartFrom(rows[i], rows[j])} :: 0 <= i < j < |rows| ==> ApartFrom(rows[i], rows[j])
  }

  /** Once a row is claimed, its workspace can be claimed again exactly when the lease is over,
      and then only by that row. */
  lemma NotClaimableTwice(world: map<string, Workspace>, base: Counter, region: string, token: string, at: int,
      lease: nat, r: Claimed, id: string, now: int)
    requires JustClaimed(world, region, token, at, r) && Consistent(world[r.workspace], base)
    ensures Claimable(CellOf(world[r.workspace], region), id, now, lease) <==> id == r.event.id && at + lease < now
  {
    var w := world[r.workspace];
    var i := RowPlace(w, region, r.event.id);
    LogOrder(w, i, w.settled);
    if Pending(CellOf(w, region), id) && Earliest(CellOf(w, region), id) {
      EarliestIsNext(w, region, id);
      var j := RowPlace(w, region, id);
    }
    if at + lease < now { ClaimedIsEarliest(w, region, r.event.id); }
  }

  lemma ClaimedIsEarliest(w: Workspace, region: string, id: string)
    requires Regional(w) && Pending(CellOf(w, region), id) && CellOf(w, region).outbox[id].claim.Some?
    ensures Earliest(CellOf(w, region), id)
  {
    ClaimedIsNext(w, region, id);
    forall k | k in CellOf(w, region).outbox && CellOf(w, region).outbox[k].processedAt.None?
      ensures CellOf(w, region).outbox[id].event.sequence <= CellOf(w, region).outbox[k].event.sequence
    {
      var i := RowPlace(w, region, k);
      LogOrder(w, w.settled, i);
      if w.settled < i { assert Before(w.log[w.settled], w.log[i]); }
    }
  }

  /** The row was waiting with no claim, or with one whose lease was over, and only it changes. */
  ghost predicate Took(w: Workspace, w': Workspace, region: string, token: string, now: int, lease: nat, r: Claimed) {
    && r.event.id in CellOf(w, region).outbox
    && var row := CellOf(w, region).outbox[r.event.id];
       && row.event == r.event && row.processedAt == None && (row.claim == None || row.claim.value.at + lease < now)
       && CellOf(w', region).outbox ==
            CellOf(w, region).outbox[r.event.id := Row(r.event, Some(Claim(token, now)), None)]
  }

  ghost predicate TookEach(start: map<string, Workspace>, world: map<string, Workspace>, region: string, token: string,
      now: int, lease: nat, rows: seq<Claimed>) {
    && start.Keys == world.Keys
    && (forall r {:trigger r in rows} :: r in rows ==>
      r.workspace in world && Took(start[r.workspace], world[r.workspace], region, token, now, lease, r))
    && (forall k {:trigger world[k]} :: k in world && (forall r :: r in rows ==> r.workspace != k) ==>
      world[k] == start[k])
  }

  lemma TookOneMore(start: map<string, Workspace>, world: map<string, Workspace>, region: string, token: string,
      now: int, lease: nat, rows: seq<Claimed>, k: string, id: string)
    requires TookEach(start, world, region, token, now, lease, rows) && k in world
    requires Claimable(CellOf(world[k], region), id, now, lease) && forall r :: r in rows ==> r.workspace != k
    requires CellOf(world[k], region).outbox[id].event.id == id
    ensures TookEach(start, world[k := Step(world[k], ClaimRow(region, id, token, now, lease))], region, token, now,
      lease, rows + [Claimed(k, CellOf(world[k], region).outbox[id].event)])
  {
    var r := Claimed(k, CellOf(world[k], region).outbox[id].event);
    var w' := Step(world[k], ClaimRow(region, id, token, now, lease));
    assert world[k] == start[k] && Took(start[k], w', region, token, now, lease, r);
    TookAlso(start, world, region, token, now, lease, rows, r, w');
  }

  lemma TookAlso(start: map<string, Workspace>, world: map<string, Workspace>, region: string, token: string,
      now: int, lease: nat, rows: seq<Claimed>, r: Claimed, w': Workspace)
    requires TookEach(start, world, region, token, now, lease, rows) && r.workspace in world
    requires forall q :: q in rows ==> q.workspace != r.workspace
    requires Took(start[r.workspace], w', region, token, now, lease, r)
    ensures TookEach(start, world[r.workspace := w'], region, token, now, lease, rows + [r])
  {
    var world' := world[r.workspace := w'];
    forall j | j in world' && forall q :: q in rows + [r] ==> q.workspace != j ensures world'[j] == start[j] {
      assert r in rows + [r] && forall q :: q in rows ==> q in rows + [r];
      assert world[j] == start[j];
    }
  }

  /** Claiming one more row. */
  lemma ClaimOne(before: map<string, Workspace>, world: map<string, Workspace>, base: Counter, region: string,
      token: string, k: string, id: string, now: int, lease: nat, rows: seq<Claimed>)
    requires k in world && Consistent(world[k], base) && Claimable(CellOf(world[k], region), id, now, lease)
    requires HeldWithin(before, world, region, token, rows)
    ensures var a, r := ClaimRow(region, id, token, now, lease), Claimed(k, CellOf(world[k], region).outbox[id].event);
      && HeldWithin(before, world[k := Step(world[k], a)], region, token, rows + [r])
      && JustClaimed(world[k := Step(world[k], a)], region, token, now, r)
      && r.event.id == id
  {
    var a, r := ClaimRow(region, id, token, now, lease), Claimed(k, CellOf(world[k], region).outbox[id].event);
    var world' := world[k := Step(world[k], a)];
    EarliestIsNext(world[k], region, id);
    var i := RowPlace(world[k], region, id);
    forall j, x | j in world' && Holds(CellOf(world'[j], region), x, token)
      ensures Holds(CellOf(before[j], region), x, token) || InList(rows + [r], j, x)
    {
      if j == k && x == id {
        assert r in rows + [r];
      } else {
        assert Holds(CellOf(world[j], region), x, token);
        if InList(rows, j, x) {
          var s :| s in rows && s.workspace == j && s.event.id == x;
          assert s in rows + [r];
        }
      }
    }
  }

  /** What a claim statement has claimed so far: at most one row a workspace, each its
      workspace's first unsettled event, and nothing else is held. */
  ghost predicate Batch(before: map<string, Workspace>, start: map<string, Workspace>, world: map<string, Workspace>,
    region: string, token: string, now: int, blocked: set<string>, rows: seq<Claimed>)
  {
    && HeldWithin(before, world, region, token, rows) && OnePerWorkspace(rows)
    && (forall r {:trigger r in rows} :: r in rows ==>
      r.workspace !in blocked && JustClaimed(world, region, token, now, r))
    && SameHistory(start, world)
  }

  lemma BatchGrows(before: map<string, Workspace>, start: map<string, Workspace>, world: map<string, Workspace>,
      bases: map<string, Counter>,
    region: string, token: string, now: int, lease: nat, blocked: set<string>, rows: seq<Claimed>, k: string,
      id: string)
    requires AllConsistent(world, bases) && Batch(before, start, world, region, token, now, blocked, rows)
    requires k in world && k !in blocked && Claimable(CellOf(world[k], region), id, now, lease)
    ensures var a, r := ClaimRow(region, id, token, now, lease), Claimed(k, CellOf(world[k], region).outbox[id].event);
      Batch(before, start, world[k := Step(world[k], a)], region, token, now, blocked, rows + [r]) && r.event.id == id
    ensures forall r :: r in rows ==> r.workspace != k
  {
    assert Consistent(world[k], bases[k]);
    ClaimOne(before, world, bases[k], region, token, k, id, now, lease, rows);
    forall r | r in rows ensures r.workspace != k {
      if r.workspace == k { NotClaimableTwice(world, bases[k], region, token, now, lease, r, id, now); }
    }
  }

  /** No row can be claimed, outside some workspaces and some rows. */
  ghost predicate NoneClaimable(world: map<string, Workspace>, region: string, now: int, lease: nat,
      apart: set<string>, todo: set<(string, string)>) {
    forall k, id {:trigger Claimable(CellOf(world[k], region), id, now, lease)} ::
      k in world && k !in apart && (k, id) !in todo ==> !Claimable(CellOf(world[k], region), id, now, lease)
  }

  lemma StillNoneClaimable(before: map<string, Workspace>, world: map<string, Workspace>, bases: map<string, Counter>,
    region: string, token: string, now: int, lease: nat, apart: set<string>, todo: set<(string, string)>, k: string,
      id: string)
    requires AllConsistent(world, bases) && NoneClaimable(world, region, now, lease, apart, todo)
    requires k in world && Claimable(CellOf(world[k], region), id, now, lease)
    ensures NoneClaimable(world[k := Step(world[k], ClaimRow(region, id, token, now, lease))], region, now, lease,
      apart, todo)
  {
    var a, r := ClaimRow(region, id, token, now, lease), Claimed(k, CellOf(world[k], region).outbox[id].event);
    assert Consistent(world[k], bases[k]);
    EarliestIsNext(world[k], region, id);
    var i := RowPlace(world[k], region, id);
    var world' := world[k := Step(world[k], a)];
    StepConsistent(world, bases, k, a);
    forall x { NotClaimableTwice(world', bases[k], region, token, now, lease, r, x, now); }
  }

  /** What claiming one more row keeps. */
  lemma ClaimStep(before: map<string, Workspace>, start: map<string, Workspace>, world: map<string, Workspace>,
      bases: map<string, Counter>, region: string, token: string, now: int, lease: nat, blocked: set<string>,
      locked: set<string>, todo: set<(string, string)>, rows: seq<Claimed>, k: string, id: string)
    requires AllConsistent(world, bases) && Batch(before, start, world, region, token, now, blocked, rows)
    requires NoneClaimable(world, region, now, lease, blocked + locked, todo)
    requires TookEach(start, world, region, token, now, lease, rows)
    requires k in world && k !in blocked && Claimable(CellOf(world[k], region), id, now, lease)
    ensures var r := Claimed(k, CellOf(world[k], region).outbox[id].event);
      var world' := world[k := Step(world[k], ClaimRow(region, id, token, now, lease))];
      && Batch(before, start, world', region, token, now, blocked, rows + [r])
      && NoneClaimable(world', region, now, lease, blocked + locked, todo)
      && TookEach(start, world', region, token, now, lease, rows + [r])
  {
    BatchGrows(before, start, world, bases, region, token, now, lease, blocked, rows, k, id);
    StillNoneClaimable(before, world, bases, region, token, now, lease, blocked + locked, todo, k, id);
    TookOneMore(start, world, region, token, now, lease, rows, k, id);
  }

  /** Claims leave the history as it is. */
  ghost predicate SameHistory(a: map<string, Workspace>, b: map<string, Workspace>) {
    a.Keys == b.Keys && forall k {:trigger b[k]} :: k in b ==> a[k].log == b[k].log && a[k].settled == b[k].settled
  }

  ghost predicate AllConsistent(world: map<string, Workspace>, bases: map<string, Counter>) {
    world.Keys == bases.Keys && forall k {:trigger Consistent(world[k], bases[k])} :: k in world ==>
      Consistent(world[k], bases[k])
  }

  lemma StepConsistent(world: map<string, Workspace>, bases: map<string, Counter>, k: string, a: Action)
    requires AllConsistent(world, bases) && k in world && Enabled(world[k], a)
    ensures AllConsistent(world[k := Step(world[k], a)], bases)
  {
    assert Consistent(world[k], bases[k]);
    StepKeeps(world[k], bases[k], a);
    var world' := world[k := Step(world[k], a)];
    forall j | j in world' ensures Consistent(world'[j], bases[j]) {
      if j != k { assert Consistent(world[j], bases[j]); }
    }
  }

  // ---- Progress of one invocation ------------------------------------------------------------

  /** What has been reported so far: in order, counted, settled, and failures block. */
  ghost predicate Progress(world: map<string, Workspace>, notices: seq<Notice>, processed: nat, failed: nat,
      blocked: set<string>) {
    && Orderly(notices) && AllSettled(world, notices)
    && processed == Tally(notices, true) && failed == Tally(notices, false)
    && blocked == FailedIn(notices)
  }

  /** The row may be reported next. */
  ghost predicate Ready(world: map<string, Workspace>, region: string, token: string, notices: seq<Notice>,
      r: Claimed) {
    && r.workspace in world && Copy(token, region, r.event) in world[r.workspace].claimed
    && forall n {:trigger n in notices} :: n in notices ==> InOrder(n, Notice(r.workspace, r.event, true))
  }

  ghost predicate AllReady(world: map<string, Workspace>, region: string, token: string, notices: seq<Notice>,
      rows: seq<Claimed>) {
    forall r {:trigger r in rows} :: r in rows ==> Ready(world, region, token, notices, r)
  }

  /** A freshly claimed row comes after everything reported for its workspace. */
  lemma BatchReady(world: map<string, Workspace>, bases: map<string, Counter>, region: string, token: string, now: int,
    notices: seq<Notice>, processed: nat, failed: nat, blocked: set<string>, r: Claimed)
    requires AllConsistent(world, bases) && Progress(world, notices, processed, failed, blocked)
    requires r.workspace !in blocked && JustClaimed(world, region, token, now, r)
    ensures Ready(world, region, token, notices, r)
  {
    assert Consistent(world[r.workspace], bases[r.workspace]);
    forall n | n in notices ensures InOrder(n, Notice(r.workspace, r.event, true)) {
      if n.workspace == r.workspace && n.processed {
        SettledBefore(world[r.workspace], n.event);
      }
    }
  }

  lemma SettledBefore(w: Workspace, e: Event)
    requires LogOk(w) && w.settled < |w.log| && Settled(w, e)
    ensures e.sequence < w.log[w.settled].sequence
  {
    var i :| 0 <= i < w.settled && i < |w.log| && w.log[i] == e;
    assert Before(w.log[i], w.log[w.settled]);
  }

  /** Reporting the outcome of the first row of the list. */
  lemma Reported(before: map<string, Workspace>, world: map<string, Workspace>, region: string, token: string,
      notices: seq<Notice>,
    processed: nat, failed: nat, blocked: set<string>, rows: seq<Claimed>, ok: bool)
    requires rows != [] && OnePerWorkspace(rows) && AllReady(before, region, token, notices, rows)
    requires Progress(before, notices, processed, failed, blocked) && AllElapsed(before, world, region, token)
    requires ok ==> rows[0].workspace in world && Settled(world[rows[0].workspace], rows[0].event)
    ensures var n := Notice(rows[0].workspace, rows[0].event, ok);
      && AllReady(world, region, token, notices + [n], rows[1..])
      && (if ok then Progress(world, notices + [n], processed + 1, failed, blocked)
          else Progress(world, notices + [n], processed, failed + 1, blocked + {n.workspace}))
  {
    var r, n := rows[0], Notice(rows[0].workspace, rows[0].event, ok);
    assert r in rows;
    SettledLater(before, world, region, token, notices);
    StillOrderly(notices, n);
    forall s | s in rows[1..] ensures Ready(world, region, token, notices + [n], s) {
      var i :| 0 < i < |rows| && rows[i] == s;
      assert ApartFrom(rows[0], rows[i]);
      assert s in rows && Elapsed(before[s.workspace], world[s.workspace], region, token);
    }
  }

  lemma StillOrderly(notices: seq<Notice>, n: Notice)
    requires Orderly(notices) && forall m {:trigger m in notices} :: m in notices ==> InOrder(m, n)
    ensures Orderly(notices + [n])
  {
    var all := notices + [n];
    forall i, j | 0 <= i < j < |all| ensures InOrder(all[i], all[j]) {
      if j < |notices| {
        assert InOrder(notices[i], notices[j]);
      } else {
        assert notices[i] in notices;
      }
    }
  }

  lemma SameSettled(a: map<string, Workspace>, b: map<string, Workspace>, notices: seq<Notice>)
    requires SameHistory(a, b) && AllSettled(a, notices)
    ensures AllSettled(b, notices)
  {
    forall n | n in notices ensures n.workspace in b && (n.processed ==> Settled(b[n.workspace], n.event)) {
      if n.processed { assert Settled(a[n.workspace], n.event); }
    }
  }

  // ---- The databases ------------------------------------------------------------------------

  /** The rows of every workspace. Each method below is what one worker does; between its
      statements any other workers act, which Others leaves open. */
  class Databases {
    const region: string
    const bases: map<string, Counter>
    var world: map<string, Workspace>

    constructor (region: string, bases: map<string, Counter>)
      ensures Valid() && this.region == region && this.bases == bases
      ensures world == map k | k in bases :: Unplaced(bases[k])
    {
      this.region, this.bases := region, bases;
      world := map k | k in bases :: Unplaced(bases[k]);
      new;
      forall k | k in world ensures Consistent(world[k], bases[k]) { StartsConsistent(bases[k]); }
    }

    ghost predicate Valid()
      reads this
    {
      AllConsistent(world, bases)
    }

    /** One statement on one workspace. */
    method Execute(k: string, a: Action)
      requires Valid() && k in world && Enabled(world[k], a)
      modifies this
      ensures Valid() && world == old(world)[k := Step(old(world)[k], a)]
    {
      StepConsistent(world, bases, k, a);
      world := world[k := Step(world[k], a)];
    }

    /** Whatever other workers do meanwhile; none of them claims with this worker's token. */
    method Others(token: string)
      requires Valid()
      modifies this
      ensures Valid() && AllElapsed(old(world), world, region, token)
    {
      var turns: seq<Turn> := *;
      for i := 0 to |turns|
        invariant Valid() && AllElapsed(old(world), world, region, token)
      {
        var k, a := turns[i].workspace, turns[i].action;
        if k in world && !(a.ClaimRow? && a.token == token) && Enabled(world[k], a) {
          ExecuteElapsed(world, k, a, region, token);
          ElapsedTwice(old(world), world, world[k := Step(world[k], a)], region, token);
          Execute(k, a);
        }
      }
    }

    /** One statement claims the earliest pending row of at most n workspaces, skipping blocked
        workspaces and, it may be, those whose rows others have locked. */
    method ClaimBatch(n: nat, lease: nat, token: string, blocked: set<string>, locked: set<string>,
        ghost before: map<string, Workspace>)
      returns (rows: seq<Claimed>, now: int)
      requires Valid() && HeldWithin(before, world, region, token, [])
      modifies this
      ensures Valid() && |rows| <= n && Batch(before, old(world), world, region, token, now, blocked, rows)
      ensures TookEach(old(world), world, region, token, now, lease, rows)
      ensures |rows| < n ==> NoneClaimable(world, region, now, lease, blocked + locked, {})
    {
      now := *;
      rows := [];
      var todo := set k, id | k in world && id in CellOf(world[k], region).outbox :: (k, id);
      while todo != {} && |rows| < n
        invariant Valid() && |rows| <= n && Batch(before, old(world), world, region, token, now, blocked, rows)
        invariant NoneClaimable(world, region, now, lease, blocked + locked, todo)
        invariant TookEach(old(world), world, region, token, now, lease, rows)
        decreases |todo|
      {
        var pick :| pick in todo;
        var (k, id) := pick;
        var skipped: bool := *;
        if k in world && k !in blocked && !(k in locked && skipped) &&
            Claimable(CellOf(world[k], region), id, now, lease) {
          ClaimStep(before, old(world), world, bases, region, token, now, lease, blocked, locked, todo, rows, k, id);
          rows := rows + [Claimed(k, CellOf(world[k], region).outbox[id].event)];
          Execute(k, ClaimRow(region, id, token, now, lease));
        }
        todo := todo - {pick};
      }
    }

    /** Applies the event's effect, if its placement epoch is current; any step may fail. */
    method Process(k: string, copy: Copy, token: string) returns (ok: bool)
      requires Valid() && k in world && copy in world[k].claimed
      modifies this
      ensures Valid() && AllElapsed(old(world), world, region, token)
      ensures ok ==> copy in world[k].applied
    {
      Others(token);
      assert Elapsed(old(world)[k], world[k], region, token);
      if !Current(world[k], copy.region, copy.event.epoch) { return false; }
      ExecuteElapsed(world, k, FenceCheck(copy), region, token);
      ElapsedTwice(old(world), world, world[k := Step(world[k], FenceCheck(copy))], region, token);
      Execute(k, FenceCheck(copy));
      ghost var checked := world;
      Others(token);
      ElapsedTwice(old(world), checked, world, region, token);
      assert Elapsed(checked[k], world[k], region, token);
      var reached, now := *, *;
      if !reached { return false; }
      ExecuteElapsed(world, k, ApplyEffect(copy, now), region, token);
      ElapsedTwice(old(world), world, world[k := Step(world[k], ApplyEffect(copy, now))], region, token);
      Execute(k, ApplyEffect(copy, now));
      ok := *;
    }

    /** Marks the row processed if this worker still holds it. */
    method Acknowledge(k: string, e: Event, token: string, now: int) returns (ok: bool)
      requires Valid() && k in world && Copy(token, region, e) in world[k].applied
      modifies this
      ensures Valid() && AllElapsed(old(world), world, region, token)
      ensures ok == Holds(CellOf(old(world)[k], region), e.id, token)
      ensures var a := Action.Acknowledge(region, e.id, token, now);
        if ok then Enabled(old(world)[k], a) && world == old(world)[k := Step(old(world)[k], a)]
        else world == old(world)
      ensures ok ==> Settled(world[k], e)
      ensures !Holds(CellOf(world[k], region), e.id, token)
    {
      ok := Holds(CellOf(world[k], region), e.id, token);
      if ok {
        assert Consistent(world[k], bases[k]);
        HeldIsCopied(world[k], bases[k], region, token, e);
        ExecuteElapsed(world, k, Action.Acknowledge(region, e.id, token, now), region, token);
        Execute(k, Action.Acknowledge(region, e.id, token, now));
      }
    }

    /** Gives the row up if this worker still holds it. */
    method Release(k: string, id: string, token: string)
      requires Valid() && k in world
      modifies this
      ensures Valid() && AllElapsed(old(world), world, region, token)
      ensures world ==
        if Holds(CellOf(old(world)[k], region), id, token) then
          old(world)[k := Step(old(world)[k], GiveUp(region, id, token))]
        else old(world)
      ensures !Holds(CellOf(world[k], region), id, token)
    {
      if Holds(CellOf(world[k], region), id, token) {
        ExecuteElapsed(world, k, GiveUp(region, id, token), region, token);
        Execute(k, GiveUp(region, id, token));
      }
    }

    /** Processes and acknowledges one claimed row, or gives it up. */
    method Settle(r: Claimed, token: string) returns (processed: bool)
      requires Valid() && r.workspace in world && Copy(token, region, r.event) in world[r.workspace].claimed
      modifies this
      ensures Valid() && AllElapsed(old(world), world, region, token)
      ensures processed ==> Settled(world[r.workspace], r.event)
      ensures !Holds(CellOf(world[r.workspace], region), r.event.id, token)
    {
      var k := r.workspace;
      var applied := Process(k, Copy(token, region, r.event), token);
      processed := false;
      if applied {
        ghost var done := world;
        Others(token);
        ElapsedTwice(old(world), done, world, region, token);
        assert Elapsed(done[k], world[k], region, token);
        ghost var reached := world;
        var now: int := *;
        processed := Acknowledge(k, r.event, token, now);
        ElapsedTwice(old(world), reached, world, region, token);
      }
      if !processed {
        ghost var lost := world;
        Others(token);
        ElapsedTwice(old(world), lost, world, region, token);
        ghost var late := world;
        Release(k, r.event.id, token);
        ElapsedTwice(old(world), late, world, region, token);
      }
    }

    /** Returns claims that will not be used, in one statement. */
    method ReturnClaims(rows: seq<Claimed>, token: string, ghost before: map<string, Workspace>)
      requires Valid() && HeldWithin(before, world, region, token, rows)
      requires forall r :: r in rows ==> r.workspace in world
      modifies this
      ensures Valid() && HeldWithin(before, world, region, token, []) && AllElapsed(old(world), world, region, token)
    {
      for i := 0 to |rows|
        invariant Valid() && HeldWithin(before, world, region, token, rows[i..]) &&
          AllElapsed(old(world), world, region, token)
      {
        ghost var was := world;
        assert rows[i] in rows;
        Release(rows[i].workspace, rows[i].event.id, token);
        ElapsedTwice(old(world), was, world, region, token);
        HeldLater(before, was, world, region, token, rows[i..]);
        assert rows[i..][1..] == rows[i + 1..];
      }
    }

    /** Works through claimed rows until the deadline. */
    method SettleRows(rows: seq<Claimed>, token: string, deadline: Option<real>, notices0: seq<Notice>,
        blocked0: set<string>,
      ghost processed0: nat, ghost failed0: nat, ghost before: map<string, Workspace>)
      returns (notices: seq<Notice>, blocked: set<string>, processed: nat, failed: nat, expired: bool)
      requires Valid() && HeldWithin(before, world, region, token, rows) && OnePerWorkspace(rows)
      requires AllReady(world, region, token, notices0, rows) &&
        Progress(world, notices0, processed0, failed0, blocked0)
      modifies this
      ensures Valid() && HeldWithin(before, world, region, token, [])
      ensures Progress(world, notices, processed0 + processed, failed0 + failed, blocked)
      ensures processed + failed <= |rows| && (!expired ==> processed + failed == |rows|)
      ensures deadline.None? ==> !expired
    {
      notices, blocked, processed, failed, expired := notices0, blocked0, 0, 0, false;
      for i := 0 to |rows|
        invariant Valid() && HeldWithin(before, world, region, token, rows[i..]) && OnePerWorkspace(rows[i..])
        invariant AllReady(world, region, token, notices, rows[i..])
        invariant Progress(world, notices, processed0 + processed, failed0 + failed, blocked)
        invariant processed + failed == i && !expired
      {
        var clock: real := *;
        assert rows[i] == rows[i..][0] && rows[i..][1..] == rows[i + 1..];
        assert rows[i] in rows[i..] && Ready(world, region, token, notices, rows[i]);
        if deadline.Some? && clock >= deadline.value {
          ghost var was := world;
          ReturnClaims(rows[i..], token, before);
          SettledLater(was, world, region, token, notices);
          return notices, blocked, processed, failed, true;
        }
        ghost var was := world;
        var ok := Settle(rows[i], token);
        assert rows[i].workspace in world;
        HeldLater(before, was, world, region, token, rows[i..]);
        Reported(was, world, region, token, notices, processed0 + processed, failed0 + failed, blocked, rows[i..], ok);
        notices := notices + [Notice(rows[i].workspace, rows[i].event, ok)];
        if ok {
          processed := processed + 1;
        } else {
          blocked := blocked + {rows[i].workspace};
          failed := failed + 1;
        }
      }
    }

    /** drainRegionalProjectionOutbox, with the notices it gives to onEvent. */
    method DrainOutbox(limit: Option<int>, leaseSeconds: Option<int>, maxDuration: Option<real>, token: string,
        locked: set<string>)
      returns (outcome: Outcome, notices: seq<Notice>, expired: bool, asOf: int)
      requires Valid()
      modifies this
      ensures Valid() && world.Keys == old(world).Keys
      ensures outcome.Drained? <==>
        1 <= (if limit == None then 50 else limit.value) <= (if maxDuration == None then 500 else 50_000) &&
        10 <= (if leaseSeconds == None then 60 else leaseSeconds.value) <= 600 &&
        (maxDuration == None || 0.0 < maxDuration.value <= 50_000.0)
      ensures outcome.Rejected? ==> world == old(world) && notices == []
      ensures outcome == Rejected(LimitInvalid) <==>
        !(1 <= (if limit == None then 50 else limit.value) <= (if maxDuration == None then 500 else 50_000))
      ensures outcome == Rejected(DurationInvalid) ==>
        10 <= (if leaseSeconds == None then 60 else leaseSeconds.value) <= 600
      ensures outcome.Drained? ==>
        && outcome.processed + outcome.failed == |notices| <= (if limit == None then 50 else limit.value)
        && outcome.processed == Tally(notices, true)
        && Orderly(notices) && AllSettled(world, notices)
        && HeldWithin(old(world), world, region, token, [])
      ensures outcome.Drained? && expired ==> maxDuration.Some?
      ensures outcome.Drained? && !expired && |notices| < Limit(limit) ==>
        NoneClaimable(world, region, asOf, if leaseSeconds == None then 60 else leaseSeconds.value,
          FailedIn(notices) + locked, {})
    {
      notices, expired, asOf := [], false, 0;
      var most, lease := Limit(limit), Lease(leaseSeconds);
      if !LimitOk(limit, maxDuration) { return Rejected(LimitInvalid), [], false, 0; }
      if !LeaseOk(leaseSeconds) { return Rejected(LeaseInvalid), [], false, 0; }
      if !DurationOk(maxDuration) { return Rejected(DurationInvalid), [], false, 0; }
      var clock: real := *;
      var deadline := if maxDuration.Some? then Some(clock + maxDuration.value) else None;
      var processed: nat, failed: nat, blocked: set<string> := 0, 0, {};
      ghost var before := world;
      while processed + failed < most
        invariant !expired
        invariant Valid() && HeldWithin(before, world, region, token, [])
        invariant Progress(world, notices, processed, failed, blocked)
        invariant processed + failed <= most
        decreases most - processed - failed
      {
        clock := *;
        if deadline.Some? && clock >= deadline.value { expired := true; break; }
        ghost var was := world;
        Others(token);
        SettledLater(was, world, region, token, notices);
        HeldLater(before, was, world, region, token, []);
        was := world;
        var n := if most - processed - failed < BATCH then most - processed - failed else BATCH;
        var rows;
        rows, asOf := ClaimBatch(n, lease, token, blocked, locked, before);
        SameSettled(was, world, notices);
        if rows == [] { break; }
        forall r | r in rows ensures Ready(world, region, token, notices, r) {
          BatchReady(world, bases, region, token, asOf, notices, processed, failed, blocked, r);
        }
        var p, f;
        notices, blocked, p, f, expired :=
          SettleRows(rows, token, deadline, notices, blocked, processed, failed, before);
        processed, failed := processed + p, failed + f;
        if expired { break; }
      }
      TallyAll(notices);
      outcome := Drained(processed, failed);
    }
  }

  function Limit(limit: Option<int>): int { if limit.Some? then limit.value else 50 }

  function Lease(leaseSeconds: Option<int>): int { if leaseSeconds.Some? then leaseSeconds.value else 60 }

  predicate LimitOk(limit: Option<int>, maxDuration: Option<real>) {
    1 <= Limit(limit) <= if maxDuration.None? then 500 else 50_000
  }

  predicate LeaseOk(leaseSeconds: Option<int>) { leaseSeconds.None? || 10 <= leaseSeconds.value <= 600 }

  predicate DurationOk(maxDuration: Option<real>) { maxDuration.None? || 0.0 < maxDuration.value <= 50_000.0 }

  lemma {:induction false} TallyAll(notices: seq<Notice>)
    ensures Tally(notices, true) + Tally(notices, false) == |notices|
    decreases |notices|
  {
    if notices != [] { TallyAll(notices[..|notices| - 1]); }
  }

  /** A held row is of the event whose copy the worker has. */
  lemma HeldIsCopied(w: Workspace, base: Counter, region: string, token: string, e: Event)
    requires Consistent(w, base) && Copy(token, region, e) in w.applied && Holds(CellOf(w, region), e.id, token)
    ensures CellOf(w, region).outbox[e.id].event == e && w.settled < |w.log| && w.log[w.settled] == e
  {
    ClaimedIsNext(w, region, e.id);
    var i := CopyPlace(w, Copy(token, region, e));
    LogOrder(w, i, w.settled);
  }
}
