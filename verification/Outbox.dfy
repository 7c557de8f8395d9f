/** The regional outbox and its global statistics, for one workspace. Every SQL statement
    acts on each workspace's rows separately, so a workspace is a state machine of its own;
    each action below is one statement or one placement compare-and-set. Any number of
    workers interleave their actions; a worker may stop between any two of them. */
module Outbox {
  import opened Sequences

  datatype Payload =
    | AgentSkillUsed(count: int) | SkillCountChanged(delta: int)
    | SkillPublished | SkillUnpublished | ResourceRouteUpsert

  datatype Event = Event(id: string, payload: Payload, epoch: int, sequence: int) {
    predicate Stats() { payload.AgentSkillUsed? || payload.SkillCountChanged? }

    function Amount(): Counter {
      match payload
      case AgentSkillUsed(n) => Counter(n, 0)
      case SkillCountChanged(n) => Counter(0, n)
      case _ => Counter(0, 0)
    }

    function At(): Mark { Mark(epoch, sequence) }
  }

  /** agent_skill_uses and total_skills */
  datatype Counter = Counter(uses: int, skills: int) {
    function Plus(c: Counter): Counter { Counter(uses + c.uses, skills + c.skills) }
  }

  /** A position in the order of events: epoch first, then sequence. */
  datatype Mark = Mark(epoch: int, sequence: int) {
    predicate AtMost(m: Mark) { epoch < m.epoch || (epoch == m.epoch && sequence <= m.sequence) }
  }

  datatype Claim = Claim(token: string, at: int)
  datatype Row = Row(event: Event, claim: Option<Claim>, processedAt: Option<int>)

  /** The workspace's rows in one regional database. */
  datatype Cell = Cell(outbox: map<string, Row>, lastSequence: Option<int>, fenced: bool)

  datatype Placement =
    | Active(region: string, epoch: int)
    | Moving(source: string, sourceEpoch: int, epoch: int, target: string, copied: bool)

  /** A worker's copy of a row it has claimed, possibly long ago. */
  datatype Copy = Copy(token: string, region: string, event: Event)

  datatype Entry = Entry(mark: Mark, appliedAt: int)

  /** The workspace's rows in the global database. */
  datatype Statistics = Statistics(checkpoint: Option<Mark>, ledger: map<string, Entry>, counter: Counter) {
    predicate Covers(e: Event) { checkpoint.Some? && e.At().AtMost(checkpoint.value) }
  }

  /** claimed, cleared and applied hold the copies that workers claimed, passed through the
      fencing check and applied. log and settled are history: every event enqueued, and
      how many of them are processed. */
  datatype Workspace = Workspace(
    cells: map<string, Cell>, placement: Option<Placement>, stats: Statistics,
    claimed: set<Copy>, cleared: set<Copy>, applied: set<Copy>,
    log: seq<Event>, settled: nat)

  /** One statement, or one placement write. Enqueue carries the sequence it allocates. */
  datatype Action =
    | Place(home: string, epoch: int)
    | Enqueue(region: string, id: string, payload: Payload, sequence: int)
    | ClaimRow(region: string, id: string, token: string, now: int, lease: nat)
    | FenceCheck(copy: Copy)
    | ApplyEffect(copy: Copy, now: int)
    | Acknowledge(region: string, id: string, token: string, now: int)
    | GiveUp(region: string, id: string, token: string)
    | CleanOutbox(region: string, ids: set<string>)
    | CleanLedger(ids: set<string>)
    | BeginMove(target: string, next: int)
    | Quiesce
    | CopyRows
    | Activate(next: int)
    | Rollback(next: int)

  const NO_CELL := Cell(map[], None, false)

  function CellOf(w: Workspace, region: string): Cell {
    if region in w.cells then w.cells[region] else NO_CELL
  }

  function WithCell(w: Workspace, region: string, c: Cell): Workspace { w.(cells := w.cells[region := c]) }

  // ---- Reading the state ------------------------------------------------------------------

  /** The region whose database accepts the workspace's writes, and the epoch it stamps. */
  function Owner(p: Placement): string { if p.Active? then p.region else p.source }
  function Stamp(p: Placement): int { if p.Active? then p.epoch else p.sourceEpoch }

  /** The fencing check of applyRegionalPublicProjection. */
  predicate Current(w: Workspace, region: string, epoch: int) {
    w.placement.Some? && Owner(w.placement.value) == region && Stamp(w.placement.value) == epoch
  }

  predicate Pending(c: Cell, id: string) { id in c.outbox && c.outbox[id].processedAt.None? }

  /** No earlier row of the workspace is still unprocessed. */
  predicate Earliest(c: Cell, id: string)
    requires id in c.outbox
  {
    forall k :: k in c.outbox && c.outbox[k].processedAt.None? ==>
      c.outbox[id].event.sequence <= c.outbox[k].event.sequence
  }

  /** The WHERE clause of the claim. */
  predicate Claimable(c: Cell, id: string, now: int, lease: nat) {
    Pending(c, id) && Earliest(c, id) &&
    (c.outbox[id].claim.None? || c.outbox[id].claim.value.at < now - lease)
  }

  predicate Holds(c: Cell, id: string, token: string) {
    Pending(c, id) && c.outbox[id].claim.Some? && c.outbox[id].claim.value.token == token
  }

  predicate Drained(c: Cell) { forall k :: k in c.outbox ==> c.outbox[k].processedAt.Some? }

  /** n is one more than the greatest of the allocator, the sequences present, and zero. */
  predicate Allocated(c: Cell, n: int) {
    && 0 < n
    && (c.lastSequence.Some? ==> c.lastSequence.value < n)
    && (forall k :: k in c.outbox ==> c.outbox[k].event.sequence < n)
    && (n == 1 || c.lastSequence == Some(n - 1) || exists k :: k in c.outbox && c.outbox[k].event.sequence == n - 1)
  }

  // ---- The statements ---------------------------------------------------------------------

  function EnqueueEvent(w: Workspace, region: string, e: Event): Workspace {
    var c := CellOf(w, region);
    WithCell(w, region, c.(outbox := c.outbox[e.id := Row(e, None, None)], lastSequence := Some(e.sequence)))
      .(log := w.log + [e])
  }

  /** applyPublicStatsProjectionCheckpoint */
  function ApplyStats(g: Statistics, e: Event, now: int): Statistics {
    if e.id in g.ledger then g
    else
      var g1 := g.(ledger := g.ledger[e.id := Entry(e.At(), now)]);
      if g.Covers(e) then g1
      else g1.(checkpoint := Some(e.At()), counter := g.counter.Plus(e.Amount()))
  }

  function SetRow(w: Workspace, region: string, id: string, row: Row): Workspace {
    var c := CellOf(w, region);
    WithCell(w, region, c.(outbox := c.outbox[id := row]))
  }

  /** cleanupPublicStatsProjectionEvents deletes only what the checkpoint has passed. */
  predicate Retired(g: Statistics, id: string) {
    id in g.ledger && g.checkpoint.Some? && g.ledger[id].mark.AtMost(g.checkpoint.value)
  }

  /** Whether an action can happen; a statement whose WHERE clause matches nothing cannot. */
  predicate Enabled(w: Workspace, a: Action) {
    match a
    case Place(_, epoch) => w.placement.None? && 0 < epoch
    case Enqueue(region, id, _, sequence) =>
      w.placement.Some? && Owner(w.placement.value) == region && !CellOf(w, region).fenced &&
      Allocated(CellOf(w, region), sequence) && forall e :: e in w.log ==> e.id != id
    case ClaimRow(region, id, _, now, lease) => Claimable(CellOf(w, region), id, now, lease)
    case FenceCheck(copy) => copy in w.claimed && Current(w, copy.region, copy.event.epoch)
    case ApplyEffect(copy, _) => copy in w.cleared
    case Acknowledge(region, id, token, _) =>
      Holds(CellOf(w, region), id, token) && Copy(token, region, CellOf(w, region).outbox[id].event) in w.applied
    case GiveUp(region, id, token) => Holds(CellOf(w, region), id, token)
    case CleanOutbox(region, ids) =>
      forall k :: k in ids ==> k in CellOf(w, region).outbox && !Pending(CellOf(w, region), k)
    case CleanLedger(ids) => forall k :: k in ids ==> Retired(w.stats, k)
    case BeginMove(target, next) =>
      w.placement.Some? && w.placement.value.Active? && target != w.placement.value.region &&
        w.placement.value.epoch < next
    case Quiesce => w.placement.Some? && w.placement.value.Moving?
    case CopyRows =>
      w.placement.Some? && w.placement.value.Moving? &&
      CellOf(w, w.placement.value.source).fenced && Drained(CellOf(w, w.placement.value.source))
    case Activate(next) =>
      w.placement.Some? && w.placement.value.Moving? && w.placement.value.copied && w.placement.value.epoch < next
    case Rollback(next) => w.placement.Some? && w.placement.value.Moving? && w.placement.value.epoch < next
  }

  function Step(w: Workspace, a: Action): Workspace
    requires Enabled(w, a)
  {
    match a
    case Place(home, epoch) => w.(placement := Some(Active(home, epoch)))
    case Enqueue(region, id, payload, sequence) =>
      EnqueueEvent(w, region, Event(id, payload, Stamp(w.placement.value), sequence))
    case ClaimRow(region, id, token, now, _) =>
      var row := CellOf(w, region).outbox[id];
      var taken := SetRow(w, region, id, row.(claim := Some(Claim(token, now))));
      taken.(claimed := w.claimed + {Copy(token, region, row.event)})
    case FenceCheck(copy) => w.(cleared := w.cleared + {copy})
    case ApplyEffect(copy, now) =>
      var counted := if copy.event.Stats() then w.(stats := ApplyStats(w.stats, copy.event, now)) else w;
      counted.(applied := w.applied + {copy})
    case Acknowledge(region, id, token, now) =>
      var row := CellOf(w, region).outbox[id];
      SetRow(w, region, id, row.(claim := None, processedAt := Some(now))).(settled := w.settled + 1)
    case GiveUp(region, id, token) => SetRow(w, region, id, CellOf(w, region).outbox[id].(claim := None))
    case CleanOutbox(region, ids) =>
      var c := CellOf(w, region);
      WithCell(w, region, c.(outbox := c.outbox - ids))
    case CleanLedger(ids) => w.(stats := w.stats.(ledger := w.stats.ledger - ids))
    case BeginMove(target, next) =>
      var p := w.placement.value;
      w.(placement := Some(Moving(p.region, p.epoch, next, target, false)))
    case Quiesce =>
      var source := w.placement.value.source;
      WithCell(w, source, CellOf(w, source).(fenced := true))
    case CopyRows =>
      var p := w.placement.value;
      var c, t := CellOf(w, p.source), CellOf(w, p.target);
      var filled := WithCell(w, p.target, t.(outbox := c.outbox, lastSequence := c.lastSequence));
      filled.(placement := Some(p.(copied := true)))
    case Activate(next) =>
      var p := w.placement.value;
      WithCell(w, p.target, CellOf(w, p.target).(fenced := false)).(placement := Some(Active(p.target, next)))
    case Rollback(next) =>
      var p := w.placement.value;
      var w1 := WithCell(w, p.target, CellOf(w, p.target).(outbox := map[], lastSequence := None));
      WithCell(w1, p.source, CellOf(w1, p.source).(fenced := false)).(placement := Some(Active(p.source, next)))
  }

  /** Runs of any length and any interleaving. */
  predicate PossibleRun(w: Workspace, actions: seq<Action>)
    decreases |actions|
  {
    actions == [] || (Enabled(w, actions[0]) && PossibleRun(Step(w, actions[0]), actions[1..]))
  }

  function Run(w: Workspace, actions: seq<Action>): Workspace
    requires PossibleRun(w, actions)
    decreases |actions|
  {
    if actions == [] then w else Run(Step(w, actions[0]), actions[1..])
  }

  /** A workspace before its first placement; the counter may hold a backfilled total. */
  function Unplaced(base: Counter): Workspace {
    Workspace(map[], None, Statistics(None, map[], base), {}, {}, {}, [], 0)
  }
}
