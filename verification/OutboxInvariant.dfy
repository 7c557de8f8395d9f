/** What every action of the outbox keeps. */
module OutboxInvariant {
  import opened Sequences
  import opened Outbox

  // ---- The regional side --------------------------------------------------------------------

  ghost predicate Before(d: Event, e: Event) { d.sequence < e.sequence && d.epoch <= e.epoch && d.id != e.id }

  /** Sequences increase along the history, epochs never decrease and ids never repeat. */
  ghost predicate LogOk(w: Workspace) {
    && w.settled <= |w.log|
    && (forall i, j {:trigger Before(w.log[i], w.log[j])} :: 0 <= i < j < |w.log| ==> Before(w.log[i], w.log[j]))
    && (w.placement.None? ==> w.log == [])
    && (w.placement.Some? ==>
      (forall i :: 0 <= i < |w.log| ==> w.log[i].epoch <= Stamp(w.placement.value)) &&
      (w.placement.value.Moving? ==> w.placement.value.sourceEpoch < w.placement.value.epoch))
  }

  /** The row holds the i-th event; it waits, at the owner, exactly when that one is unsettled,
      and only the first unsettled one can be claimed. */
  ghost predicate Matches(w: Workspace, region: string, row: Row, i: int) {
    && 0 <= i < |w.log| && row.event == w.log[i]
    && (row.processedAt.Some? <==> i < w.settled)
    && (row.processedAt.None? ==>
      w.placement.Some? && region == Owner(w.placement.value) && (row.claim.Some? ==> i == w.settled))
  }

  ghost predicate RowOk(w: Workspace, region: string, id: string)
    requires id in CellOf(w, region).outbox
  {
    var row := CellOf(w, region).outbox[id];
    row.event.id == id && exists i :: Matches(w, region, row, i)
  }

  ghost predicate RowsOk(w: Workspace) {
    forall region, id {:trigger RowOk(w, region, id)} :: id in CellOf(w, region).outbox ==> RowOk(w, region, id)
  }

  /** The i-th event still waits at the owner. */
  ghost predicate Waits(w: Workspace, i: int)
    requires 0 <= i < |w.log| && w.placement.Some?
  {
    var c := CellOf(w, Owner(w.placement.value));
    Pending(c, w.log[i].id) && c.outbox[w.log[i].id].event == w.log[i]
  }

  ghost predicate NothingLost(w: Workspace) {
    w.placement.Some? ==> forall i {:trigger Waits(w, i)} :: 0 <= w.settled <= i < |w.log| ==> Waits(w, i)
  }

  /** The region's allocator has passed every sequence ever used. */
  ghost predicate Allocates(w: Workspace, region: string) {
    w.log != [] ==>
      CellOf(w, region).lastSequence.Some? &&
      w.log[|w.log| - 1].sequence <= CellOf(w, region).lastSequence.value
  }

  ghost predicate AllocatorsOk(w: Workspace) {
    w.placement.Some? ==>
      var p := w.placement.value;
      Allocates(w, Owner(p)) &&
      (p.Moving? && p.copied ==>
        CellOf(w, p.source).fenced && w.settled == |w.log| && p.source != p.target && Allocates(w, p.target)) &&
      (p.Moving? ==> p.source != p.target)
  }

  ghost predicate Regional(w: Workspace) { LogOk(w) && RowsOk(w) && NothingLost(w) && AllocatorsOk(w) }

  // ---- The global side ----------------------------------------------------------------------

  /** A copy is of a settled event or of the first unsettled one. */
  ghost predicate CopyOf(w: Workspace, c: Copy, i: int) {
    0 <= i < |w.log| && i <= w.settled && c.event == w.log[i]
  }

  ghost predicate CopiesOk(w: Workspace) {
    && w.applied <= w.cleared <= w.claimed
    && (forall c {:trigger c in w.claimed} :: c in w.claimed ==> exists i :: CopyOf(w, c, i))
    && (forall c {:trigger c in w.applied} :: c in w.applied && c.event.Stats() ==> w.stats.Covers(c.event))
  }

  /** The checkpoint stands at a statistics event no later than the first unsettled one. */
  ghost predicate StandsAt(w: Workspace, m: Mark, i: int) {
    0 <= i < |w.log| && i <= w.settled && w.log[i].At() == m && w.log[i].Stats()
  }

  ghost predicate Counted(w: Workspace, i: int)
    requires 0 <= i < |w.log|
  {
    w.log[i].Stats() ==> w.stats.Covers(w.log[i])
  }

  ghost predicate Entered(w: Workspace, id: string, i: int)
    requires id in w.stats.ledger
  {
    0 <= i < |w.log| && w.log[i].id == id && w.stats.Covers(w.log[i]) && w.stats.ledger[id].mark == w.log[i].At()
  }

  ghost predicate CheckpointOk(w: Workspace) {
    && (w.stats.checkpoint.Some? ==> exists i :: StandsAt(w, w.stats.checkpoint.value, i))
    && (forall i {:trigger Counted(w, i)} :: 0 <= i < w.settled && i < |w.log| ==> Counted(w, i))
    && (forall id {:trigger id in w.stats.ledger} :: id in w.stats.ledger ==> exists i :: Entered(w, id, i))
  }

  /** The total of those of the first n events that are statistics at or below the checkpoint. */
  function CoveredSum(g: Statistics, log: seq<Event>, n: nat): Counter
    requires n <= |log|
  {
    if n == 0 then Counter(0, 0)
    else
      var rest, e := CoveredSum(g, log, n - 1), log[n - 1];
      if e.Stats() && g.Covers(e) then rest.Plus(e.Amount()) else rest
  }

  ghost predicate CounterOk(w: Workspace, base: Counter) {
    w.stats.counter == base.Plus(CoveredSum(w.stats, w.log, |w.log|))
  }

  ghost predicate Global(w: Workspace, base: Counter) { CopiesOk(w) && CheckpointOk(w) && CounterOk(w, base) }

  ghost predicate Consistent(w: Workspace, base: Counter) { Regional(w) && Global(w, base) }

  lemma StartsConsistent(base: Counter)
    ensures Consistent(Unplaced(base), base)
  {
  }

  // ---- Positions ------------------------------------------------------------------------------

  lemma LogOrder(w: Workspace, i: int, j: int)
    requires LogOk(w) && 0 <= i < |w.log| && 0 <= j < |w.log|
    ensures w.log[i].id == w.log[j].id ==> i == j
    ensures w.log[i].sequence <= w.log[j].sequence ==> i <= j
    ensures w.log[i].At().AtMost(w.log[j].At()) <==> i <= j
  {
    if i < j {
      assert Before(w.log[i], w.log[j]);
    } else if j < i {
      assert Before(w.log[j], w.log[i]);
    }
  }

  /** Where a row stands in the history. */
  lemma RowPlace(w: Workspace, region: string, id: string) returns (i: int)
    requires RowsOk(w) && id in CellOf(w, region).outbox
    ensures Matches(w, region, CellOf(w, region).outbox[id], i) && CellOf(w, region).outbox[id].event.id == id
  {
    assert RowOk(w, region, id);
    i :| Matches(w, region, CellOf(w, region).outbox[id], i);
  }

  /** A pending row that no earlier one precedes is the first unsettled event. */
  lemma EarliestIsNext(w: Workspace, region: string, id: string)
    requires Regional(w) && Pending(CellOf(w, region), id) && Earliest(CellOf(w, region), id)
    ensures Matches(w, region, CellOf(w, region).outbox[id], w.settled)
  {
    var i := RowPlace(w, region, id);
    assert Waits(w, w.settled);
    LogOrder(w, i, w.settled);
  }

  lemma ClaimedIsNext(w: Workspace, region: string, id: string)
    requires Regional(w) && Pending(CellOf(w, region), id) && CellOf(w, region).outbox[id].claim.Some?
    ensures Matches(w, region, CellOf(w, region).outbox[id], w.settled) && CellOf(w, region).outbox[id].event.id == id
  {
    var i := RowPlace(w, region, id);
  }

  lemma FirstWaits(w: Workspace)
    requires Regional(w) && w.placement.Some? && w.settled < |w.log|
    ensures Waits(w, w.settled)
  {
  }

  /** Every event enqueued has passed when the owner's outbox is drained. */
  lemma DrainedMeansSettled(w: Workspace)
    requires Regional(w) && w.placement.Some? && Drained(CellOf(w, Owner(w.placement.value)))
    ensures w.settled == |w.log|
  {
    if w.settled < |w.log| {
      FirstWaits(w);
    }
  }

  // ---- Actions on the regional side -----------------------------------------------------------

  /** The placement changes but the owner's cell and the events do not. */
  lemma PlacementSteps(w: Workspace, a: Action)
    requires Regional(w) && Enabled(w, a) && (a.Place? || a.BeginMove?)
    ensures Regional(Step(w, a))
  {
    var w' := Step(w, a);
    forall region, id | id in CellOf(w', region).outbox ensures RowOk(w', region, id) {
      var i := RowPlace(w, region, id);
      assert Matches(w', region, CellOf(w', region).outbox[id], i);
    }
    if a.BeginMove? {
      forall i | 0 <= w'.settled <= i < |w'.log| ensures Waits(w', i) {
        assert Waits(w, i);
      }
    }
  }

  lemma ClaimKeeps(w: Workspace, a: Action)
    requires Regional(w) && Enabled(w, a) && (a.ClaimRow? || a.GiveUp?)
    ensures Regional(Step(w, a))
  {
    var w' := Step(w, a);
    if a.ClaimRow? {
      EarliestIsNext(w, a.region, a.id);
    }
    forall region, id | id in CellOf(w', region).outbox ensures RowOk(w', region, id) {
      var i := RowPlace(w, region, id);
      if a.ClaimRow? { LogOrder(w, i, w.settled); }
      assert Matches(w', region, CellOf(w', region).outbox[id], i);
    }
    WaitingCarried(w, w');
  }

  /** What still waits keeps waiting when pending rows only change their claims. */
  lemma WaitingCarried(w: Workspace, w': Workspace)
    requires Regional(w) && w'.log == w.log && w.settled <= w'.settled && w'.placement == w.placement
    requires w.settled < w'.settled ==> w.settled < |w.log|
    requires w.placement.Some? ==>
      var c, c' := CellOf(w, Owner(w.placement.value)), CellOf(w', Owner(w.placement.value));
      forall id :: Pending(c, id) && (w.settled < w'.settled ==> id != w.log[w.settled].id) ==>
        Pending(c', id) && c'.outbox[id].event == c.outbox[id].event
    ensures NothingLost(w')
  {
    if w.placement.Some? {
      forall i | 0 <= w'.settled <= i < |w'.log| ensures Waits(w', i) {
        assert Waits(w, i);
        if w.settled < w'.settled { LogOrder(w, w.settled, i); }
      }
    }
  }

  lemma AcknowledgeKeeps(w: Workspace, a: Action)
    requires Regional(w) && Enabled(w, a) && a.Acknowledge?
    ensures Regional(Step(w, a))
  {
    var w' := Step(w, a);
    ClaimedIsNext(w, a.region, a.id);
    forall region, id | id in CellOf(w', region).outbox ensures RowOk(w', region, id) {
      var i := RowPlace(w, region, id);
      LogOrder(w, i, w.settled);
      assert i == w.settled ==> id == a.id && region == a.region;
      assert Matches(w', region, CellOf(w', region).outbox[id], i);
    }
    WaitingCarried(w, w');
  }

  lemma CleanKeeps(w: Workspace, a: Action)
    requires Regional(w) && Enabled(w, a) && (a.CleanOutbox? || a.Quiesce?)
    ensures Regional(Step(w, a))
  {
    var w' := Step(w, a);
    forall region, id | id in CellOf(w', region).outbox ensures RowOk(w', region, id) {
      var i := RowPlace(w, region, id);
      assert Matches(w', region, CellOf(w', region).outbox[id], i);
    }
    WaitingCarried(w, w');
  }

  lemma EnqueueKeeps(w: Workspace, a: Action)
    requires Regional(w) && Enabled(w, a) && a.Enqueue?
    ensures Regional(Step(w, a))
  {
    var w' := Step(w, a);
    var n := |w.log|;
    forall i, j | 0 <= i < j < |w'.log| ensures Before(w'.log[i], w'.log[j]) {
      if j < n {
        assert Before(w.log[i], w.log[j]);
      } else {
        LogOrder(w, i, n - 1);
        assert w.log[i] in w.log;
        if i < n - 1 { assert Before(w.log[i], w.log[n - 1]); }
      }
    }
    forall region, id | id in CellOf(w', region).outbox ensures RowOk(w', region, id) {
      if region == a.region && id == a.id {
        assert Matches(w', region, CellOf(w', region).outbox[id], n);
      } else {
        var i := RowPlace(w, region, id);
        assert Matches(w', region, CellOf(w', region).outbox[id], i);
      }
    }
    forall i | 0 <= w'.settled <= i < |w'.log| ensures Waits(w', i) {
      if i < n {
        assert Waits(w, i) && w.log[i] in w.log;
      }
    }
  }

  lemma MoveKeeps(w: Workspace, a: Action)
    requires Regional(w) && Enabled(w, a) && (a.CopyRows? || a.Activate? || a.Rollback?)
    ensures Regional(Step(w, a))
  {
    var w', p := Step(w, a), w.placement.value;
    if a.CopyRows? {
      DrainedMeansSettled(w);
    }
    forall region, id | id in CellOf(w', region).outbox ensures RowOk(w', region, id) {
      var r := if a.CopyRows? && region == p.target then p.source else region;
      var i := RowPlace(w, r, id);
      assert Matches(w', region, CellOf(w', region).outbox[id], i);
    }
    if !a.Activate? {
      WaitingMoved(w, w');
    }
  }

  lemma WaitingMoved(w: Workspace, w': Workspace)
    requires Regional(w) && w'.log == w.log && w.settled == w'.settled && w'.placement.Some? && w.placement.Some?
    requires Owner(w'.placement.value) == Owner(w.placement.value)
    requires CellOf(w', Owner(w.placement.value)).outbox == CellOf(w, Owner(w.placement.value)).outbox
    ensures NothingLost(w')
  {
    forall i | 0 <= w'.settled <= i < |w'.log| ensures Waits(w', i) {
      assert Waits(w, i);
    }
  }

  lemma RegionalKeeps(w: Workspace, a: Action)
    requires Regional(w) && Enabled(w, a)
    ensures Regional(Step(w, a))
  {
    match a {
      case Place(_, _) => PlacementSteps(w, a);
      case BeginMove(_, _) => PlacementSteps(w, a);
      case Enqueue(_, _, _, _) => EnqueueKeeps(w, a);
      case ClaimRow(_, _, _, _, _) => ClaimKeeps(w, a);
      case GiveUp(_, _, _) => ClaimKeeps(w, a);
      case Acknowledge(_, _, _, _) => AcknowledgeKeeps(w, a);
      case CleanOutbox(_, _) => CleanKeeps(w, a);
      case Quiesce => CleanKeeps(w, a);
      case CopyRows => MoveKeeps(w, a);
      case Activate(_) => MoveKeeps(w, a);
      case Rollback(_) => MoveKeeps(w, a);
      case _ => SameRegions(w, Step(w, a));
    }
  }

  lemma SameRegions(w: Workspace, w': Workspace)
    requires Regional(w) && w'.cells == w.cells && w'.placement == w.placement && w'.log == w.log &&
      w'.settled == w.settled
    ensures Regional(w')
  {
    forall region, id | id in CellOf(w', region).outbox ensures RowOk(w', region, id) {
      var i := RowPlace(w, region, id);
      assert Matches(w', region, CellOf(w', region).outbox[id], i);
    }
    WaitingCarried(w, w');
  }

  // ---- Actions on the global side ---------------------------------------------------------------

  lemma CopyCarried(w: Workspace, w': Workspace, c: Copy)
    requires w.log <= w'.log && w.settled <= w'.settled && exists i :: CopyOf(w, c, i)
    ensures exists i :: CopyOf(w', c, i)
  {
    var i :| CopyOf(w, c, i);
    assert CopyOf(w', c, i);
  }

  /** Statistics untouched; the history may grow, and what becomes settled is covered. */
  lemma CheckpointCarried(w: Workspace, w': Workspace)
    requires CheckpointOk(w) && w'.stats == w.stats && w.log <= w'.log && w.settled <= w'.settled
    requires forall i :: w.settled <= i < w'.settled && i < |w'.log| && w'.log[i].Stats() ==> w'.stats.Covers(w'.log[i])
    requires w.settled <= |w.log|
    ensures CheckpointOk(w')
  {
    if w.stats.checkpoint.Some? {
      var i :| StandsAt(w, w.stats.checkpoint.value, i);
      assert StandsAt(w', w'.stats.checkpoint.value, i);
    }
    forall i | 0 <= i < w'.settled && i < |w'.log| ensures Counted(w', i) {
      if i < w.settled { assert Counted(w, i); }
    }
    forall id | id in w'.stats.ledger ensures exists i :: Entered(w', id, i) {
      var i :| Entered(w, id, i);
      assert Entered(w', id, i);
    }
  }

  /** Nothing past the first unsettled event is covered. */
  lemma CoverEnds(w: Workspace, j: int)
    requires LogOk(w) && CheckpointOk(w) && w.settled < j < |w.log|
    ensures !w.stats.Covers(w.log[j])
  {
    if w.stats.checkpoint.Some? {
      var i :| StandsAt(w, w.stats.checkpoint.value, i);
      LogOrder(w, j, i);
    }
  }

  lemma {:induction false} SumExtended(g: Statistics, log: seq<Event>, e: Event, n: nat)
    requires n <= |log|
    ensures CoveredSum(g, log + [e], n) == CoveredSum(g, log, n)
  {
    if 0 < n { SumExtended(g, log, e, n - 1); }
  }

  lemma EnqueueGlobal(w: Workspace, base: Counter, a: Action)
    requires Consistent(w, base) && Enabled(w, a) && a.Enqueue?
    ensures Global(Step(w, a), base)
  {
    var w' := Step(w, a);
    RegionalKeeps(w, a);
    forall c | c in w'.claimed ensures exists i :: CopyOf(w', c, i) { CopyCarried(w, w', c); }
    CheckpointCarried(w, w');
    var e := w'.log[|w.log|];
    SumExtended(w.stats, w.log, e, |w.log|);
    if w.stats.checkpoint.Some? {
      var i :| StandsAt(w, w.stats.checkpoint.value, i);
      LogOrder(w', |w.log|, i);
    }
  }

  /** A claimed row is the first unsettled one, so its copy is too. */
  lemma ClaimGlobal(w: Workspace, base: Counter, a: Action)
    requires Consistent(w, base) && Enabled(w, a) && a.ClaimRow?
    ensures Global(Step(w, a), base)
  {
    var w' := Step(w, a);
    EarliestIsNext(w, a.region, a.id);
    var copy := Copy(a.token, a.region, CellOf(w, a.region).outbox[a.id].event);
    forall c | c in w'.claimed ensures exists i :: CopyOf(w', c, i) {
      if c == copy {
        assert CopyOf(w', c, w.settled);
      } else {
        CopyCarried(w, w', c);
      }
    }
    CheckpointCarried(w, w');
  }

  lemma AcknowledgeGlobal(w: Workspace, base: Counter, a: Action)
    requires Consistent(w, base) && Enabled(w, a) && a.Acknowledge?
    ensures Global(Step(w, a), base)
  {
    var w' := Step(w, a);
    ClaimedIsNext(w, a.region, a.id);
    forall c | c in w'.claimed ensures exists i :: CopyOf(w', c, i) { CopyCarried(w, w', c); }
    CheckpointCarried(w, w');
  }

  /** Where the event of a cleared copy stands. */
  lemma CopyPlace(w: Workspace, c: Copy) returns (i: int)
    requires CopiesOk(w) && c in w.cleared
    ensures CopyOf(w, c, i)
  {
    assert c in w.claimed;
    i :| CopyOf(w, c, i);
  }

  /** A recorded event has been counted. */
  lemma RecordedIsCovered(w: Workspace, i: int)
    requires LogOk(w) && CheckpointOk(w) && 0 <= i < |w.log| && w.log[i].id in w.stats.ledger
    ensures w.stats.Covers(w.log[i])
  {
    var j :| Entered(w, w.log[i].id, j);
    LogOrder(w, i, j);
  }

  /** Moving the checkpoint to the i-th event adds that event alone. */
  lemma {:induction false} AdvanceSum(w: Workspace, g: Statistics, s: int, n: nat)
    requires LogOk(w) && CheckpointOk(w) && 0 <= s < |w.log| && s == w.settled && n <= |w.log|
    requires w.log[s].Stats() && !w.stats.Covers(w.log[s]) && g.checkpoint == Some(w.log[s].At())
    ensures CoveredSum(g, w.log, n) ==
      (if s < n then CoveredSum(w.stats, w.log, n).Plus(w.log[s].Amount()) else CoveredSum(w.stats, w.log, n))
    decreases n
  {
    if 0 < n {
      AdvanceSum(w, g, s, n - 1);
      LogOrder(w, n - 1, s);
      if n - 1 < s {
        assert Counted(w, n - 1);
      } else if s < n - 1 {
        CoverEnds(w, n - 1);
      }
    }
  }

  /** A copy that advances the checkpoint is of the first unsettled event. */
  lemma AdvancerIsNext(w: Workspace, c: Copy)
    requires LogOk(w) && CopiesOk(w) && CheckpointOk(w) && c in w.cleared
    requires c.event.Stats() && c.event.id !in w.stats.ledger && !w.stats.Covers(c.event)
    ensures w.settled < |w.log| && w.log[w.settled] == c.event
  {
    var i := CopyPlace(w, c);
    if i < w.settled {
      SettledIsCovered(w, i);
    }
  }

  lemma SettledIsCovered(w: Workspace, i: int)
    requires CheckpointOk(w) && 0 <= i < w.settled && i < |w.log|
    ensures w.log[i].Stats() ==> w.stats.Covers(w.log[i])
  {
    assert Counted(w, i);
  }

  lemma AdvanceGlobal(w: Workspace, base: Counter, a: Action)
    requires Consistent(w, base) && Enabled(w, a) && a.ApplyEffect?
    requires a.copy.event.Stats() && a.copy.event.id !in w.stats.ledger && !w.stats.Covers(a.copy.event)
    ensures Global(Step(w, a), base)
  {
    var w', s := Step(w, a), w.settled;
    AdvancerIsNext(w, a.copy);
    AdvanceSum(w, w'.stats, s, |w.log|);
    forall c | c in w'.claimed ensures exists i :: CopyOf(w', c, i) { CopyCarried(w, w', c); }
    assert StandsAt(w', w'.stats.checkpoint.value, s);
    forall i | 0 <= i < w'.settled && i < |w'.log| ensures Counted(w', i) {
      assert Counted(w, i);
    }
    forall id | id in w'.stats.ledger ensures exists i :: Entered(w', id, i) {
      if id == a.copy.event.id {
        assert Entered(w', id, s);
      } else {
        var i :| Entered(w, id, i);
        assert Entered(w', id, i);
      }
    }
  }

  /** An event already recorded, or already passed by the checkpoint, is not counted again. */
  lemma RepeatGlobal(w: Workspace, base: Counter, a: Action)
    requires Consistent(w, base) && Enabled(w, a) && a.ApplyEffect?
    requires a.copy.event.Stats() ==> a.copy.event.id in w.stats.ledger || w.stats.Covers(a.copy.event)
    ensures Global(Step(w, a), base)
  {
    var w' := Step(w, a);
    var n := CopyPlace(w, a.copy);
    if a.copy.event.Stats() && a.copy.event.id in w.stats.ledger { RecordedIsCovered(w, n); }
    forall c | c in w'.claimed ensures exists i :: CopyOf(w', c, i) { CopyCarried(w, w', c); }
    if w.stats.checkpoint.Some? {
      var i :| StandsAt(w, w.stats.checkpoint.value, i);
      assert StandsAt(w', w'.stats.checkpoint.value, i);
    }
    forall i | 0 <= i < w'.settled && i < |w'.log| ensures Counted(w', i) {
      assert Counted(w, i);
    }
    forall id | id in w'.stats.ledger ensures exists i :: Entered(w', id, i) {
      if id in w.stats.ledger {
        var i :| Entered(w, id, i);
        assert Entered(w', id, i);
      } else {
        assert Entered(w', id, n);
      }
    }
    SameCover(w.stats, w'.stats, w.log, |w.log|);
  }

  lemma {:induction false} SameCover(g: Statistics, h: Statistics, log: seq<Event>, n: nat)
    requires g.checkpoint == h.checkpoint && n <= |log|
    ensures CoveredSum(g, log, n) == CoveredSum(h, log, n)
  {
    if 0 < n { SameCover(g, h, log, n - 1); }
  }

  /** The statements that leave the global side and the history alone. */
  lemma QuietGlobal(w: Workspace, w': Workspace, base: Counter)
    requires LogOk(w) && Global(w, base) && w'.log == w.log && w'.settled == w.settled
    requires w'.claimed == w.claimed && w.cleared <= w'.cleared <= w.claimed && w'.applied == w.applied
    requires w'.stats.checkpoint == w.stats.checkpoint && w'.stats.counter == w.stats.counter
    requires forall id :: id in w'.stats.ledger ==> id in w.stats.ledger && w'.stats.ledger[id] == w.stats.ledger[id]
    ensures Global(w', base)
  {
    forall c | c in w'.claimed ensures exists i :: CopyOf(w', c, i) { CopyCarried(w, w', c); }
    if w.stats.checkpoint.Some? {
      var i :| StandsAt(w, w.stats.checkpoint.value, i);
      assert StandsAt(w', w'.stats.checkpoint.value, i);
    }
    forall i | 0 <= i < w'.settled && i < |w'.log| ensures Counted(w', i) {
      assert Counted(w, i);
    }
    forall id | id in w'.stats.ledger ensures exists i :: Entered(w', id, i) {
      var i :| Entered(w, id, i);
      assert Entered(w', id, i);
    }
    SameCover(w.stats, w'.stats, w.log, |w.log|);
  }

  // ---- Every run --------------------------------------------------------------------------------

  /** One action keeps the outbox and the statistics consistent. */
  lemma StepKeeps(w: Workspace, base: Counter, a: Action)
    requires Consistent(w, base) && Enabled(w, a)
    ensures Consistent(Step(w, a), base)
  {
    RegionalKeeps(w, a);
    if a.Enqueue? {
      EnqueueGlobal(w, base, a);
    } else if a.ClaimRow? {
      ClaimGlobal(w, base, a);
    } else if a.Acknowledge? {
      AcknowledgeGlobal(w, base, a);
    } else if a.ApplyEffect? {
      if a.copy.event.Stats() && a.copy.event.id !in w.stats.ledger && !w.stats.Covers(a.copy.event) {
        AdvanceGlobal(w, base, a);
      } else {
        RepeatGlobal(w, base, a);
      }
    } else {
      QuietGlobal(w, Step(w, a), base);
    }
  }

  lemma {:induction false} RunKeeps(w: Workspace, base: Counter, actions: seq<Action>)
    requires Consistent(w, base) && PossibleRun(w, actions)
    ensures Consistent(Run(w, actions), base)
    decreases |actions|
  {
    if actions != [] {
      StepKeeps(w, base, actions[0]);
      RunKeeps(Step(w, actions[0]), base, actions[1..]);
    }
  }
}
