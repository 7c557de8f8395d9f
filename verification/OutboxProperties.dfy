/** What holds of every run of the outbox: statistics counted exactly once, rows settled in
    order, sequences never reused and superseded epochs fenced out. */
module OutboxProperties {
  import opened Sequences
  import opened Outbox
  import opened OutboxInvariant

  // ---- Superseded epochs ------------------------------------------------------------------------

  /** Activation, or rolling back, makes every event enqueued before it stale. */
  lemma ActivationSupersedes(w: Workspace, base: Counter, a: Action)
    requires Consistent(w, base) && Enabled(w, a) && (a.Activate? || a.Rollback?)
    ensures Step(w, a).placement.Some?
    ensures forall e :: e in w.log ==> e.epoch < Stamp(Step(w, a).placement.value)
  {
  }

  // ---- Totals -----------------------------------------------------------------------------------

  /** The sum of the statistics events among the first n. */
  function Total(log: seq<Event>, n: nat): Counter
    requires n <= |log|
  {
    if n == 0 then Counter(0, 0) else Total(log, n - 1).Plus(log[n - 1].Amount())
  }

  /** How many events are counted: the settled ones, and the next when its effect is in. */
  function Frontier(w: Workspace): (n: nat)
    requires w.settled <= |w.log|
    ensures n <= |w.log|
  {
    if w.settled < |w.log| && w.log[w.settled].Stats() && w.stats.Covers(w.log[w.settled]) then w.settled + 1
    else w.settled
  }

  lemma {:induction false} SumToFrontier(w: Workspace, n: nat)
    requires LogOk(w) && CheckpointOk(w) && n <= |w.log|
    ensures CoveredSum(w.stats, w.log, n) == Total(w.log, if n <= Frontier(w) then n else Frontier(w))
    decreases n
  {
    if 0 < n {
      SumToFrontier(w, n - 1);
      if n - 1 < w.settled {
        SettledIsCovered(w, n - 1);
      } else if w.settled < n - 1 {
        CoverEnds(w, n - 1);
      }
    }
  }

  /** After any run the counters are the starting total plus every statistics event at or
      below the checkpoint; those are the settled events and at most the next one. */
  lemma ExactlyOnceTotals(base: Counter, actions: seq<Action>)
    requires PossibleRun(Unplaced(base), actions)
    ensures var w := Run(Unplaced(base), actions);
      && w.settled <= |w.log|
      && w.stats.counter == base.Plus(CoveredSum(w.stats, w.log, |w.log|))
      && w.stats.counter == base.Plus(Total(w.log, Frontier(w)))
  {
    StartsConsistent(base);
    RunKeeps(Unplaced(base), base, actions);
    var w := Run(Unplaced(base), actions);
    SumToFrontier(w, |w.log|);
  }

  /** How often skills were used, and by how much their number changed, in the first n events. */
  function Uses(log: seq<Event>, n: nat): int
    requires n <= |log|
  {
    if n == 0 then 0
    else Uses(log, n - 1) + match log[n - 1].payload case AgentSkillUsed(k) => k case _ => 0
  }

  function SkillsAdded(log: seq<Event>, n: nat): int
    requires n <= |log|
  {
    if n == 0 then 0
    else SkillsAdded(log, n - 1) + match log[n - 1].payload case SkillCountChanged(k) => k case _ => 0
  }

  lemma {:induction false} TotalByKind(log: seq<Event>, n: nat)
    requires n <= |log|
    ensures Total(log, n) == Counter(Uses(log, n), SkillsAdded(log, n))
  {
    if 0 < n { TotalByKind(log, n - 1); }
  }

  /** After any run each counter is its starting value plus the amounts of its own kind of event. */
  lemma CountersByKind(base: Counter, actions: seq<Action>)
    requires PossibleRun(Unplaced(base), actions)
    ensures var w := Run(Unplaced(base), actions);
      && w.settled <= |w.log| && w.settled <= Frontier(w) <= w.settled + 1
      && w.stats.counter.uses == base.uses + Uses(w.log, Frontier(w))
      && w.stats.counter.skills == base.skills + SkillsAdded(w.log, Frontier(w))
  {
    ExactlyOnceTotals(base, actions);
    TotalByKind(Run(Unplaced(base), actions).log, Frontier(Run(Unplaced(base), actions)));
  }

  // ---- Single statements ------------------------------------------------------------------------

  /** A claimed row is held by its claimant alone. */
  lemma HeldByClaimant(w: Workspace, region: string, id: string, token: string, now: int, lease: nat, other: string)
    requires Enabled(w, ClaimRow(region, id, token, now, lease))
    ensures Holds(CellOf(Step(w, ClaimRow(region, id, token, now, lease)), region), id, other) <==> other == token
  {
  }

  /** The allocated sequence is the least positive one beyond all that the cell knows. */
  lemma LeastSequence(c: Cell, n: int, m: int)
    requires Allocated(c, n) && 0 < m && (c.lastSequence.Some? ==> c.lastSequence.value < m)
    requires forall k :: k in c.outbox ==> c.outbox[k].event.sequence < m
    ensures 0 < n <= m && (c.lastSequence.Some? ==> c.lastSequence.value < n)
    ensures forall k :: k in c.outbox ==> c.outbox[k].event.sequence < n
  {
  }

  /** Every placement write raises the epoch, that of the move included; the first is positive. */
  lemma PlacementEpochRises(w: Workspace, a: Action)
    requires Enabled(w, a) && Step(w, a).placement != w.placement && !a.CopyRows?
    ensures Step(w, a).placement.Some?
    ensures (if w.placement.Some? then w.placement.value.epoch else 0) < Step(w, a).placement.value.epoch
  {
  }

  /** Epoch first, then sequence. */
  ghost predicate NoLater(m: Mark, c: Mark) {
    m.epoch < c.epoch || (m.epoch == c.epoch && m.sequence <= c.sequence)
  }

  /** Cleanup drops processed rows, and ledger entries no later than the checkpoint, and no others. */
  lemma CleanedIsDone(w: Workspace, a: Action)
    requires Enabled(w, a)
    ensures a.CleanOutbox? ==> CellOf(Step(w, a), a.region).outbox == CellOf(w, a.region).outbox - a.ids
    ensures a.CleanOutbox? ==>
      forall k :: k in a.ids ==> k in CellOf(w, a.region).outbox && CellOf(w, a.region).outbox[k].processedAt != None
    ensures a.CleanLedger? ==> Step(w, a).stats.ledger == w.stats.ledger - a.ids
    ensures a.CleanLedger? && a.ids != {} ==> w.stats.checkpoint != None
    ensures a.CleanLedger? ==> forall k :: k in a.ids ==>
      k in w.stats.ledger && NoLater(w.stats.ledger[k].mark, w.stats.checkpoint.value)
  {
  }

  /** Only a claimed event of the region and epoch in force passes the fencing check. */
  lemma ClearedInForce(w: Workspace, c: Copy)
    requires w.placement.Some?
    ensures w.placement.value.Active? ==>
      (Enabled(w, FenceCheck(c)) <==>
        c in w.claimed && c.region == w.placement.value.region && c.event.epoch == w.placement.value.epoch)
    ensures w.placement.value.Moving? ==>
      (Enabled(w, FenceCheck(c)) <==>
        c in w.claimed && c.region == w.placement.value.source && c.event.epoch == w.placement.value.sourceEpoch)
  {
  }

  // ---- Each event counted once ----------------------------------------------------------------

  /** The statement moves the checkpoint, and so adds to the counters. */
  predicate Counts(w: Workspace, a: Action, e: Event)
    requires Enabled(w, a)
  {
    a.ApplyEffect? && a.copy.event == e && Step(w, a).stats.checkpoint != w.stats.checkpoint
  }

  /** How often a run counts an event. */
  function TimesCounted(w: Workspace, actions: seq<Action>, e: Event): nat
    requires PossibleRun(w, actions)
    decreases |actions|
  {
    if actions == [] then 0
    else (if Counts(w, actions[0], e) then 1 else 0) + TimesCounted(Step(w, actions[0]), actions[1..], e)
  }

  predicate InTotal(w: Workspace, e: Event) { e in w.log && e.Stats() && w.stats.Covers(e) }

  /** The counters change only by the amount of the event being counted. */
  lemma OnlyCountingAdds(w: Workspace, a: Action)
    requires Enabled(w, a)
    ensures Step(w, a).stats.counter ==
      if a.ApplyEffect? && Counts(w, a, a.copy.event) then w.stats.counter.Plus(a.copy.event.Amount())
        else w.stats.counter
    ensures a.ApplyEffect? && Counts(w, a, a.copy.event) ==>
      Step(w, a).stats.checkpoint == Some(Mark(a.copy.event.epoch, a.copy.event.sequence))
  {
  }

  /** One action brings an event into the total exactly when it counts it. */
  lemma CountedByStep(w: Workspace, base: Counter, a: Action, e: Event)
    requires Consistent(w, base) && Enabled(w, a)
    ensures InTotal(Step(w, a), e) <==> InTotal(w, e) || Counts(w, a, e)
    ensures !(InTotal(w, e) && Counts(w, a, e))
  {
    if a.Enqueue? {
      EnqueuedNotCovered(w, base, a);
    } else if a.ApplyEffect? && Step(w, a).stats.checkpoint != w.stats.checkpoint {
      CountedByAdvance(w, base, a, e);
    }
  }

  lemma CountedByAdvance(w: Workspace, base: Counter, a: Action, e: Event)
    requires Consistent(w, base) && Enabled(w, a) && a.ApplyEffect? && Step(w, a).stats.checkpoint != w.stats.checkpoint
    ensures InTotal(Step(w, a), e) <==> InTotal(w, e) || Counts(w, a, e)
    ensures !(InTotal(w, e) && Counts(w, a, e))
  {
    AdvancerIsNext(w, a.copy);
    if e in w.log && e.Stats() {
      var i :| 0 <= i < |w.log| && w.log[i] == e;
      LogOrder(w, i, w.settled);
      CoveredByAdvance(w, Step(w, a), i);
    }
  }

  lemma EnqueuedNotCovered(w: Workspace, base: Counter, a: Action)
    requires Consistent(w, base) && Enabled(w, a) && a.Enqueue?
    ensures !w.stats.Covers(Step(w, a).log[|w.log|])
  {
    var w' := Step(w, a);
    RegionalKeeps(w, a);
    if w.stats.checkpoint.Some? {
      var i :| StandsAt(w, w.stats.checkpoint.value, i);
      LogOrder(w', |w.log|, i);
    }
  }

  lemma CoveredByAdvance(w: Workspace, w': Workspace, i: int)
    requires LogOk(w) && CheckpointOk(w) && w.settled < |w.log| && 0 <= i < |w.log| && w.log[i].Stats()
    requires w'.stats.checkpoint == Some(w.log[w.settled].At()) && !w.stats.Covers(w.log[w.settled])
    ensures w'.stats.Covers(w.log[i]) <==> w.stats.Covers(w.log[i]) || i == w.settled
  {
    LogOrder(w, i, w.settled);
    if i < w.settled {
      SettledIsCovered(w, i);
    } else if w.settled < i {
      CoverEnds(w, i);
    }
  }

  lemma {:induction false} TimesCountedFrom(w: Workspace, base: Counter, actions: seq<Action>, e: Event)
    requires Consistent(w, base) && PossibleRun(w, actions)
    ensures TimesCounted(w, actions, e) + (if InTotal(w, e) then 1 else 0) ==
      (if InTotal(Run(w, actions), e) then 1 else 0)
    decreases |actions|
  {
    if actions != [] {
      StepKeeps(w, base, actions[0]);
      CountedByStep(w, base, actions[0], e);
      TimesCountedFrom(Step(w, actions[0]), base, actions[1..], e);
    }
  }

  /** Across lease expiry, stalled workers, redelivery, cleanup and moves, no event is counted
      twice, and every settled statistics event has been counted once. */
  lemma CountedExactlyOnce(base: Counter, actions: seq<Action>, e: Event)
    requires PossibleRun(Unplaced(base), actions)
    ensures var w, times := Run(Unplaced(base), actions), TimesCounted(Unplaced(base), actions, e);
      && times <= 1
      && (times == 1 <==> InTotal(w, e))
      && forall i :: 0 <= i < w.settled && i < |w.log| && w.log[i] == e && e.Stats() ==> times == 1
  {
    StartsConsistent(base);
    RunKeeps(Unplaced(base), base, actions);
    TimesCountedFrom(Unplaced(base), base, actions, e);
    var w := Run(Unplaced(base), actions);
    forall i | 0 <= i < w.settled && i < |w.log| && w.log[i] == e && e.Stats() ensures InTotal(w, e) {
      SettledIsCovered(w, i);
    }
  }

  // ---- Order ------------------------------------------------------------------------------------

  lemma RowPlaces(w: Workspace, r: string, id: string, r': string, id': string) returns (i: int, j: int)
    requires Regional(w) && id in CellOf(w, r).outbox && id' in CellOf(w, r').outbox
    ensures Matches(w, r, CellOf(w, r).outbox[id], i) && CellOf(w, r).outbox[id].event.id == id
    ensures Matches(w, r', CellOf(w, r').outbox[id'], j) && CellOf(w, r').outbox[id'].event.id == id'
    ensures i < j ==> CellOf(w, r).outbox[id].event.sequence < CellOf(w, r').outbox[id'].event.sequence
  {
    i := RowPlace(w, r, id);
    j := RowPlace(w, r', id');
    LogOrder(w, j, i);
  }

  /** After any run, in all regions together: a processed row precedes every pending one; and
      a pending row that is claimed precedes every other pending one. */
  lemma RowsSettleInOrder(base: Counter, actions: seq<Action>, r: string, id: string, r': string, id': string)
    requires PossibleRun(Unplaced(base), actions)
    ensures var w := Run(Unplaced(base), actions); var c, c' := CellOf(w, r), CellOf(w, r');
      id in c.outbox && id' in c'.outbox && Pending(c', id') ==>
        && (!Pending(c, id) ==> c.outbox[id].event.sequence < c'.outbox[id'].event.sequence)
        && (Pending(c, id) && c.outbox[id].claim.Some? ==>
             (r == r' && id == id') ||
               (c.outbox[id].event.sequence < c'.outbox[id'].event.sequence && c'.outbox[id'].claim.None?))
  {
    StartsConsistent(base);
    RunKeeps(Unplaced(base), base, actions);
    var w := Run(Unplaced(base), actions);
    if id in CellOf(w, r).outbox && id' in CellOf(w, r').outbox && Pending(CellOf(w, r'), id') {
      var i, j := RowPlaces(w, r, id, r', id');
    }
  }

  /** A row is claimed only when it is the first event not yet settled. */
  lemma OnlyTheNextIsClaimed(base: Counter, actions: seq<Action>, a: Action)
    requires PossibleRun(Unplaced(base), actions)
    requires a.ClaimRow? && Enabled(Run(Unplaced(base), actions), a)
    ensures var w := Run(Unplaced(base), actions);
      && w.settled < |w.log| && a.id == w.log[w.settled].id
      && w.placement.Some? && a.region == Owner(w.placement.value)
  {
    StartsConsistent(base);
    RunKeeps(Unplaced(base), base, actions);
    var w := Run(Unplaced(base), actions);
    EarliestIsNext(w, a.region, a.id);
    var i := RowPlace(w, a.region, a.id);
  }

  /** The sequence an enqueue allocates was never used before, whatever was cleaned up. */
  lemma SequencesNeverReused(base: Counter, actions: seq<Action>, a: Action)
    requires PossibleRun(Unplaced(base), actions)
    requires a.Enqueue? && Enabled(Run(Unplaced(base), actions), a)
    ensures var w := Run(Unplaced(base), actions); var w' := Step(w, a);
      && w.placement.Some? && |w'.log| == |w.log| + 1
      && w'.log[|w.log|] == Event(a.id, a.payload,
           if w.placement.value.Active? then w.placement.value.epoch else w.placement.value.sourceEpoch, a.sequence)
      && forall e :: e in w.log ==> e.sequence < w'.log[|w.log|].sequence && e.epoch <= w'.log[|w.log|].epoch
  {
    StartsConsistent(base);
    RunKeeps(Unplaced(base), base, actions);
    var w := Run(Unplaced(base), actions);
    RegionalKeeps(w, a);
    var w' := Step(w, a);
    forall e | e in w.log ensures e.sequence < w'.log[|w.log|].sequence && e.epoch <= w'.log[|w.log|].epoch {
      var i :| 0 <= i < |w.log| && w.log[i] == e;
      assert Before(w'.log[i], w'.log[|w.log|]);
    }
  }

  // ---- Moves ------------------------------------------------------------------------------------

  /** A workspace moves only with every event settled and counted. */
  lemma MovesDrained(base: Counter, actions: seq<Action>, a: Action)
    requires PossibleRun(Unplaced(base), actions)
    requires Enabled(Run(Unplaced(base), actions), a) && (a.CopyRows? || a.Activate?)
    ensures var w := Run(Unplaced(base), actions);
      w.settled == |w.log| && w.stats.counter == base.Plus(Total(w.log, |w.log|))
  {
    ExactlyOnceTotals(base, actions);
    StartsConsistent(base);
    RunKeeps(Unplaced(base), base, actions);
    var w := Run(Unplaced(base), actions);
    if a.CopyRows? { DrainedMeansSettled(w); }
  }

  lemma StampGrows(w: Workspace, a: Action)
    requires LogOk(w) && Enabled(w, a) && w.placement.Some?
    ensures Step(w, a).placement.Some? && Stamp(w.placement.value) <= Stamp(Step(w, a).placement.value)
  {
  }

  /** Once the epoch has moved on, no event of an earlier one passes the fencing check again. */
  lemma {:induction false} StaleEpochsFencedOut(w: Workspace, base: Counter, actions: seq<Action>, c: Copy)
    requires Consistent(w, base) && PossibleRun(w, actions)
    requires w.placement.Some? && c.event.epoch < Stamp(w.placement.value)
    ensures c in Run(w, actions).cleared ==> c in w.cleared
    decreases |actions|
  {
    if actions != [] {
      StepKeeps(w, base, actions[0]);
      StampGrows(w, actions[0]);
      StaleEpochsFencedOut(Step(w, actions[0]), base, actions[1..], c);
    }
  }
}
