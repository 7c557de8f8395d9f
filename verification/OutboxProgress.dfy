/** When a workspace's outbox can move on, and when it is stuck for good: first when a token is
    never used for a second claim of an event, as random tokens are not, then when it may be. */
module OutboxProgress {
  import opened Sequences
  import opened Outbox
  import opened OutboxInvariant

  /** A claim uses a token that has not claimed the same event before. */
  predicate FreshClaim(w: Workspace, a: Action)
    requires Enabled(w, a)
  {
    a.ClaimRow? ==> Copy(a.token, a.region, CellOf(w, a.region).outbox[a.id].event) !in w.claimed
  }

  predicate FreshRun(w: Workspace, actions: seq<Action>): (r: bool)
    ensures r ==> PossibleRun(w, actions)
    decreases |actions|
  {
    actions == [] ||
    (Enabled(w, actions[0]) && FreshClaim(w, actions[0]) && FreshRun(Step(w, actions[0]), actions[1..]))
  }

  /** The first unsettled event carries a superseded epoch, and nobody holds its row with a
      token that has it past the fencing check. */
  ghost predicate Stuck(w: Workspace) {
    && w.placement.Some? && w.settled < |w.log|
    && w.log[w.settled].epoch < Stamp(w.placement.value)
    && !Held(w)
  }

  /** Some worker of the owning region has the first unsettled event past the fencing check and
      still holds its row. */
  ghost predicate Held(w: Workspace)
    requires w.placement.Some? && w.settled < |w.log|
  {
    exists c :: c in w.cleared && c.region == Owner(w.placement.value) && c.event == w.log[w.settled] &&
      Holds(CellOf(w, c.region), c.event.id, c.token)
  }

  /** The first unsettled event carries a superseded epoch, and no worker of the owning region
      has a copy of it past the fencing check, whether or not it holds the row. */
  ghost predicate Stranded(w: Workspace) {
    && w.placement.Some? && w.settled < |w.log|
    && w.log[w.settled].epoch < Stamp(w.placement.value)
    && !InHand(w)
  }

  /** Some worker of the owning region has the first unsettled event past the fencing check. */
  ghost predicate InHand(w: Workspace)
    requires w.placement.Some? && w.settled < |w.log|
  {
    exists c :: c in w.cleared && c.region == Owner(w.placement.value) && c.event == w.log[w.settled]
  }

  // ---- A stuck outbox stays stuck -------------------------------------------------------------

  /** Only the first unsettled event is ever acknowledged, and only by a worker that has it. */
  lemma AcknowledgedInHand(w: Workspace, base: Counter, a: Action)
    requires Consistent(w, base) && Enabled(w, a) && a.Acknowledge?
    ensures w.placement.Some? && w.settled < |w.log| && Held(w) && InHand(w)
  {
    ClaimedIsNext(w, a.region, a.id);
    assert Copy(a.token, a.region, CellOf(w, a.region).outbox[a.id].event) in w.cleared;
  }

  /** Claiming the row anew gives it to a token that has not passed the check. */
  lemma ClaimStaysStuck(w: Workspace, base: Counter, a: Action)
    requires Consistent(w, base) && Stuck(w) && Enabled(w, a) && (a.ClaimRow? || a.GiveUp?) && FreshClaim(w, a)
    ensures Stuck(Step(w, a)) && Step(w, a).settled == w.settled
  {
    if a.ClaimRow? {
      EarliestIsNext(w, a.region, a.id);
    } else {
      ClaimedIsNext(w, a.region, a.id);
    }
  }

  lemma StepStaysStuck(w: Workspace, base: Counter, a: Action)
    requires Consistent(w, base) && Stuck(w) && Enabled(w, a) && FreshClaim(w, a)
    ensures Stuck(Step(w, a)) && Step(w, a).settled == w.settled
  {
    if a.Acknowledge? {
      AcknowledgedInHand(w, base, a);
    } else if a.ClaimRow? || a.GiveUp? {
      ClaimStaysStuck(w, base, a);
    } else if a.CopyRows? {
      DrainedMeansSettled(w);
    } else if a.Enqueue? {
      assert w.log[w.settled] in w.log;
    }
  }

  /** From a stuck state no run with fresh claims settles anything more. */
  lemma {:induction false} StuckForever(w: Workspace, base: Counter, actions: seq<Action>)
    requires Consistent(w, base) && Stuck(w) && FreshRun(w, actions)
    ensures Stuck(Run(w, actions)) && Run(w, actions).settled == w.settled
    decreases |actions|
  {
    if actions != [] {
      StepStaysStuck(w, base, actions[0]);
      StepKeeps(w, base, actions[0]);
      StuckForever(Step(w, actions[0]), base, actions[1..]);
    }
  }

  lemma StepStaysStranded(w: Workspace, base: Counter, a: Action)
    requires Consistent(w, base) && Stranded(w) && Enabled(w, a)
    ensures Stranded(Step(w, a)) && Step(w, a).settled == w.settled
  {
    if a.Acknowledge? { AcknowledgedInHand(w, base, a); }
  }

  /** From a stranded state no run settles anything more. */
  lemma {:induction false} StrandedForever(w: Workspace, base: Counter, actions: seq<Action>)
    requires Consistent(w, base) && Stranded(w) && PossibleRun(w, actions)
    ensures Stranded(Run(w, actions)) && Run(w, actions).settled == w.settled
    decreases |actions|
  {
    if actions != [] {
      StepStaysStranded(w, base, actions[0]);
      StepKeeps(w, base, actions[0]);
      StrandedForever(Step(w, actions[0]), base, actions[1..]);
    }
  }

  // ---- Any other outbox can move on -----------------------------------------------------------

  /** The first unsettled event can be claimed at any late enough moment. */
  lemma NextClaimable(w: Workspace, now: int)
    requires Regional(w) && w.placement.Some? && w.settled < |w.log|
    requires var c := CellOf(w, Owner(w.placement.value)); var id := w.log[w.settled].id;
      id in c.outbox && c.outbox[id].claim.Some? ==> c.outbox[id].claim.value.at < now
    ensures Claimable(CellOf(w, Owner(w.placement.value)), w.log[w.settled].id, now, 0)
    ensures CellOf(w, Owner(w.placement.value)).outbox[w.log[w.settled].id].event == w.log[w.settled]
  {
    var region, id := Owner(w.placement.value), w.log[w.settled].id;
    FirstWaits(w);
    forall k | k in CellOf(w, region).outbox && CellOf(w, region).outbox[k].processedAt.None?
      ensures w.log[w.settled].sequence <= CellOf(w, region).outbox[k].event.sequence
    {
      var i := RowPlace(w, region, k);
      LogOrder(w, w.settled, i);
      if w.settled < i { assert Before(w.log[w.settled], w.log[i]); }
    }
  }

  /** A worker that claims the event with its token, and has or gets it past the fencing
      check, can apply and acknowledge it. */
  lemma SettlesWith(w: Workspace, base: Counter, token: string) returns (actions: seq<Action>)
    requires Consistent(w, base) && w.placement.Some? && w.settled < |w.log|
    requires var p := w.placement.value; var e := w.log[w.settled];
      Copy(token, Owner(p), e) in w.cleared || e.epoch == Stamp(p)
    ensures PossibleRun(w, actions) && Run(w, actions).settled == w.settled + 1
    ensures Copy(token, Owner(w.placement.value), w.log[w.settled]) !in w.claimed ==> FreshRun(w, actions)
  {
    var region, e := Owner(w.placement.value), w.log[w.settled];
    var row := CellOf(w, region).outbox;
    var now := if e.id in row && row[e.id].claim.Some? then row[e.id].claim.value.at + 1 else 0;
    NextClaimable(w, now);
    var copy := Copy(token, region, e);
    var claim, check := ClaimRow(region, e.id, token, now, 0), FenceCheck(copy);
    var effect, done := ApplyEffect(copy, now), Acknowledge(region, e.id, token, now);
    var w1 := Step(w, claim);
    var w2 := if copy in w.cleared then w1 else Step(w1, check);
    var w3 := Step(w2, effect);
    assert Holds(CellOf(w3, region), e.id, token) && copy in w3.applied;
    Then(w3, done, []);
    Then(w2, effect, [done] + []);
    var rest := [effect] + ([done] + []);
    if copy !in w.cleared {
      Then(w1, check, rest);
      rest := [check] + rest;
    }
    Then(w, claim, rest);
    actions := [claim] + rest;
  }

  lemma Then(w: Workspace, a: Action, rest: seq<Action>)
    requires Enabled(w, a) && PossibleRun(Step(w, a), rest)
    ensures PossibleRun(w, [a] + rest) && Run(w, [a] + rest) == Run(Step(w, a), rest)
    ensures FreshRun(w, [a] + rest) <==> FreshClaim(w, a) && FreshRun(Step(w, a), rest)
  {
    assert ([a] + rest)[1..] == rest;
  }

  /** The worker that holds the event past the check applies and acknowledges it. */
  lemma HolderSettles(w: Workspace, base: Counter) returns (actions: seq<Action>)
    requires Consistent(w, base) && w.placement.Some? && w.settled < |w.log| && Held(w)
    ensures FreshRun(w, actions) && Run(w, actions).settled == w.settled + 1
  {
    var c :| c in w.cleared && c.region == Owner(w.placement.value) && c.event == w.log[w.settled] &&
      Holds(CellOf(w, c.region), c.event.id, c.token);
    FirstWaits(w);
    var effect, done := ApplyEffect(c, 0), Acknowledge(c.region, c.event.id, c.token, 0);
    var w1 := Step(w, effect);
    Then(w1, done, []);
    Then(w, effect, [done] + []);
    actions := [effect] + ([done] + []);
  }

  /** There is always a token that has claimed nothing yet. */
  lemma NewToken(copies: set<Copy>) returns (token: string)
    ensures forall c :: c in copies ==> |c.token| < |token|
  {
    if c :| c in copies {
      var other := NewToken(copies - {c});
      token := if |c.token| < |other| then other else c.token + "-";
    } else {
      token := "-";
    }
  }

  /** With an event left to settle, some run with fresh claims settles it exactly when the
      outbox is not stuck. */
  lemma ProgressUnlessStuck(w: Workspace, base: Counter)
    requires Consistent(w, base) && w.placement.Some? && w.settled < |w.log|
    ensures (exists actions :: FreshRun(w, actions) && w.settled < Run(w, actions).settled) <==> !Stuck(w)
  {
    if Stuck(w) {
      forall actions | FreshRun(w, actions) ensures Run(w, actions).settled == w.settled {
        StuckForever(w, base, actions);
      }
    } else if Held(w) {
      var actions := HolderSettles(w, base);
    } else {
      var token := NewToken(w.claimed);
      var actions := SettlesWith(w, base, token);
    }
  }

  /** When tokens may be repeated: with an event left to settle, some run settles it exactly
      when the outbox is not stranded. */
  lemma ProgressUnlessStranded(w: Workspace, base: Counter)
    requires Consistent(w, base) && w.placement.Some? && w.settled < |w.log|
    ensures (exists actions :: PossibleRun(w, actions) && w.settled < Run(w, actions).settled) <==> !Stranded(w)
  {
    if Stranded(w) {
      forall actions | PossibleRun(w, actions) ensures Run(w, actions).settled == w.settled {
        StrandedForever(w, base, actions);
      }
    } else {
      var token := "";
      if c :| c in w.cleared && c.region == Owner(w.placement.value) && c.event == w.log[w.settled] {
        token := c.token;
      }
      var actions := SettlesWith(w, base, token);
    }
  }

  // ---- How an outbox becomes stuck ------------------------------------------------------------

  /** Rolling a move back leaves the outbox stuck exactly when an event is left and nobody holds
      the first one past the fencing check. */
  lemma RollbackSticks(w: Workspace, base: Counter, a: Action)
    requires Consistent(w, base) && Enabled(w, a) && a.Rollback?
    ensures Stuck(Step(w, a)) <==> w.settled < |w.log| && !Held(w)
  {
    var w', source := Step(w, a), w.placement.value.source;
    assert w'.log == w.log && w'.cleared == w.cleared && CellOf(w', source).outbox == CellOf(w, source).outbox;
  }

  /** Otherwise it happens only to an event that such a worker holds: on losing its row, or on
      settling it with another such event behind it. */
  lemma OnlyLosingSticks(w: Workspace, base: Counter, a: Action)
    requires Consistent(w, base) && Enabled(w, a) && !Stuck(w) && Stuck(Step(w, a)) && !a.Rollback?
    ensures a.ClaimRow? || a.GiveUp? || a.Acknowledge?
    ensures w.settled < |w.log| && w.log[w.settled].epoch < Stamp(w.placement.value) && Held(w)
  {
    if a.Acknowledge? {
      AcknowledgedInHand(w, base, a);
      assert Before(w.log[w.settled], w.log[w.settled + 1]);
    } else if a.ClaimRow? {
      EarliestIsNext(w, a.region, a.id);
    } else if a.CopyRows? {
      DrainedMeansSettled(w);
    }
  }

  /** Rolling a move back strands the outbox exactly when an event is left that no worker of
      the source has past the fencing check. */
  lemma RollbackStrands(w: Workspace, base: Counter, a: Action)
    requires Consistent(w, base) && Enabled(w, a) && a.Rollback?
    ensures Stranded(Step(w, a)) <==> w.settled < |w.log| && !InHand(w)
  {
    var w' := Step(w, a);
    assert w'.log == w.log && w'.cleared == w.cleared;
  }

  /** Otherwise it happens only on settling the last event that a worker had in hand. */
  lemma OnlyRollbackStrands(w: Workspace, base: Counter, a: Action)
    requires Consistent(w, base) && Enabled(w, a) && !Stranded(w) && Stranded(Step(w, a))
    ensures a.Rollback? || (a.Acknowledge? && w.log[w.settled].epoch < Stamp(w.placement.value))
  {
    if a.Acknowledge? {
      AcknowledgedInHand(w, base, a);
      assert Before(w.log[w.settled], w.log[w.settled + 1]);
    }
  }

  // ---- When writes are accepted ---------------------------------------------------------------

  /** There is always a next sequence. */
  lemma NextSequence(c: Cell) returns (n: int)
    ensures Allocated(c, n)
  {
    n := Beyond(c, c.outbox.Keys, if c.lastSequence.Some? && 0 < c.lastSequence.value then c.lastSequence.value else 0);
  }

  lemma Beyond(c: Cell, ids: set<string>, last: nat) returns (n: int)
    requires ids <= c.outbox.Keys && (c.lastSequence.Some? ==> c.lastSequence.value <= last)
    requires forall k :: k in c.outbox && k !in ids ==> c.outbox[k].event.sequence <= last
    requires last == 0 || c.lastSequence == Some(last) ||
      exists k :: k in c.outbox && c.outbox[k].event.sequence == last
    ensures Allocated(c, n)
    decreases |ids|
  {
    if id :| id in ids {
      var s := c.outbox[id].event.sequence;
      n := Beyond(c, ids - {id}, if last < s then s else last);
    } else {
      n := last + 1;
    }
  }

  /** Where the workspace is placed a new event can be enqueued exactly while its cell is not fenced. */
  lemma EnqueueExactly(w: Workspace, region: string, id: string, payload: Payload)
    requires forall e :: e in w.log ==> e.id != id
    ensures (exists n :: Enabled(w, Enqueue(region, id, payload, n))) <==>
      w.placement.Some? && region == Owner(w.placement.value) && !CellOf(w, region).fenced
  {
    var n := NextSequence(CellOf(w, region));
    assert w.placement.Some? && region == Owner(w.placement.value) && !CellOf(w, region).fenced ==>
      Enabled(w, Enqueue(region, id, payload, n));
  }

  /** Quiescing stops writes; activating the target or rolling back accepts them again, in the
      target or in the source; and the rows are where the writes are. */
  lemma WritesFollowTheMove(w: Workspace, a: Action)
    requires Enabled(w, a) && w.placement.Some? && w.placement.value.Moving?
    ensures Step(w, a).placement.Some?
    ensures a.Quiesce? ==> CellOf(Step(w, a), w.placement.value.source).fenced
    ensures a.CopyRows? && w.placement.value.source != w.placement.value.target ==>
      CellOf(Step(w, a), w.placement.value.target).outbox == CellOf(w, w.placement.value.source).outbox
    ensures a.Activate? ==>
      Step(w, a).placement.value == Active(w.placement.value.target, a.next) &&
      CellOf(Step(w, a), w.placement.value.target) == CellOf(w, w.placement.value.target).(fenced := false)
    ensures a.Rollback? && w.placement.value.source != w.placement.value.target ==>
      Step(w, a).placement.value == Active(w.placement.value.source, a.next) &&
      CellOf(Step(w, a), w.placement.value.source) == CellOf(w, w.placement.value.source).(fenced := false) &&
      CellOf(Step(w, a), w.placement.value.target).outbox == map[]
  {
  }
}
