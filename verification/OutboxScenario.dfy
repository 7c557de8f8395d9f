/** Three runs of the outbox. In one a worker stalls past its lease, another settles the event,
    the ledger is cleaned, the stalled effect arrives late, and the workspace moves. In the
    others a move is rolled back with an event still waiting. */
module OutboxScenario {
  import opened Sequences
  import opened Outbox
  import opened OutboxProgress

  const USE := Event("e1", AgentSkillUsed(3), 1, 1)
  const SLOW := Copy("slow", "eu", USE)
  const QUICK := Copy("quick", "eu", USE)

  /** The first region's cell, holding the one row. */
  function Home(row: Row, fenced: bool): Cell { Cell(map["e1" := row], Some(1), fenced) }

  function Before(zero: Counter, row: Row, claimed: set<Copy>, cleared: set<Copy>): Workspace {
    Workspace(map["eu" := Home(row, false)], Some(Active("eu", 1)), Statistics(None, map[], zero), claimed, cleared,
      {}, [USE], 0)
  }

  /** Claiming the row again replaces the claim. */
  lemma Claims(zero: Counter, claim: Option<Claim>, claimed: set<Copy>, cleared: set<Copy>, token: string, now: int)
    requires claim.None? || claim.value.at < now - 60
    ensures Enabled(Before(zero, Row(USE, claim, None), claimed, cleared), ClaimRow("eu", "e1", token, now, 60))
    ensures Step(Before(zero, Row(USE, claim, None), claimed, cleared), ClaimRow("eu", "e1", token, now, 60)) ==
      Before(zero, Row(USE, Some(Claim(token, now)), None), claimed + {Copy(token, "eu", USE)}, cleared)
  {
    var w, row := Before(zero, Row(USE, claim, None), claimed, cleared), Row(USE, Some(Claim(token, now)), None);
    var w' := Step(w, ClaimRow("eu", "e1", token, now, 60));
    assert w.cells["eu"].outbox["e1" := row] == map["e1" := row];
    assert w'.cells == map["eu" := Home(row, false)];
  }

  lemma Starts(zero: Counter)
    ensures Enabled(Unplaced(zero), Place("eu", 1))
    ensures var w := Step(Unplaced(zero), Place("eu", 1));
      Enabled(w, Enqueue("eu", "e1", AgentSkillUsed(3), 1)) &&
      Step(w, Enqueue("eu", "e1", AgentSkillUsed(3), 1)) == Before(zero, Row(USE, None, None), {}, {})
  {
    var w := Step(Step(Unplaced(zero), Place("eu", 1)), Enqueue("eu", "e1", AgentSkillUsed(3), 1));
    assert w.cells == map["eu" := Home(Row(USE, None, None), false)];
  }

  /** Two workers come to hold the event past the fencing check. */
  lemma ClaimedTwice(zero: Counter) returns (actions: seq<Action>)
    ensures PossibleRun(Unplaced(zero), actions)
    ensures Run(Unplaced(zero), actions) ==
      Before(zero, Row(USE, Some(Claim("quick", 100)), None), {SLOW, QUICK}, {SLOW, QUICK})
  {
    var a2, a3, a4, a5 := ClaimRow("eu", "e1", "slow", 10, 60), FenceCheck(SLOW),
      ClaimRow("eu", "e1", "quick", 100, 60), FenceCheck(QUICK);
    Starts(zero);
    Claims(zero, None, {}, {}, "slow", 10);
    Claims(zero, Some(Claim("slow", 10)), {SLOW}, {SLOW}, "quick", 100);
    var w2 := Before(zero, Row(USE, None, None), {}, {});
    var w3 := Before(zero, Row(USE, Some(Claim("slow", 10)), None), {SLOW}, {});
    var w4 := Before(zero, Row(USE, Some(Claim("slow", 10)), None), {SLOW}, {SLOW});
    var w5 := Before(zero, Row(USE, Some(Claim("quick", 100)), None), {SLOW, QUICK}, {SLOW});
    assert {} + {SLOW} == {SLOW} && {SLOW} + {QUICK} == {SLOW, QUICK};
    assert Step(w3, a3) == w4;
    Then(w5, a5, []);
    Then(w4, a4, [a5] + []);
    Then(w3, a3, [a4] + ([a5] + []));
    Then(w2, a2, [a3] + ([a4] + ([a5] + [])));
    var rest := [a2] + ([a3] + ([a4] + ([a5] + [])));
    Then(Step(Unplaced(zero), Place("eu", 1)), Enqueue("eu", "e1", AgentSkillUsed(3), 1), rest);
    Then(Unplaced(zero), Place("eu", 1), [Enqueue("eu", "e1", AgentSkillUsed(3), 1)] + rest);
    actions := [Place("eu", 1)] + ([Enqueue("eu", "e1", AgentSkillUsed(3), 1)] + rest);
  }

  const DONE := Row(USE, None, Some(102))
  const BOTH := {SLOW, QUICK}

  function Counted(zero: Counter, ledger: map<string, Entry>): Statistics {
    Statistics(Some(USE.At()), ledger, zero.Plus(Counter(3, 0)))
  }

  function After(cells: map<string, Cell>, p: Placement, g: Statistics, applied: set<Copy>): Workspace {
    Workspace(cells, Some(p), g, BOTH, BOTH, applied, [USE], 1)
  }

  /** The quick worker settles the event; the ledger is cleaned; then the slow effect arrives. */
  lemma SettledThenLate(zero: Counter) returns (actions: seq<Action>)
    ensures var w := Before(zero, Row(USE, Some(Claim("quick", 100)), None), BOTH, BOTH);
      PossibleRun(w, actions) &&
      Run(w, actions) == After(map["eu" := Home(DONE, false)], Active("eu", 1),
        Counted(zero, map["e1" := Entry(USE.At(), 103)]), BOTH)
  {
    var a0, a1, a2, a3 := ApplyEffect(QUICK, 101), Acknowledge("eu", "e1", "quick", 102), CleanLedger({"e1"}),
      ApplyEffect(SLOW, 103);
    var w0 := Before(zero, Row(USE, Some(Claim("quick", 100)), None), BOTH, BOTH);
    var w1 := Step(w0, a0);
    assert w1.stats == Counted(zero, map["e1" := Entry(USE.At(), 101)]) && w1.applied == {QUICK};
    var w2 := Step(w1, a1);
    assert w1.cells["eu"].outbox["e1" := DONE] == map["e1" := DONE];
    assert w2.cells == map["eu" := Home(DONE, false)];
    var w3 := Step(w2, a2);
    assert w3.stats.ledger == map[];
    var w4 := Step(w3, a3);
    assert w4.applied == BOTH;
    Then(w3, a3, []);
    Then(w2, a2, [a3] + []);
    Then(w1, a1, [a2] + ([a3] + []));
    Then(w0, a0, [a1] + ([a2] + ([a3] + [])));
    actions := [a0] + ([a1] + ([a2] + ([a3] + [])));
  }

  function Underway(copied: bool): Placement { Moving("eu", 1, 2, "us", copied) }

  lemma MoveBegins(g: Statistics) returns (actions: seq<Action>)
    ensures var w := After(map["eu" := Home(DONE, false)], Active("eu", 1), g, BOTH);
      PossibleRun(w, actions) && Run(w, actions) == After(map["eu" := Home(DONE, true)], Underway(false), g, BOTH)
  {
    var w0 := After(map["eu" := Home(DONE, false)], Active("eu", 1), g, BOTH);
    var w1 := Step(w0, BeginMove("us", 2));
    var w2 := Step(w1, Quiesce);
    assert w2.cells == map["eu" := Home(DONE, true)];
    Then(w1, Quiesce, []);
    Then(w0, BeginMove("us", 2), [Quiesce] + []);
    actions := [BeginMove("us", 2)] + ([Quiesce] + []);
  }

  lemma MoveEnds(g: Statistics) returns (actions: seq<Action>)
    ensures var w := After(map["eu" := Home(DONE, true)], Underway(false), g, BOTH);
      PossibleRun(w, actions) &&
      Run(w, actions) == After(map["eu" := Home(DONE, true), "us" := Home(DONE, false)], Active("us", 3), g, BOTH)
  {
    var w0 := After(map["eu" := Home(DONE, true)], Underway(false), g, BOTH);
    var w1 := Step(w0, CopyRows);
    assert w1.cells == map["eu" := Home(DONE, true), "us" := Home(DONE, false)];
    var w2 := Step(w1, Activate(3));
    assert w2.cells == map["eu" := Home(DONE, true), "us" := Home(DONE, false)];
    Then(w1, Activate(3), []);
    Then(w0, CopyRows, [Activate(3)] + []);
    actions := [CopyRows] + ([Activate(3)] + []);
  }

  lemma {:induction false} RunsJoin(w: Workspace, a: seq<Action>, b: seq<Action>)
    requires PossibleRun(w, a) && PossibleRun(Run(w, a), b)
    ensures PossibleRun(w, a + b) && Run(w, a + b) == Run(Run(w, a), b)
    decreases |a|
  {
    if a == [] {
      assert a + b == b;
    } else {
      RunsJoin(Step(w, a[0]), a[1..], b);
      assert (a + b)[1..] == a[1..] + b;
    }
  }

  /** A run in which an event is applied by two workers, the second after the ledger forgot
      it, and the workspace then moves: the event is counted once. */
  lemma LateWorker(zero: Counter) returns (actions: seq<Action>)
    ensures PossibleRun(Unplaced(zero), actions)
    ensures var w := Run(Unplaced(zero), actions);
      w.applied == {SLOW, QUICK} && w.placement == Some(Active("us", 3)) && w.settled == 1 &&
        w.stats.counter == zero.Plus(Counter(3, 0))
  {
    var first := ClaimedTwice(zero);
    var second := SettledThenLate(zero);
    var g := Counted(zero, map["e1" := Entry(USE.At(), 103)]);
    var third := MoveBegins(g);
    var fourth := MoveEnds(g);
    RunsJoin(Unplaced(zero), first, second);
    RunsJoin(Unplaced(zero), first + second, third);
    RunsJoin(Unplaced(zero), first + second + third, fourth);
    actions := first + second + third + fourth;
  }

  lemma WaitingRolledBack(zero: Counter)
    ensures var w, actions := Before(zero, Row(USE, None, None), {}, {}), [BeginMove("us", 2)] + ([Rollback(3)] + []);
      FreshRun(w, actions) && Stuck(Run(w, actions)) && Stranded(Run(w, actions))
  {
    var w := Before(zero, Row(USE, None, None), {}, {});
    var w1 := Step(w, BeginMove("us", 2));
    Then(w1, Rollback(3), []);
    Then(w, BeginMove("us", 2), [Rollback(3)] + []);
  }

  /** Placed, one event, a move begun and rolled back: the event can never be settled. */
  lemma RolledBack(zero: Counter) returns (actions: seq<Action>)
    ensures actions == [Place("eu", 1), Enqueue("eu", "e1", AgentSkillUsed(3), 1), BeginMove("us", 2), Rollback(3)]
    ensures FreshRun(Unplaced(zero), actions)
    ensures Stuck(Run(Unplaced(zero), actions)) && Stranded(Run(Unplaced(zero), actions))
  {
    var a0, a1 := Place("eu", 1), Enqueue("eu", "e1", AgentSkillUsed(3), 1);
    var rest := [BeginMove("us", 2)] + ([Rollback(3)] + []);
    Starts(zero);
    WaitingRolledBack(zero);
    Then(Step(Unplaced(zero), a0), a1, rest);
    Then(Unplaced(zero), a0, [a1] + rest);
    actions := [a0] + ([a1] + rest);
  }

  function LostRow(): Row { Row(USE, Some(Claim("quick", 100)), None) }

  lemma MoveRolledBack(w: Workspace)
    requires w.placement == Some(Active("eu", 1)) && w.log == [USE] && w.settled == 0 && w.cleared == {SLOW}
    requires w.cells == map["eu" := Home(LostRow(), false)]
    ensures var actions := [BeginMove("us", 2)] + ([Rollback(3)] + []);
      FreshRun(w, actions) && Stuck(Run(w, actions)) && !Stranded(Run(w, actions))
  {
    var w1 := Step(w, BeginMove("us", 2));
    var w2 := Step(w1, Rollback(3));
    assert CellOf(w2, "eu") == Home(LostRow(), false);
    assert SLOW in w2.cleared && InHand(w2);
    Then(w1, Rollback(3), []);
    Then(w, BeginMove("us", 2), [Rollback(3)] + []);
  }

  /** A worker has the event past the check but loses its row to another; after the rollback
      the one can no longer acknowledge the event and the other can no longer pass the check. */
  lemma ClaimLost(zero: Counter) returns (actions: seq<Action>)
    ensures FreshRun(Unplaced(zero), actions)
    ensures Stuck(Run(Unplaced(zero), actions)) && !Stranded(Run(Unplaced(zero), actions))
  {
    var a0, a1, a2 := Place("eu", 1), Enqueue("eu", "e1", AgentSkillUsed(3), 1), ClaimRow("eu", "e1", "slow", 10, 60);
    var a4 := ClaimRow("eu", "e1", "quick", 100, 60);
    Starts(zero);
    Claims(zero, None, {}, {}, "slow", 10);
    Claims(zero, Some(Claim("slow", 10)), {SLOW}, {SLOW}, "quick", 100);
    var w2 := Before(zero, Row(USE, None, None), {}, {});
    var w3 := Before(zero, Row(USE, Some(Claim("slow", 10)), None), {SLOW}, {});
    var w4 := Before(zero, Row(USE, Some(Claim("slow", 10)), None), {SLOW}, {SLOW});
    assert {} + {SLOW} == {SLOW} && Step(w3, FenceCheck(SLOW)) == w4 && SLOW != QUICK;
    var rest := [BeginMove("us", 2)] + ([Rollback(3)] + []);
    MoveRolledBack(Before(zero, LostRow(), {SLOW} + {QUICK}, {SLOW}));
    Then(w4, a4, rest);
    Then(w3, FenceCheck(SLOW), [a4] + rest);
    Then(w2, a2, [FenceCheck(SLOW)] + ([a4] + rest));
    rest := [a2] + ([FenceCheck(SLOW)] + ([a4] + rest));
    Then(Step(Unplaced(zero), a0), a1, rest);
    Then(Unplaced(zero), a0, [a1] + rest);
    actions := [a0] + ([a1] + rest);
  }
}
