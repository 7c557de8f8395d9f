/** A copy that is accepted although it moves a reference. Column c.id owns a sequence, is
    unique and references p.id, which leads to no sequence: c.id is rewritten and p.id is not,
    and the new key happens to be another row's. */
module CopyScenario {
  import opened Sequences
  import opened Schemas
  import opened KeyRoots
  import opened KeyRemap
  import opened FreshKeys
  import opened DatabaseCopy
  import opened CopyProperties

  const CHILD := Key("c", "id")
  const PARENT := Key("p", "id")
  const IDS := Sequence("c_id_seq", 1, 1, 1000, false)
  const FK := ForeignKey("c_id_fkey", false, "id", "p", "id")
  const COLUMNS: map<Key, Column> := map[CHILD := Column(Some(IDS), true), PARENT := Column(None, true)]
  const SCHEMA := Schema([CHILD, PARENT], COLUMNS, map["c" := [FK]])
  const PLAN := Plan(SCHEMA, ["p", "c"], COLUMNS, (t, rows) => true)
  const ROOTS: Roots := map[CHILD := CHILD]
  const KEYS: KeyMap := map[CHILD := map[1 := 2]]

  function RowWith(id: int): Row { Row("w", map["id" := Number(id)]) }

  const INCOMING: Tables := map["p" := [RowWith(1), RowWith(2)], "c" := [RowWith(1)]]
  const NO_ROWS: Tables := map["p" := [], "c" := []]
  const COPIED: Tables := map["p" := [RowWith(1), RowWith(2)], "c" := [RowWith(2)]]

  lemma OneReference(k: Key, p: Key)
    ensures SCHEMA.References(k, p) <==> k.table == "c" && k.column == "id" && p == PARENT
  {
    if k.table == "c" && k.column == "id" && p == PARENT {
      assert FK in SCHEMA.KeysOf("c");
    }
  }

  lemma RootsRight()
    ensures Acyclic(SCHEMA) && Right(SCHEMA, ROOTS)
  {
    forall k, p ensures SCHEMA.References(k, p) <==> k.table == "c" && k.column == "id" && p == PARENT {
      OneReference(k, p);
    }
    var rank: map<Key, nat> := map[PARENT := 0, CHILD := 1];
    assert Ranked(SCHEMA, rank);
    forall k | k in SCHEMA.columns ensures RightAt(SCHEMA, ROOTS, k) {
      assert k == CHILD || k == PARENT;
    }
  }

  lemma ChildNumbers()
    ensures Numbers([RowWith(1)], "id") == {1}
  {
    assert RowWith(1) in [RowWith(1)];
  }

  lemma ChildReserved()
    ensures Reserved(PLAN, ROOTS, NO_ROWS, INCOMING, CHILD, map[1 := 2])
  {
    Literals();
    ChildNumbers();
    assert Numbers([], "id") == {};
  }

  lemma KeysReserved()
    ensures AllReserved(PLAN, ROOTS, NO_ROWS, INCOMING, KEYS)
  {
    ChildReserved();
    assert ROOTS.Values == {CHILD} by { assert CHILD in ROOTS && ROOTS[CHILD] == CHILD; }
  }

  lemma ChildRewritten()
    ensures RemapRow(ROOTS, KEYS, "c", RowWith(1)) == RowWith(2)
  {
    assert RemapRow(ROOTS, KEYS, "c", RowWith(1)).values == map["id" := Number(2)];
  }

  lemma ParentKept(id: int)
    ensures RemapRow(ROOTS, KEYS, "p", RowWith(id)) == RowWith(id)
  {
    assert RemapRow(ROOTS, KEYS, "p", RowWith(id)).values == map["id" := Number(id)];
  }

  lemma RemappedOne(roots: Roots, keys: KeyMap, t: string, r: Row, s: Row)
    requires RemapRow(roots, keys, t, r) == s && s.Get("id") != Null && r.values.Keys == {"id"}
    ensures RemapAll(roots, keys, t, [r]) == [s] && NoneMissing(roots, keys, t, [r])
  {
  }

  lemma RemappedTwo(roots: Roots, keys: KeyMap, t: string, r0: Row, r1: Row)
    requires RemapRow(roots, keys, t, r0) == r0 && RemapRow(roots, keys, t, r1) == r1
    requires r0.Get("id") != Null && r1.Get("id") != Null && r0.values.Keys == {"id"} == r1.values.Keys
    ensures RemapAll(roots, keys, t, [r0, r1]) == [r0, r1] && NoneMissing(roots, keys, t, [r0, r1])
  {
    var copies := RemapAll(roots, keys, t, [r0, r1]);
    assert copies[0] == r0 && copies[1] == r1;
  }

  /** The table literals, table by table. */
  lemma Literals()
    ensures NO_ROWS.Keys == {"p", "c"} == COPIED.Keys && NO_ROWS["p"] == [] && NO_ROWS["c"] == []
    ensures RowsOf(INCOMING, "p") == [RowWith(1), RowWith(2)] == COPIED["p"]
    ensures RowsOf(INCOMING, "c") == [RowWith(1)] && COPIED["c"] == [RowWith(2)]
  {
  }

  lemma ChildTable()
    ensures RemapAll(ROOTS, KEYS, "c", [RowWith(1)]) == [RowWith(2)] && NoneMissing(ROOTS, KEYS, "c", [RowWith(1)])
  {
    ChildRewritten();
    RemappedOne(ROOTS, KEYS, "c", RowWith(1), RowWith(2));
  }

  lemma ParentTable()
    ensures RemapAll(ROOTS, KEYS, "p", [RowWith(1), RowWith(2)]) == [RowWith(1), RowWith(2)]
    ensures NoneMissing(ROOTS, KEYS, "p", [RowWith(1), RowWith(2)])
  {
    ParentKept(1);
    ParentKept(2);
    RemappedTwo(ROOTS, KEYS, "p", RowWith(1), RowWith(2));
  }

  lemma TwoTables(before: Tables, after: Tables, incoming: Tables, roots: Roots, keys: KeyMap)
    requires before.Keys == {"p", "c"} == after.Keys && before["p"] == [] && before["c"] == []
    requires after["p"] == RemapAll(roots, keys, "p", RowsOf(incoming, "p"))
    requires after["c"] == RemapAll(roots, keys, "c", RowsOf(incoming, "c"))
    requires NoneMissing(roots, keys, "p", RowsOf(incoming, "p")) &&
      NoneMissing(roots, keys, "c", RowsOf(incoming, "c"))
    ensures Inserted(before, after, ["p", "c"], incoming, roots, keys)
  {
    forall t | t in after
      ensures t in ["p", "c"] && after[t] == before[t] + RemapAll(roots, keys, t, RowsOf(incoming, t)) &&
        NoneMissing(roots, keys, t, RowsOf(incoming, t))
    {
      assert t == "p" || t == "c";
      assert [] + after[t] == after[t];
    }
  }

  lemma RowsInserted()
    ensures Inserted(NO_ROWS, COPIED, PLAN.tables, INCOMING, ROOTS, KEYS)
  {
    Literals();
    ChildTable();
    ParentTable();
    TwoTables(NO_ROWS, COPIED, INCOMING, ROOTS, KEYS);
  }

  lemma NothingRemains()
    ensures Remaining(NO_ROWS, PLAN.tables, "w") == NO_ROWS
  {
  }

  lemma OnePart(f: ForeignKey)
    ensures Parts([f], f.constraint) == [f]
  {
    assert [f][..0] == [] && Parts([f][..0], f.constraint) == [];
  }

  lemma CopyIntact()
    ensures Intact([FK], [RowWith(2)], [RowWith(1), RowWith(2)])
  {
    References(2, 2);
    assert RowWith(2) in [RowWith(1), RowWith(2)];
  }

  lemma ConstraintAccepted()
    ensures ConstraintHolds(PLAN, COPIED, "w", "c", FK.constraint)
  {
    Literals();
    OnePart(FK);
    InsideOnly([RowWith(2)], "w");
    InsideOnly([RowWith(1), RowWith(2)], "w");
    CopyIntact();
  }

  lemma AllAccepted()
    ensures AllKeysHold(PLAN, COPIED, "w", PLAN.tables)
  {
    ConstraintAccepted();
    assert SCHEMA.KeysOf("c") == [FK] && SCHEMA.KeysOf("p") == [];
    assert KeysHold(PLAN, COPIED, "w", "c") && KeysHold(PLAN, COPIED, "w", "p");
  }

  lemma SequenceAhead()
    ensures AllAhead(PLAN, COPIED, map["c_id_seq" := Counter(3, false)], COLUMNS.Keys)
  {
    assert Ahead(COLUMNS[CHILD], CHILD, COPIED, map["c_id_seq" := Counter(3, false)]);
  }

  lemma PlanSound()
    ensures Sound(PLAN, NO_ROWS, map["c_id_seq" := Counter(1, true)]) && OwnRows(INCOMING, "w")
  {
  }

  /** The row of c that referenced the first row of p references the second in the copy. */
  lemma MovedReference()
    ensures Sound(PLAN, NO_ROWS, map["c_id_seq" := Counter(1, true)]) && OwnRows(INCOMING, "w")
    ensures Complete(PLAN, "w", INCOMING, NO_ROWS, COPIED, map["c_id_seq" := Counter(3, false)], ROOTS, KEYS)
    ensures PointsTo([FK], INCOMING["c"][0], INCOMING["p"][0]) && !PointsTo([FK], INCOMING["c"][0], INCOMING["p"][1])
    ensures !PointsTo([FK], COPIED["c"][0], COPIED["p"][0]) && PointsTo([FK], COPIED["c"][0], COPIED["p"][1])
    ensures !JoinedAlike(ROOTS, "c", [FK])
  {
    PlanSound();
    RootsRight();
    NothingRemains();
    KeysReserved();
    RowsInserted();
    AllAccepted();
    SequenceAhead();
    References(1, 1);
    References(1, 2);
    References(2, 1);
    References(2, 2);
    ChildAlone();
  }

  lemma ChildAlone()
    ensures !JoinedAlike(ROOTS, "c", [FK])
  {
    assert FK in [FK] && Key("c", FK.column) == CHILD && FK.Parent() == PARENT;
  }

  lemma References(child: int, parent: int)
    ensures PointsTo([FK], RowWith(child), RowWith(parent)) <==> child == parent
  {
    assert FK in [FK];
  }
}
