/** What a finished copy of a workspace is: an image of the source rows with the same shape,
    keys nobody else uses, and every other workspace's rows as they were. */
module CopyProperties {
  import opened Sequences
  import opened Schemas
  import opened KeyRoots
  import opened KeyRemap
  import opened FreshKeys
  import opened DatabaseCopy

  /** The copy of the i-th incoming row of a table. */
  function CopyOf(incoming: Tables, roots: Roots, keys: KeyMap, t: string, i: nat): Row
    requires i < |RowsOf(incoming, t)|
  {
    RemapRow(roots, keys, t, RowsOf(incoming, t)[i])
  }

  // ---- Rows ---------------------------------------------------------------------------------

  /** The copies of all incoming rows of a table. */
  function Copies(incoming: Tables, roots: Roots, keys: KeyMap, t: string): seq<Row> {
    seq(|RowsOf(incoming, t)|, i requires 0 <= i < |RowsOf(incoming, t)| => CopyOf(incoming, roots, keys, t, i))
  }

  lemma TableCopied(plan: Plan, workspace: string, incoming: Tables, before: Tables, after: Tables,
      sequences: map<string, Counter>, roots: Roots, keys: KeyMap, t: string)
    requires OwnRows(incoming, workspace) && Complete(plan, workspace, incoming, before, after, sequences, roots, keys)
    requires t in before
    ensures t in after && (t !in plan.tables ==> after[t] == before[t])
    ensures RowsOutside(after[t], workspace) == RowsOutside(before[t], workspace)
    ensures t in plan.tables ==> RowsIn(after[t], workspace) == Copies(incoming, roots, keys, t)
  {
    assert t in after;
    if t in plan.tables {
      assert RemapAll(roots, keys, t, RowsOf(incoming, t)) == Copies(incoming, roots, keys, t);
      CopiedRows(before[t], roots, keys, t, RowsOf(incoming, t), workspace);
    }
  }

  /** After a copy each table holds every row of another workspace as often as before, and for
      the workspace the copies of the incoming rows, one for each. */
  lemma RowsAccountedFor(plan: Plan, workspace: string, incoming: Tables, before: Tables, after: Tables,
      sequences: map<string, Counter>, roots: Roots, keys: KeyMap, t: string, r: Row)
    requires OwnRows(incoming, workspace) && Complete(plan, workspace, incoming, before, after, sequences, roots, keys)
    requires t in before
    ensures t in after && (t !in plan.tables ==> after[t] == before[t])
    ensures r.workspace != workspace ==> multiset(after[t])[r] == multiset(before[t])[r]
    ensures r.workspace == workspace && t in plan.tables ==>
      multiset(after[t])[r] == multiset(Copies(incoming, roots, keys, t))[r]
  {
    TableCopied(plan, workspace, incoming, before, after, sequences, roots, keys, t);
    RowsDivided(before[t], workspace, r);
    RowsDivided(after[t], workspace, r);
  }

  /** And in order: the other workspaces' rows as they stood, the copies as the rows came in. */
  lemma RowsKeptInOrder(plan: Plan, workspace: string, incoming: Tables, before: Tables, after: Tables,
      sequences: map<string, Counter>, roots: Roots, keys: KeyMap, t: string)
    returns (others: seq<Row>, was: seq<nat>, kept: seq<nat>, copied: seq<nat>)
    requires OwnRows(incoming, workspace) && Complete(plan, workspace, incoming, before, after, sequences, roots, keys)
    requires t in before
    ensures t in after && Sublist(before[t], was, others) && Sublist(after[t], kept, others)
    ensures forall r: Row :: multiset(others)[r] == if r.workspace == workspace then 0 else multiset(before[t])[r]
    ensures t in plan.tables ==> Sublist(after[t], copied, Copies(incoming, roots, keys, t))
  {
    TableCopied(plan, workspace, incoming, before, after, sequences, roots, keys, t);
    others := RowsOutside(before[t], workspace);
    var _, a := RowsInOrder(before[t], workspace);
    var c, b := RowsInOrder(after[t], workspace);
    was, kept, copied := a, b, c;
    forall r: Row
      ensures multiset(others)[r] == if r.workspace == workspace then 0 else multiset(before[t])[r]
    {
      RowsDivided(before[t], workspace, r);
    }
  }

  lemma RootIsMapped(plan: Plan, workspace: string, incoming: Tables, before: Tables, after: Tables, roots: Roots,
      keys: KeyMap, k: Key)
    requires Replaced(plan, workspace, incoming, before, after, roots, keys)
    ensures Mapped(roots, keys, k.table, k.column) <==> k in roots
  {
    if k in roots { assert roots[k] in roots.Values; }
  }

  lemma NotMissing(plan: Plan, workspace: string, incoming: Tables, before: Tables, after: Tables, roots: Roots,
      keys: KeyMap, t: string, i: nat)
    requires Replaced(plan, workspace, incoming, before, after, roots, keys) && t in plan.tables && t in before &&
      i < |RowsOf(incoming, t)|
    ensures !Missing(RowsOf(incoming, t)[i], CopyOf(incoming, roots, keys, t, i))
  {
    assert t in after && RowsOf(incoming, t)[i] in RowsOf(incoming, t);
  }

  /** The copy is an isomorphism: two values in columns sharing a root are equal exactly when
      they were before, nulls and only nulls stay null, and other columns are unchanged. */
  lemma Isomorphism(plan: Plan, workspace: string, incoming: Tables, before: Tables, after: Tables,
      sequences: map<string, Counter>,
    roots: Roots, keys: KeyMap, t: string, i: nat, c: string, u: string, j: nat, d: string)
    requires Complete(plan, workspace, incoming, before, after, sequences, roots, keys)
    requires t in plan.tables && u in plan.tables && t in before && u in before
    requires i < |RowsOf(incoming, t)| && j < |RowsOf(incoming, u)|
    ensures var r, s := RowsOf(incoming, t)[i], RowsOf(incoming, u)[j];
      var r', s' := CopyOf(incoming, roots, keys, t, i), CopyOf(incoming, roots, keys, u, j);
      && r'.workspace == r.workspace && r'.values.Keys == r.values.Keys
      && (Key(t, c) !in roots ==> r'.Get(c) == r.Get(c))
      && (r'.Get(c) == Null <==> r.Get(c) == Null)
      && (Key(t, c) in roots && Key(u, d) in roots && roots[Key(t, c)] == roots[Key(u, d)] ==>
            (r'.Get(c) == s'.Get(d) <==> r.Get(c) == s.Get(d)))
  {
    NotMissing(plan, workspace, incoming, before, after, roots, keys, t, i);
    NotMissing(plan, workspace, incoming, before, after, roots, keys, u, j);
    RootIsMapped(plan, workspace, incoming, before, after, roots, keys, Key(t, c));
    RootIsMapped(plan, workspace, incoming, before, after, roots, keys, Key(u, d));
    if Key(t, c) in roots && Key(u, d) in roots && roots[Key(t, c)] == roots[Key(u, d)] {
      ReservedInjective(plan, roots, Remaining(before, plan.tables, workspace), incoming, keys);
      EqualityPreserved(roots, keys, t, RowsOf(incoming, t)[i], c, u, RowsOf(incoming, u)[j], d);
    }
  }

  /** A copied key lies past every value that any column with its root held, in the target's
      remaining rows or in the incoming ones; so it belongs to no other workspace. */
  lemma CopiedKeysAreFresh(plan: Plan, workspace: string, incoming: Tables, before: Tables, after: Tables,
      sequences: map<string, Counter>,
    roots: Roots, keys: KeyMap, t: string, i: nat, c: string, k: Key, x: int)
    requires Complete(plan, workspace, incoming, before, after, sequences, roots, keys)
    requires t in plan.tables && t in before && i < |RowsOf(incoming, t)| && Key(t, c) in roots
    requires k in roots && roots[k] == roots[Key(t, c)] && RowsOf(incoming, t)[i].Get(c) != Null
    requires x in Numbers(RowsOf(Remaining(before, plan.tables, workspace), k.table), k.column) ||
      x in Numbers(RowsOf(incoming, k.table), k.column)
    ensures var root := roots[k]; var v := CopyOf(incoming, roots, keys, t, i).Get(c);
      root in plan.columns && plan.columns[root].sequence.Some? && v.Number? &&
        Past(plan.columns[root].sequence.value.increment, v.n, x) && v.n != x
  {
    var root, r := roots[k], RowsOf(incoming, t)[i];
    NotMissing(plan, workspace, incoming, before, after, roots, keys, t, i);
    RootIsMapped(plan, workspace, incoming, before, after, roots, keys, Key(t, c));
    var was := r.Get(c).n;
    assert Reserved(plan, roots, Remaining(before, plan.tables, workspace), incoming, root, keys[root]);
    assert keys[root][was] == CopyOf(incoming, roots, keys, t, i).Get(c).n;
  }

  /** parts is a constraint of table t on table u. */
  ghost predicate ConstraintOn(plan: Plan, t: string, name: string, parts: seq<ForeignKey>, u: string) {
    parts == Parts(plan.schema.KeysOf(t), name) && forall f :: f in parts ==> f.parentTable == u
  }

  /** Each column has a root just when the one it references has. */
  ghost predicate JoinedAlike(roots: Roots, t: string, parts: seq<ForeignKey>) {
    forall f :: f in parts ==> (Key(t, f.column) in roots <==> f.Parent() in roots)
  }

  /** In a finished copy a row still references the copy of the row it referenced exactly when
      the constraint's columns are joined alike; and then no reference is added either. */
  lemma ReferencesPreserved(plan: Plan, workspace: string, incoming: Tables, before: Tables, after: Tables,
      sequences: map<string, Counter>, roots: Roots, keys: KeyMap, t: string, i: nat, u: string, j: nat,
      name: string, parts: seq<ForeignKey>)
    requires Complete(plan, workspace, incoming, before, after, sequences, roots, keys)
    requires t in plan.tables && t in before && i < |RowsOf(incoming, t)|
    requires u in plan.tables && u in before && j < |RowsOf(incoming, u)|
    requires ConstraintOn(plan, t, name, parts, u)
    ensures var c, p := CopyOf(incoming, roots, keys, t, i), CopyOf(incoming, roots, keys, u, j);
      var child, parent := RowsOf(incoming, t)[i], RowsOf(incoming, u)[j];
      && (PointsTo(parts, child, parent) ==> (PointsTo(parts, c, p) <==> JoinedAlike(roots, t, parts)))
      && (JoinedAlike(roots, t, parts) ==> (PointsTo(parts, c, p) <==> PointsTo(parts, child, parent)))
  {
    NotMissing(plan, workspace, incoming, before, after, roots, keys, t, i);
    NotMissing(plan, workspace, incoming, before, after, roots, keys, u, j);
    if JoinedAlike(roots, t, parts) {
      AllRewrittenAlike(plan, roots, keys, t, name, parts);
      ReservedInjective(plan, roots, Remaining(before, plan.tables, workspace), incoming, keys);
      PointsPreserved(roots, keys, t, parts, RowsOf(incoming, t)[i], u, RowsOf(incoming, u)[j]);
    } else if PointsTo(parts, RowsOf(incoming, t)[i], RowsOf(incoming, u)[j]) {
      var f :| f in parts && !(Key(t, f.column) in roots <==> f.Parent() in roots);
      PartsTorn(plan, workspace, incoming, before, after, sequences, roots, keys, t, i, u, j, f);
    }
  }

  lemma AllRewrittenAlike(plan: Plan, roots: Roots, keys: KeyMap, t: string, name: string, parts: seq<ForeignKey>)
    requires Right(plan.schema, roots) && keys.Keys == roots.Values
    requires parts == Parts(plan.schema.KeysOf(t), name) && JoinedAlike(roots, t, parts)
    ensures forall f :: f in parts ==> RewrittenAlike(roots, keys, t, f)
  {
    PartsOf(plan.schema.KeysOf(t), name);
    forall f | f in parts ensures RewrittenAlike(roots, keys, t, f) {
      AlikeExactly(plan.schema, roots, keys, t, f);
    }
  }

  /** When just one of two equal values is rewritten, the copies differ. */
  lemma PartsTorn(plan: Plan, workspace: string, incoming: Tables, before: Tables, after: Tables,
      sequences: map<string, Counter>, roots: Roots, keys: KeyMap, t: string, i: nat, u: string, j: nat, f: ForeignKey)
    requires Complete(plan, workspace, incoming, before, after, sequences, roots, keys) && f.parentTable == u
    requires t in plan.tables && t in before && i < |RowsOf(incoming, t)|
    requires u in plan.tables && u in before && j < |RowsOf(incoming, u)|
    requires !(Key(t, f.column) in roots <==> f.Parent() in roots)
    requires RowsOf(incoming, t)[i].Get(f.column) != Null
    requires RowsOf(incoming, u)[j].Get(f.parentColumn) == RowsOf(incoming, t)[i].Get(f.column)
    ensures CopyOf(incoming, roots, keys, u, j).Get(f.parentColumn) != CopyOf(incoming, roots, keys, t, i).Get(f.column)
  {
    if Key(t, f.column) in roots {
      RewrittenValue(plan, workspace, incoming, before, after, sequences, roots, keys, t, i, f.column);
      Isomorphism(plan, workspace, incoming, before, after, sequences, roots, keys, u, j, f.parentColumn, u, j,
        f.parentColumn);
    } else {
      RewrittenValue(plan, workspace, incoming, before, after, sequences, roots, keys, u, j, f.parentColumn);
      Isomorphism(plan, workspace, incoming, before, after, sequences, roots, keys, t, i, f.column, t, i, f.column);
    }
  }

  /** A rewritten key differs from the key it replaces. */
  lemma RewrittenValue(plan: Plan, workspace: string, incoming: Tables, before: Tables, after: Tables,
      sequences: map<string, Counter>, roots: Roots, keys: KeyMap, t: string, i: nat, c: string)
    requires Complete(plan, workspace, incoming, before, after, sequences, roots, keys)
    requires t in plan.tables && t in before && i < |RowsOf(incoming, t)| && Key(t, c) in roots
    requires RowsOf(incoming, t)[i].Get(c) != Null
    ensures CopyOf(incoming, roots, keys, t, i).Get(c) != RowsOf(incoming, t)[i].Get(c)
  {
    var r := RowsOf(incoming, t)[i];
    NotMissing(plan, workspace, incoming, before, after, roots, keys, t, i);
    RootIsMapped(plan, workspace, incoming, before, after, roots, keys, Key(t, c));
    assert r in RowsOf(incoming, t);
    if r.Get(c).Number? {
      assert r.Get(c).n in Numbers(RowsOf(incoming, t), c);
      CopiedKeysAreFresh(plan, workspace, incoming, before, after, sequences, roots, keys, t, i, c, Key(t, c),
        r.Get(c).n);
    }
  }

  /** In terms of the schema: references lead from each column of the constraint to a supplying
      column, which it may be itself, exactly when they do from the column it references. */
  lemma JoinedAlikeExactly(g: Schema, roots: Roots, t: string, parts: seq<ForeignKey>)
    requires Acyclic(g) && Right(g, roots)
    ensures JoinedAlike(roots, t, parts) <==>
      forall f :: f in parts ==> (Supplied(g, Key(t, f.column)) <==> Supplied(g, f.Parent()))
  {
    forall f | f in parts
      ensures Key(t, f.column) in roots <==> Supplied(g, Key(t, f.column))
      ensures f.Parent() in roots <==> Supplied(g, f.Parent())
    {
      RootedExactly(g, roots, Key(t, f.column));
      RootedExactly(g, roots, f.Parent());
    }
  }

  /** The value a sequence yields next after the copy is stored nowhere in its column. */
  lemma NextKeysAreUnused(plan: Plan, workspace: string, incoming: Tables, before: Tables, after: Tables,
      sequences: map<string, Counter>,
    roots: Roots, keys: KeyMap, k: Key, r: Row)
    requires Complete(plan, workspace, incoming, before, after, sequences, roots, keys)
    requires k in plan.columns && plan.columns[k].sequence.Some? && r in RowsOf(after, k.table)
    ensures var q := plan.columns[k].sequence.value;
      q.name in sequences && r.Get(k.column) != Number(NextValue(q, sequences[q.name])) &&
      (r.Get(k.column).Number? ==> Past(q.increment, NextValue(q, sequences[q.name]), r.Get(k.column).n))
  {
    assert k in plan.columns.Keys && Ahead(plan.columns[k], k, after, sequences);
    if r.Get(k.column).Number? {
      assert r.Get(k.column).n in Numbers(RowsOf(after, k.table), k.column);
    }
  }
}
