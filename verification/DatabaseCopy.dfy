/** Copying a workspace's rows into another cell, in one transaction. */
module DatabaseCopy {
  import opened Sequences
  import opened Schemas
  import opened KeyRoots
  import opened KeyRemap
  import opened FreshKeys

  /** tables lists every copied table; columns describes all of their columns; schema describes
      those tables whose keys may be rewritten; admits tells whether the unique and check
      constraints of a table hold of its rows. */
  datatype Plan = Plan(schema: Schema, tables: seq<string>, columns: map<Key, Column>,
    admits: (string, seq<Row>) -> bool)

  /** What a copy starts from: the rows left in the target, the rows to copy, the sequences. */
  datatype Origin = Origin(stored: Tables, incoming: Tables, sequences: map<string, Counter>)

  /** What PostgreSQL guarantees: a sequence is owned by one column and moves. */
  ghost predicate Sound(plan: Plan, rows: Tables, sequences: map<string, Counter>) {
    && plan.schema.Listed()
    && (forall k :: k in plan.schema.columns ==> k in plan.columns && plan.columns[k] == plan.schema.columns[k])
    && (forall i, j :: 0 <= i < j < |plan.tables| ==> plan.tables[i] != plan.tables[j])
    && (forall t :: t in plan.tables ==> t in rows)
    && (forall k {:trigger k in plan.columns} :: k in plan.columns ==> Steps(plan.columns[k], sequences))
    && (forall j, k {:trigger SameSequence(plan.columns[j], plan.columns[k])} ::
          j in plan.columns && k in plan.columns && SameSequence(plan.columns[j], plan.columns[k]) ==> j == k)
    && (forall t, f, h :: f in plan.schema.KeysOf(t) && h in plan.schema.KeysOf(t) && f.constraint == h.constraint ==>
      f.parentTable == h.parentTable)
  }

  /** The incoming rows were read for the workspace. */
  ghost predicate OwnRows(incoming: Tables, workspace: string) {
    forall t, r :: t in incoming && r in incoming[t] ==> r.workspace == workspace
  }

  ghost predicate Steps(c: Column, sequences: map<string, Counter>) {
    c.sequence.Some? ==> c.sequence.value.increment != 0 && c.sequence.value.name in sequences
  }

  ghost predicate SameSequence(c: Column, d: Column) {
    c.sequence.Some? && d.sequence.Some? && c.sequence.value.name == d.sequence.value.name
  }

  // ---- Rows by workspace ------------------------------------------------------------------------

  function RowsIn(rows: seq<Row>, workspace: string): seq<Row>
    decreases |rows|
  {
    if rows == [] then []
    else (if rows[0].workspace == workspace then [rows[0]] else []) + RowsIn(rows[1..], workspace)
  }

  function RowsOutside(rows: seq<Row>, workspace: string): seq<Row>
    decreases |rows|
  {
    if rows == [] then []
    else (if rows[0].workspace == workspace then [] else [rows[0]]) + RowsOutside(rows[1..], workspace)
  }

  lemma {:induction false} RowsFiltered(rows: seq<Row>, workspace: string)
    ensures RowsIn(rows, workspace) == Filter(rows, (r: Row) => r.workspace == workspace)
    ensures RowsOutside(rows, workspace) == Filter(rows, (r: Row) => r.workspace != workspace)
    decreases |rows|
  {
    if rows != [] { RowsFiltered(rows[1..], workspace); }
  }

  /** Every row is on its side of the division as often as it is there. */
  lemma RowsDivided(rows: seq<Row>, workspace: string, r: Row)
    ensures multiset(RowsIn(rows, workspace))[r] == if r.workspace == workspace then multiset(rows)[r] else 0
    ensures multiset(RowsOutside(rows, workspace))[r] == if r.workspace == workspace then 0 else multiset(rows)[r]
  {
    RowsFiltered(rows, workspace);
    FilterCounts(rows, (q: Row) => q.workspace == workspace, r);
    FilterCounts(rows, (q: Row) => q.workspace != workspace, r);
  }

  /** And each side keeps the order. */
  lemma RowsInOrder(rows: seq<Row>, workspace: string) returns (inside: seq<nat>, outside: seq<nat>)
    ensures Sublist(rows, inside, RowsIn(rows, workspace)) && Sublist(rows, outside, RowsOutside(rows, workspace))
  {
    RowsFiltered(rows, workspace);
    inside := FilterSublist(rows, (q: Row) => q.workspace == workspace);
    outside := FilterSublist(rows, (q: Row) => q.workspace != workspace);
  }

  ghost predicate AllIn(rows: seq<Row>, workspace: string) { forall r :: r in rows ==> r.workspace == workspace }

  lemma {:induction false} InsideOnly(rows: seq<Row>, workspace: string)
    requires AllIn(rows, workspace)
    ensures RowsIn(rows, workspace) == rows && RowsOutside(rows, workspace) == []
    decreases |rows|
  {
    if rows != [] {
      assert rows[0] in rows && AllIn(rows[1..], workspace);
      InsideOnly(rows[1..], workspace);
      assert rows == [rows[0]] + rows[1..];
    }
  }

  /** Of what lies outside, with more rows inside appended. */
  lemma {:induction false} OutsideThenInside(rows: seq<Row>, more: seq<Row>, workspace: string)
    requires AllIn(more, workspace)
    ensures RowsIn(RowsOutside(rows, workspace) + more, workspace) == more
    ensures RowsOutside(RowsOutside(rows, workspace) + more, workspace) == RowsOutside(rows, workspace)
    decreases |rows|
  {
    var out := RowsOutside(rows, workspace);
    if rows == [] {
      assert out + more == more;
      InsideOnly(more, workspace);
    } else {
      OutsideThenInside(rows[1..], more, workspace);
      if rows[0].workspace != workspace {
        assert out + more == [rows[0]] + (RowsOutside(rows[1..], workspace) + more);
      } else {
        assert out == RowsOutside(rows[1..], workspace);
      }
    }
  }

  // ---- What a copy is ---------------------------------------------------------------------------

  /** The replacements of one root: one for each of its incoming values, all different, and
      past every value, remaining or incoming, of every column with that root. */
  ghost predicate Reserved(plan: Plan, roots: Roots, remaining: Tables, incoming: Tables, root: Key, m: map<int, int>) {
    && root in plan.columns && plan.columns[root].sequence.Some?
    && Injective(m) && m.Keys == Numbers(RowsOf(incoming, root.table), root.column)
    && forall k {:trigger roots[k]} :: k in roots && roots[k] == root ==>
         PastAll(plan.columns[root].sequence.value.increment, m, Numbers(RowsOf(remaining, k.table), k.column)) &&
         PastAll(plan.columns[root].sequence.value.increment, m, Numbers(RowsOf(incoming, k.table), k.column))
  }

  ghost predicate PastAll(increment: int, m: map<int, int>, used: set<int>) {
    forall x, y {:trigger m[y], x in used} :: y in m && x in used ==> Past(increment, m[y], x)
  }

  ghost predicate AllReserved(plan: Plan, roots: Roots, remaining: Tables, incoming: Tables, keys: KeyMap) {
    keys.Keys == roots.Values && EachReserved(plan, roots, remaining, incoming, keys)
  }

  ghost predicate EachReserved(plan: Plan, roots: Roots, remaining: Tables, incoming: Tables, keys: KeyMap) {
    forall root {:trigger Reserved(plan, roots, remaining, incoming, root, keys[root])} :: root in keys ==>
      Reserved(plan, roots, remaining, incoming, root, keys[root])
  }

  /** What is left when the workspace's rows are deleted. */
  function Remaining(before: Tables, tables: seq<string>, workspace: string): Tables {
    map t | t in before :: if t in tables then RowsOutside(before[t], workspace) else before[t]
  }

  /** The remapped incoming rows appended to each table. */
  ghost predicate Inserted(before: Tables, after: Tables, tables: seq<string>, incoming: Tables, roots: Roots,
      keys: KeyMap) {
    before.Keys == after.Keys &&
    forall t {:trigger after[t]} :: t in after ==>
      if t in tables then
        after[t] == before[t] + RemapAll(roots, keys, t, RowsOf(incoming, t)) &&
        NoneMissing(roots, keys, t, RowsOf(incoming, t))
      else after[t] == before[t]
  }

  /** Every foreign key of the table holds among the workspace's rows. */
  ghost predicate KeysHold(plan: Plan, rows: Tables, workspace: string, table: string) {
    forall f {:trigger f in plan.schema.KeysOf(table)} :: f in plan.schema.KeysOf(table) ==>
      ConstraintHolds(plan, rows, workspace, table, f.constraint)
  }

  ghost predicate ConstraintHolds(plan: Plan, rows: Tables, workspace: string, table: string, name: string) {
    var parts := Parts(plan.schema.KeysOf(table), name);
    parts != [] && parts[0].parentTable in plan.tables &&
    Intact(parts, RowsIn(RowsOf(rows, table), workspace), RowsIn(RowsOf(rows, parts[0].parentTable), workspace))
  }

  ghost predicate AllKeysHold(plan: Plan, rows: Tables, workspace: string, tables: seq<string>) {
    forall t {:trigger t in tables} :: t in tables ==> KeysHold(plan, rows, workspace, t)
  }

  lemma {:induction false} PartsInclude(fks: seq<ForeignKey>, f: ForeignKey)
    requires f in fks
    ensures f in Parts(fks, f.constraint)
    decreases |fks|
  {
    if f != fks[|fks| - 1] {
      assert f in fks[..|fks| - 1];
      PartsInclude(fks[..|fks| - 1], f);
    }
  }

  ghost predicate HasParent(parts: seq<ForeignKey>, child: Row, rows: seq<Row>, workspace: string) {
    exists parent :: parent in rows && parent.workspace == workspace && PointsTo(parts, child, parent)
  }

  /** What verification asks of one constraint: its parent table is copied too, and every row of
      the workspace has a row of the workspace there with all of its values, or the nulls that
      spare it one. */
  lemma ConstraintHoldsExactly(plan: Plan, rows: Tables, workspace: string, table: string, name: string)
    requires Parts(plan.schema.KeysOf(table), name) != []
    ensures var parts := Parts(plan.schema.KeysOf(table), name);
      ConstraintHolds(plan, rows, workspace, table, name) <==>
        parts[0].parentTable in plan.tables &&
        forall child :: child in RowsOf(rows, table) && child.workspace == workspace ==>
          Spared(parts, child) || HasParent(parts, child, RowsOf(rows, parts[0].parentTable), workspace)
  {
    var parts := Parts(plan.schema.KeysOf(table), name);
    RowsInMembers(RowsOf(rows, table), workspace);
    RowsInMembers(RowsOf(rows, parts[0].parentTable), workspace);
    var parents := RowsIn(RowsOf(rows, parts[0].parentTable), workspace);
    forall child ensures !Broken(parts, child, parents) <==>
      Spared(parts, child) || HasParent(parts, child, RowsOf(rows, parts[0].parentTable), workspace)
    {
      BrokenExactly(parts, child, parents);
    }
  }

  lemma RowsInMembers(rows: seq<Row>, workspace: string)
    ensures forall r :: r in RowsIn(rows, workspace) <==> r in rows && r.workspace == workspace
  {
    RowsFiltered(rows, workspace);
    FilterMembers(rows, (r: Row) => r.workspace == workspace);
  }

  // ---- Why a copy may fail ----------------------------------------------------------------------

  /** A key column or a column with a sequence holds something other than a number. */
  ghost predicate OddValue(plan: Plan, roots: Roots, rows: Tables) {
    exists k {:trigger k in plan.columns} :: k in plan.columns && (k in roots || plan.columns[k].sequence.Some?) &&
      !AllNumbers(RowsOf(rows, k.table), k.column)
  }

  ghost predicate Opposed(c: Column, d: Column) {
    c.sequence.Some? && d.sequence.Some? && c.sequence.value.increment * d.sequence.value.increment <= 0
  }

  /** An incoming key has no row of its root column among the incoming rows. */
  ghost predicate Stray(roots: Roots, incoming: Tables, t: string, r: Row, c: string) {
    && r in RowsOf(incoming, t) && Key(t, c) in roots && r.Get(c) != Null
    && (r.Get(c).Number? ==> r.Get(c).n !in Numbers(RowsOf(incoming, roots[Key(t, c)].table), roots[Key(t, c)].column))
  }

  /** The constraint fails among the incoming rows already, or joins a column whose values are
      replaced to one whose values are not. */
  ghost predicate Unfit(plan: Plan, roots: Roots, incoming: Tables, t: string, f: ForeignKey) {
    f in plan.schema.KeysOf(t) &&
    (!HoldsAmong(plan, incoming, t, f.constraint) ||
     (Key(t, f.column) in roots && f.Parent() !in roots) ||
     (Key(t, f.column) !in roots && f.Parent() in roots))
  }

  ghost predicate HoldsAmong(plan: Plan, incoming: Tables, table: string, name: string) {
    var parts := Parts(plan.schema.KeysOf(table), name);
    parts != [] && parts[0].parentTable in plan.tables &&
      Intact(parts, RowsOf(incoming, table), RowsOf(incoming, parts[0].parentTable))
  }

  predicate OfSequences(fault: Fault) {
    fault.NotANumber? || fault.CyclingSequence? || fault.SequenceDirection? || fault.SequenceExhausted?
  }

  /** The value is stored, comes in, or is where a sequence stands. */
  ghost predicate InUse(plan: Plan, o: Origin, v: int) {
    exists k {:trigger UsedBy(plan, o, k, v)} :: UsedBy(plan, o, k, v)
  }

  ghost predicate UsedBy(plan: Plan, o: Origin, k: Key, v: int) {
    k in plan.columns &&
    (v in Numbers(RowsOf(o.stored, k.table), k.column) || v in Numbers(RowsOf(o.incoming, k.table), k.column) ||
     (plan.columns[k].sequence.Some? && plan.columns[k].sequence.value.name in o.sequences &&
      v == o.sequences[plan.columns[k].sequence.value.name].last))
  }

  /** Counting on from b with the column's sequence, one value a row, v comes up. */
  ghost predicate CountsTo(plan: Plan, o: Origin, k: Key, b: int, n: nat, v: int) {
    k in plan.columns && plan.columns[k].sequence.Some? && n <= |RowsOf(o.incoming, k.table)| &&
    var q := plan.columns[k].sequence.value; v == Nth(q, Counter(b + q.increment, false), n)
  }

  /** The value is in use, or the copy may come to use it. */
  ghost predicate Attained(plan: Plan, o: Origin, v: int) {
    InUse(plan, o, v) ||
    exists k, b, n {:trigger CountsTo(plan, o, k, b, n, v)} :: InUse(plan, o, b) && CountsTo(plan, o, k, b, n, v)
  }

  /** One value a row, counted on from such a value, leaves the limits of a sequence. */
  ghost predicate Exhausted(plan: Plan, o: Origin) {
    exists k, b, n, v {:trigger CountsTo(plan, o, k, b, n, v)} ::
      Attained(plan, o, b) && CountsTo(plan, o, k, b, n, v) && !InLimits(plan.columns[k].sequence.value, v)
  }

  /** Some table's constraints refuse its rows with the copies under fresh keys. */
  ghost predicate Refused(plan: Plan, roots: Roots, o: Origin, keys: KeyMap, t: string) {
    AllReserved(plan, roots, o.stored, o.incoming, keys) && t in plan.tables &&
    !plan.admits(t, RowsOf(o.stored, t) + RemapAll(roots, keys, t, RowsOf(o.incoming, t)))
  }

  /** Each failure has its reason in the schema, the rows or the sequences. */
  ghost predicate Justified(plan: Plan, roots: Roots, o: Origin, fault: Fault) {
    match fault
    case KeyCycleUnsupported => exists path :: Cycle(plan.schema, path)
    case KeyRelationshipUnsupported => forall other :: !Right(plan.schema, other)
    case CyclingSequence => exists k :: k in plan.columns && Cycles(plan.columns[k])
    case SequenceDirection =>
      exists j, k :: j in plan.columns && k in plan.columns && Opposed(plan.columns[j], plan.columns[k])
    case NotANumber => OddValue(plan, roots, o.stored) || OddValue(plan, roots, o.incoming)
    case SequenceExhausted => Exhausted(plan, o)
    case DuplicateKey => exists k :: k in plan.columns && DuplicatedIn(plan, o.incoming, k)
    case KeyOutsideWorkspace => exists t, r, c :: t in plan.tables && Stray(roots, o.incoming, t, r, c)
    case InsertRefused => exists keys, t :: Refused(plan, roots, o, keys, t)
    case ParentUnscoped => exists t, f :: t in plan.tables && Unfit(plan, roots, o.incoming, t, f)
    case ForeignKeyInvalid => exists t, f :: t in plan.tables && Unfit(plan, roots, o.incoming, t, f)
  }

  predicate Cycles(c: Column) { c.sequence.Some? && c.sequence.value.cycle }

  /** A unique column repeats a value among the incoming rows. */
  ghost predicate DuplicatedIn(plan: Plan, incoming: Tables, k: Key)
    requires k in plan.columns
  {
    plan.columns[k].globallyUnique && Repeats(RowsOf(incoming, k.table), k.column)
  }

  // ---- What the sequences come to -----------------------------------------------------------------

  /** The sequences of all columns but the given ones stand where they did, and none stands
      anywhere that the copy could not bring it. */
  ghost predicate Tracked(plan: Plan, o: Origin, sequences: map<string, Counter>, moved: set<Key>) {
    forall k {:trigger StandsWell(plan, o, sequences, moved, k)} :: k in plan.columns ==>
      StandsWell(plan, o, sequences, moved, k)
  }

  ghost predicate StandsWell(plan: Plan, o: Origin, sequences: map<string, Counter>, moved: set<Key>, k: Key)
    requires k in plan.columns
  {
    plan.columns[k].sequence.Some? ==>
      var name := plan.columns[k].sequence.value.name;
      name in sequences && Attained(plan, o, sequences[name].last) &&
      (k !in moved ==> name in o.sequences && sequences[name] == o.sequences[name])
  }

  ghost predicate AllAttained(plan: Plan, o: Origin, m: map<int, int>) {
    forall x {:trigger m[x]} :: x in m ==> Attained(plan, o, m[x])
  }

  ghost predicate KeysAttained(plan: Plan, o: Origin, keys: KeyMap) {
    forall root {:trigger keys[root]} :: root in keys ==> AllAttained(plan, o, keys[root])
  }

  lemma NothingMoved(plan: Plan, o: Origin)
    requires forall k {:trigger k in plan.columns} :: k in plan.columns ==> Steps(plan.columns[k], o.sequences)
    ensures Tracked(plan, o, o.sequences, {})
  {
    forall k | k in plan.columns ensures StandsWell(plan, o, o.sequences, {}, k) {
      if plan.columns[k].sequence.Some? {
        assert UsedBy(plan, o, k, o.sequences[plan.columns[k].sequence.value.name].last);
      }
    }
  }

  /** Drawing for one root moves its sequence alone. */
  lemma MovedOne(plan: Plan, o: Origin, rows: Tables, sequences: map<string, Counter>, moved: set<Key>, root: Key,
      c: Counter)
    requires Sound(plan, rows, sequences) && Tracked(plan, o, sequences, moved)
    requires root in plan.columns && plan.columns[root].sequence.Some? && Attained(plan, o, c.last)
    ensures Tracked(plan, o, sequences[plan.columns[root].sequence.value.name := c], moved + {root})
  {
    var after := sequences[plan.columns[root].sequence.value.name := c];
    forall k | k in plan.columns ensures StandsWell(plan, o, after, moved + {root}, k) {
      assert StandsWell(plan, o, sequences, moved, k);
      if k != root { assert !SameSequence(plan.columns[k], plan.columns[root]); }
    }
  }

  /** Everything drawn from a value in use can be attained. */
  lemma DrawnAttained(plan: Plan, o: Origin, root: Key, b: int, rows: seq<Row>, m: map<int, int>, c: Counter)
    requires root in plan.columns && plan.columns[root].sequence.Some? && InUse(plan, o, b)
    requires rows == RowsOf(o.incoming, root.table)
    requires var q := plan.columns[root].sequence.value; var start := Counter(b + q.increment, false);
      (forall x :: x in m ==> Among(q, start, |rows|, m[x])) &&
      (c == start || exists k: nat :: k < |rows| && c == Counter(Nth(q, start, k), true))
    ensures AllAttained(plan, o, m) && Attained(plan, o, c.last)
  {
    var q := plan.columns[root].sequence.value;
    var start := Counter(b + q.increment, false);
    forall x | x in m ensures Attained(plan, o, m[x]) {
      var n: nat :| n < |rows| && m[x] == Nth(q, start, n);
      assert CountsTo(plan, o, root, b, n, m[x]);
    }
    if c == start {
      assert CountsTo(plan, o, root, b, 0, c.last);
    } else {
      var n: nat :| n < |rows| && c == Counter(Nth(q, start, n), true);
      assert CountsTo(plan, o, root, b, n, c.last);
    }
  }

  // ---- Reserving root after root ------------------------------------------------------------------

  /** Every root is reserved or still to do. */
  ghost predicate Reserving(plan: Plan, roots: Roots, o: Origin, sequences: map<string, Counter>, keys: KeyMap,
      todo: set<Key>)
  {
    && todo <= roots.Values && keys.Keys == roots.Values - todo
    && EachReserved(plan, roots, o.stored, o.incoming, keys)
    && KeysAttained(plan, o, keys) && Tracked(plan, o, sequences, keys.Keys)
  }

  lemma ReservedOneMore(plan: Plan, roots: Roots, o: Origin, sequences: map<string, Counter>, keys: KeyMap,
      todo: set<Key>, root: Key, m: map<int, int>)
    requires todo <= roots.Values && keys.Keys == roots.Values - todo && root in todo
    requires EachReserved(plan, roots, o.stored, o.incoming, keys) &&
      Reserved(plan, roots, o.stored, o.incoming, root, m)
    requires KeysAttained(plan, o, keys) && AllAttained(plan, o, m) && Tracked(plan, o, sequences, keys.Keys + {root})
    ensures Reserving(plan, roots, o, sequences, keys[root := m], todo - {root})
  {
    var more := keys[root := m];
    assert more.Keys == keys.Keys + {root};
    forall r | r in more ensures Reserved(plan, roots, o.stored, o.incoming, r, more[r]) {
      if r != root { assert Reserved(plan, roots, o.stored, o.incoming, r, keys[r]); }
    }
  }

  /** A root to be reserved can supply values, and no column that has it is reserved yet. */
  lemma RootSupplies(plan: Plan, roots: Roots, o: Origin, sequences: map<string, Counter>, keys: KeyMap, todo: set<Key>,
      root: Key)
    requires Acyclic(plan.schema) && Right(plan.schema, roots) && root in todo
    requires Reserving(plan, roots, o, sequences, keys, todo)
    ensures root in roots && roots[root] == root && root in plan.schema.columns && plan.schema.OwnsSequence(root)
    ensures Sharing(roots, root) !! keys.Keys
  {
    var k :| k in roots && roots[k] == root;
    SharedRoots(plan.schema, roots, k);
    forall j | j in Sharing(roots, root) ensures j !in keys {
      if j in keys {
        var h :| h in roots && roots[h] == j;
        SharedRoots(plan.schema, roots, h);
      }
    }
  }

  lemma NothingReserved(plan: Plan, roots: Roots, o: Origin)
    requires forall k {:trigger k in plan.columns} :: k in plan.columns ==> Steps(plan.columns[k], o.sequences)
    ensures Reserving(plan, roots, o, o.sequences, map[], roots.Values)
  {
    NothingMoved(plan, o);
    var none: KeyMap := map[];
    assert none.Keys == {} && Tracked(plan, o, o.sequences, none.Keys);
  }

  /** A sequence that cannot be restarted past a value has no room, or cycles. */
  lemma RestartRefused(plan: Plan, roots: Roots, o: Origin, k: Key, b: int, fault: Fault)
    requires k in plan.columns && plan.columns[k].sequence.Some? && Attained(plan, o, b)
    requires var q := plan.columns[k].sequence.value;
      if fault.CyclingSequence? then q.cycle else fault.SequenceExhausted? && !InLimits(q, b + q.increment)
    ensures Justified(plan, roots, o, fault) && OfSequences(fault) && (fault.SequenceExhausted? ==> Exhausted(plan, o))
  {
    if fault.SequenceExhausted? {
      assert CountsTo(plan, o, k, b, 0, b + plan.columns[k].sequence.value.increment);
    } else {
      assert Cycles(plan.columns[k]);
    }
  }

  lemma DrawingRefused(plan: Plan, roots: Roots, o: Origin, root: Key, b: int, fault: Fault)
    requires root in plan.columns && plan.columns[root].sequence.Some? && plan.columns[root].globallyUnique &&
      InUse(plan, o, b)
    requires var q := plan.columns[root].sequence.value; var rows := RowsOf(o.incoming, root.table);
      if fault.DuplicateKey? then Repeats(rows, root.column)
      else fault.SequenceExhausted? && RunsOut(q, Counter(b + q.increment, false), |rows|)
    ensures Justified(plan, roots, o, fault)
  {
    if fault.SequenceExhausted? {
      var q := plan.columns[root].sequence.value;
      var n: nat :| n < |RowsOf(o.incoming, root.table)| && !InLimits(q, Nth(q, Counter(b + q.increment, false), n));
      assert Attained(plan, o, b) && CountsTo(plan, o, root, b, n, Nth(q, Counter(b + q.increment, false), n));
    } else {
      assert DuplicatedIn(plan, o.incoming, root);
    }
  }

  /** Whatever a copied table holds was in use or drawn. */
  lemma CopiedAttained(plan: Plan, o: Origin, after: Tables, roots: Roots, keys: KeyMap, k: Key, v: int)
    requires k in plan.columns && KeysAttained(plan, o, keys) &&
      Inserted(o.stored, after, plan.tables, o.incoming, roots, keys)
    requires v in Numbers(RowsOf(after, k.table), k.column)
    ensures Attained(plan, o, v)
  {
    var r :| r in RowsOf(after, k.table) && r.Get(k.column).Number? && r.Get(k.column).n == v;
    if r in RowsOf(o.stored, k.table) {
      assert UsedBy(plan, o, k, v);
    } else {
      var copies := RemapAll(roots, keys, k.table, RowsOf(o.incoming, k.table));
      assert r in copies;
      var i :| 0 <= i < |copies| && copies[i] == r;
      RemappedAttained(plan, o, roots, keys, k, RowsOf(o.incoming, k.table)[i], v);
    }
  }

  /** A number in a remapped row was drawn, or was there before. */
  lemma RemappedAttained(plan: Plan, o: Origin, roots: Roots, keys: KeyMap, k: Key, from: Row, v: int)
    requires k in plan.columns && KeysAttained(plan, o, keys) && from in RowsOf(o.incoming, k.table)
    requires RemapRow(roots, keys, k.table, from).Get(k.column) == Number(v)
    ensures Attained(plan, o, v)
  {
    if Mapped(roots, keys, k.table, k.column) {
      assert k == Key(k.table, k.column) && AllAttained(plan, o, keys[roots[k]]);
    } else {
      assert from.Get(k.column) == Number(v) && UsedBy(plan, o, k, v);
    }
  }

  /** The next value of the column's sequence lies past every value stored in the column. */
  ghost predicate Ahead(c: Column, k: Key, rows: Tables, sequences: map<string, Counter>) {
    c.sequence.Some? ==>
      var q := c.sequence.value;
      q.name in sequences && forall x :: x in Numbers(RowsOf(rows, k.table), k.column) ==>
        Past(q.increment, NextValue(q, sequences[q.name]), x)
  }

  /** No value of these columns lies past the boundary. */
  ghost predicate AllBounded(increment: int, boundary: Option<int>, rows: Tables, incoming: Tables, keys: set<Key>) {
    forall k {:trigger k in keys} :: k in keys ==> Bounded(increment, boundary, rows, incoming, k)
  }

  ghost predicate Bounded(increment: int, boundary: Option<int>, rows: Tables, incoming: Tables, k: Key) {
    Bounds(increment, boundary, Numbers(RowsOf(rows, k.table), k.column)) &&
    Bounds(increment, boundary, Numbers(RowsOf(incoming, k.table), k.column))
  }

  lemma BoundedByFurther(increment: int, a: Option<int>, b: Option<int>, rows: Tables, incoming: Tables,
      keys: set<Key>, k: Key)
    requires AllBounded(increment, b, rows, incoming, keys) && Bounded(increment, a, rows, incoming, k)
    ensures AllBounded(increment, Further(increment, a, b), rows, incoming, keys + {k})
  {
    forall j | j in keys + {k} ensures Bounded(increment, Further(increment, a, b), rows, incoming, j) {
      if j != k { assert j in keys; }
    }
  }

  /** Keys drawn past the boundary are reserved. */
  lemma DrawnIsReserved(plan: Plan, roots: Roots, rows: Tables, incoming: Tables, root: Key, boundary: int,
      m: map<int, int>, c: Counter)
    requires root in plan.columns && plan.columns[root].sequence.Some?
    requires Drawn(plan.columns[root].sequence.value, boundary, m, c) &&
      m.Keys == Numbers(RowsOf(incoming, root.table), root.column)
    requires AllBounded(plan.columns[root].sequence.value.increment, Some(boundary), rows, incoming,
      Sharing(roots, root))
    ensures Reserved(plan, roots, rows, incoming, root, m)
  {
    var increment := plan.columns[root].sequence.value.increment;
    forall k | k in roots && roots[k] == root
      ensures PastAll(increment, m, Numbers(RowsOf(rows, k.table), k.column)) &&
        PastAll(increment, m, Numbers(RowsOf(incoming, k.table), k.column))
    {
      assert k in Sharing(roots, root) && Bounded(increment, Some(boundary), rows, incoming, k);
    }
  }

  lemma BoundaryFault(plan: Plan, roots: Roots, o: Origin, root: Key, k: Key, increment: int, fault: Fault)
    requires k in plan.columns && (k in roots || plan.columns[k].sequence.Some?)
    requires Explained(fault, RowsOf(o.stored, k.table), RowsOf(o.incoming, k.table), k.column, plan.columns[k],
      increment)
    requires root in plan.columns && plan.columns[root].sequence.Some? &&
      plan.columns[root].sequence.value.increment == increment
    ensures Justified(plan, roots, o, fault) && OfSequences(fault) && !fault.SequenceExhausted?
  {
    if fault.SequenceDirection? {
      assert Opposed(plan.columns[k], plan.columns[root]);
    }
  }

  /** The sequences keep their names. */
  lemma StaysSound(plan: Plan, rows: Tables, sequences: map<string, Counter>, rows': Tables,
      sequences': map<string, Counter>)
    requires Sound(plan, rows, sequences) && rows'.Keys == rows.Keys && sequences.Keys <= sequences'.Keys
    ensures Sound(plan, rows', sequences')
  {
  }

  /** Every value to be rewritten has a replacement, in every table. */
  ghost predicate AllMapped(roots: Roots, keys: KeyMap, tables: seq<string>, incoming: Tables) {
    forall t {:trigger NoneMissing(roots, keys, t, RowsOf(incoming, t))} :: t in tables ==>
      NoneMissing(roots, keys, t, RowsOf(incoming, t))
  }

  /** The table's constraints admit its rows with the copies. */
  ghost predicate Admitted(plan: Plan, before: Tables, incoming: Tables, roots: Roots, keys: KeyMap, t: string) {
    plan.admits(t, RowsOf(before, t) + RemapAll(roots, keys, t, RowsOf(incoming, t)))
  }

  ghost predicate AllAdmitted(plan: Plan, before: Tables, incoming: Tables, roots: Roots, keys: KeyMap,
      tables: seq<string>)
  {
    forall t {:trigger Admitted(plan, before, incoming, roots, keys, t)} :: t in tables ==>
      Admitted(plan, before, incoming, roots, keys, t)
  }

  ghost predicate AllAhead(plan: Plan, rows: Tables, sequences: map<string, Counter>, keys: set<Key>) {
    forall k {:trigger k in keys} :: k in keys ==> k in plan.columns && Ahead(plan.columns[k], k, rows, sequences)
  }

  /** Every number in a sequence or key column can be attained. */
  ghost predicate RowsAttained(plan: Plan, o: Origin, rows: Tables) {
    forall k, v {:trigger v in Numbers(RowsOf(rows, k.table), k.column)} ::
      k in plan.columns && v in Numbers(RowsOf(rows, k.table), k.column) ==> Attained(plan, o, v)
  }

  lemma BoundaryAttained(plan: Plan, o: Origin, rows: Tables, k: Key, b: int, last: int)
    requires k in plan.columns && RowsAttained(plan, o, rows) && Attained(plan, o, last)
    requires b in Numbers(RowsOf(rows, k.table), k.column) || b in Numbers([], k.column) || b == last
    ensures Attained(plan, o, b)
  {
  }

  /** The sequences of these columns are not restarted yet. */
  ghost predicate Pending(plan: Plan, sequences: map<string, Counter>, was: map<string, Counter>, todo: set<Key>) {
    forall k {:trigger k in todo} :: k in todo && k in plan.columns && plan.columns[k].sequence.Some? ==>
      var name := plan.columns[k].sequence.value.name;
      name in sequences && name in was && sequences[name] == was[name]
  }

  lemma PendingOneLess(plan: Plan, rows: Tables, sequences: map<string, Counter>, was: map<string, Counter>,
      todo: set<Key>, k: Key, c: Counter)
    requires Sound(plan, rows, sequences) && Pending(plan, sequences, was, todo)
    requires k in plan.columns && plan.columns[k].sequence.Some?
    ensures Pending(plan, sequences[plan.columns[k].sequence.value.name := c], was, todo - {k})
  {
    forall j | j in todo - {k} && j in plan.columns && plan.columns[j].sequence.Some?
      ensures plan.columns[j].sequence.value.name != plan.columns[k].sequence.value.name
    {
      assert SameSequence(plan.columns[j], plan.columns[k]) ==> j == k;
    }
  }

  /** A counter whose next value lies past every value stored in the column. */
  ghost predicate BeyondColumn(plan: Plan, rows: Tables, k: Key, c: Counter)
    requires k in plan.columns && plan.columns[k].sequence.Some?
  {
    var q := plan.columns[k].sequence.value;
    forall x :: x in Numbers(RowsOf(rows, k.table), k.column) ==> Past(q.increment, NextValue(q, c), x)
  }

  /** Why the last restart may fail: a sequence has no room left, or the rows or columns are odd. */
  ghost predicate RestartFailed(plan: Plan, o: Origin, rows: Tables, fault: Fault) {
    OfSequences(fault) &&
    if fault.SequenceExhausted? then Exhausted(plan, o) else Justified(plan, map[], Origin(rows, map[], map[]), fault)
  }

  /** Restarting one column's sequence leaves the other columns' alone. */
  lemma AheadOneMore(plan: Plan, rows: Tables, sequences: map<string, Counter>, keys: set<Key>, k: Key,
      c: Counter)
    requires Sound(plan, rows, sequences) && AllAhead(plan, rows, sequences, keys)
    requires k in plan.columns && plan.columns[k].sequence.Some? && BeyondColumn(plan, rows, k, c)
    ensures AllAhead(plan, rows, sequences[plan.columns[k].sequence.value.name := c], keys + {k})
  {
    var after := sequences[plan.columns[k].sequence.value.name := c];
    forall j | j in keys + {k} ensures j in plan.columns && Ahead(plan.columns[j], j, rows, after) {
      if j != k {
        assert j in keys;
        assert !SameSequence(plan.columns[j], plan.columns[k]);
      }
    }
  }

  ghost function Sharing(roots: Roots, root: Key): set<Key> { set k | k in roots && roots[k] == root }

  // ---- The target cell --------------------------------------------------------------------------

  class TargetCell {
    var rows: Tables
    var sequences: map<string, Counter>

    method DeleteWorkspace(tables: seq<string>, workspace: string)
      requires forall t :: t in tables ==> t in rows
      requires forall i, j :: 0 <= i < j < |tables| ==> tables[i] != tables[j]
      modifies this`rows
      ensures rows == Remaining(old(rows), tables, workspace)
    {
      var i := |tables|;
      while 0 < i
        invariant 0 <= i <= |tables| && rows == Remaining(old(rows), tables[i..], workspace)
      {
        i := i - 1;
        var t := tables[i];
        assert t !in tables[i + 1..] && tables[i..] == [t] + tables[i + 1..];
        rows := rows[t := RowsOutside(rows[t], workspace)];
      }
    }

    /** The boundary over one column that has the root. */
    method ColumnBoundary(plan: Plan, roots: Roots, incoming: Tables, root: Key, k: Key, ghost o: Origin,
        ghost moved: set<Key>)
        returns (b: Result<Option<int>>)
      requires Sound(plan, rows, sequences) && roots.Keys <= plan.schema.columns.Keys
      requires o.stored == rows && o.incoming == incoming && Tracked(plan, o, sequences, moved) && k !in moved
      requires root in plan.columns && plan.columns[root].sequence.Some? && k in Sharing(roots, root)
      ensures b.Ok? ==> Bounded(plan.columns[root].sequence.value.increment, b.value, rows, incoming, k)
      ensures b.Ok? && k == root ==> b.value.Some?
      ensures b.Ok? && b.value.Some? ==> InUse(plan, o, b.value.value)
      ensures b.Failed? ==> Justified(plan, roots, o, b.fault)
    {
      var increment := plan.columns[root].sequence.value.increment;
      assert k in plan.columns && Steps(plan.columns[k], sequences) && StandsWell(plan, o, sequences, moved, k);
      b := SequenceBoundary(RowsOf(rows, k.table), RowsOf(incoming, k.table), k.column, plan.columns[k], sequences,
        increment);
      if b.Failed? {
        BoundaryFault(plan, roots, o, root, k, increment, b.fault);
      } else if b.value.Some? {
        assert UsedBy(plan, o, k, b.value.value);
      }
    }

    /** The boundary over every column that has the root. */
    method RootBoundary(plan: Plan, roots: Roots, incoming: Tables, root: Key, ghost o: Origin, ghost moved: set<Key>)
        returns (b: Result<int>)
      requires Sound(plan, rows, sequences) && roots.Keys <= plan.schema.columns.Keys
      requires o.stored == rows && o.incoming == incoming && Tracked(plan, o, sequences, moved) &&
        Sharing(roots, root) !! moved
      requires root in roots && roots[root] == root && plan.schema.OwnsSequence(root)
      ensures b.Ok? ==> AllBounded(plan.columns[root].sequence.value.increment, Some(b.value), rows, incoming,
        Sharing(roots, root))
      ensures b.Ok? ==> InUse(plan, o, b.value)
      ensures b.Failed? ==> Justified(plan, roots, o, b.fault)
    {
      var increment := plan.columns[root].sequence.value.increment;
      var boundary: Option<int> := None;
      var todo := set k | k in roots && roots[k] == root;
      ghost var done: set<Key> := {};
      while todo != {}
        invariant todo + done == Sharing(roots, root) && (root in todo || boundary.Some?)
        invariant AllBounded(increment, boundary, rows, incoming, done)
        invariant boundary.Some? ==> InUse(plan, o, boundary.value)
        decreases |todo|
      {
        var k :| k in todo;
        assert k in Sharing(roots, root);
        var extreme := ColumnBoundary(plan, roots, incoming, root, k, o, moved);
        if extreme.Failed? { return Failed(extreme.fault); }
        BoundedByFurther(increment, extreme.value, boundary, rows, incoming, done, k);
        boundary := Further(increment, extreme.value, boundary);
        todo, done := todo - {k}, done + {k};
      }
      assert done == Sharing(roots, root);
      b := Ok(boundary.value);
    }

    /** Restarts the root's sequence past everything in use, and draws the replacements. */
    method ReserveRoot(plan: Plan, roots: Roots, incoming: Tables, root: Key, ghost o: Origin, ghost moved: set<Key>)
        returns (m: Result<map<int, int>>)
      requires Sound(plan, rows, sequences) && roots.Keys <= plan.schema.columns.Keys
      requires o.stored == rows && o.incoming == incoming && Tracked(plan, o, sequences, moved) &&
        Sharing(roots, root) !! moved
      requires root in roots && roots[root] == root && plan.schema.OwnsSequence(root)
      modifies this`sequences
      ensures sequences.Keys == old(sequences).Keys
      ensures m.Ok? ==> Reserved(plan, roots, rows, incoming, root, m.value)
      ensures m.Ok? ==> AllAttained(plan, o, m.value) && Tracked(plan, o, sequences, moved + {root})
      ensures m.Failed? ==> Justified(plan, roots, o, m.fault)
    {
      var q := plan.columns[root].sequence.value;
      assert root in plan.columns && Steps(plan.columns[root], sequences);
      var b := RootBoundary(plan, roots, incoming, root, o, moved);
      if b.Failed? { return Failed(b.fault); }
      var start := RestartBeyond(q, b.value);
      if start.Failed? {
        RestartRefused(plan, roots, o, root, b.value, start.fault);
        return Failed(start.fault);
      }
      var c;
      m, c := DrawReplacements(q, start.value, RowsOf(incoming, root.table), root.column, b.value);
      if m.Failed? {
        DrawingRefused(plan, roots, o, root, b.value, m.fault);
        return;
      }
      DrawnIsReserved(plan, roots, rows, incoming, root, b.value, m.value, c);
      DrawnAttained(plan, o, root, b.value, RowsOf(incoming, root.table), m.value, c);
      MovedOne(plan, o, rows, sequences, moved, root, c);
      sequences := sequences[q.name := c];
    }

    /** reserveDynamicKeyMappings */
    method ReserveKeys(plan: Plan, roots: Roots, incoming: Tables) returns (r: Result<KeyMap>)
      requires Sound(plan, rows, sequences) && Acyclic(plan.schema) && Right(plan.schema, roots)
      modifies this`sequences
      ensures sequences.Keys == old(sequences).Keys
      ensures r.Failed? ==> Justified(plan, roots, Origin(rows, incoming, old(sequences)), r.fault)
      ensures r.Ok? ==> Reserving(plan, roots, Origin(rows, incoming, old(sequences)), sequences, r.value, {})
    {
      ghost var o := Origin(rows, incoming, sequences);
      var keys: KeyMap := map[];
      var todo := roots.Values;
      NothingReserved(plan, roots, o);
      while todo != {}
        invariant sequences.Keys == old(sequences).Keys && Reserving(plan, roots, o, sequences, keys, todo)
        decreases |todo|
      {
        var root :| root in todo;
        RootSupplies(plan, roots, o, sequences, keys, todo, root);
        StaysSound(plan, rows, old(sequences), rows, sequences);
        var m := ReserveRoot(plan, roots, incoming, root, o, keys.Keys);
        if m.Failed? { return Failed(m.fault); }
        ReservedOneMore(plan, roots, o, sequences, keys, todo, root, m.value);
        keys := keys[root := m.value];
        todo := todo - {root};
      }
      r := Ok(keys);
    }

    /** remapRows and insertRows for every table. */
    method InsertRows(plan: Plan, incoming: Tables, roots: Roots, keys: KeyMap) returns (fault: Option<Fault>)
      requires forall t :: t in plan.tables ==> t in rows
      requires forall i, j :: 0 <= i < j < |plan.tables| ==> plan.tables[i] != plan.tables[j]
      modifies this`rows
      ensures fault.None? <==>
        AllMapped(roots, keys, plan.tables, incoming) &&
        AllAdmitted(plan, old(rows), incoming, roots, keys, plan.tables)
      ensures fault.None? ==> Inserted(old(rows), rows, plan.tables, incoming, roots, keys)
      ensures fault == Some(KeyOutsideWorkspace) ==> !AllMapped(roots, keys, plan.tables, incoming)
      ensures fault == Some(InsertRefused) ==> !AllAdmitted(plan, old(rows), incoming, roots, keys, plan.tables)
      ensures fault.Some? ==> fault.value.KeyOutsideWorkspace? || fault.value.InsertRefused?
    {
      var tables := plan.tables;
      for i := 0 to |tables|
        invariant Inserted(old(rows), rows, tables[..i], incoming, roots, keys)
        invariant AllMapped(roots, keys, tables[..i], incoming) &&
          AllAdmitted(plan, old(rows), incoming, roots, keys, tables[..i])
      {
        var t := tables[i];
        assert t !in tables[..i] && tables[..i + 1] == tables[..i] + [t];
        var expected := RemapAll(roots, keys, t, RowsOf(incoming, t));
        NoneMissingAt(roots, keys, t, RowsOf(incoming, t));
        if exists j :: 0 <= j < |expected| && Missing(RowsOf(incoming, t)[j], expected[j]) {
          MissingSomewhere(roots, keys, tables, incoming, t);
          return Some(KeyOutsideWorkspace);
        }
        assert rows[t] == old(rows)[t];
        if !plan.admits(t, rows[t] + expected) {
          assert !Admitted(plan, old(rows), incoming, roots, keys, t);
          return Some(InsertRefused);
        }
        InsertedOneMore(plan, old(rows), rows, tables[..i], incoming, roots, keys, t);
        rows := rows[t := rows[t] + expected];
      }
      assert tables[..|tables|] == tables;
      fault := None;
    }

    /** verifyForeignKeys for one table. */
    method VerifyForeignKeys(plan: Plan, workspace: string, table: string) returns (fault: Option<Fault>)
      ensures fault.None? <==> KeysHold(plan, rows, workspace, table)
      ensures fault.Some? ==> fault.value.ParentUnscoped? || fault.value.ForeignKeyInvalid?
    {
      var fks := plan.schema.KeysOf(table);
      for j := 0 to |fks|
        invariant forall f {:trigger f in fks[..j]} :: f in fks[..j] ==>
          ConstraintHolds(plan, rows, workspace, table, f.constraint)
      {
        var f := fks[j];
        assert f in fks && fks[..j + 1] == fks[..j] + [f];
        var parts := Parts(fks, f.constraint);
        PartsInclude(fks, f);
        if parts[0].parentTable !in plan.tables { return Some(ParentUnscoped); }
        var children, parents := RowsIn(RowsOf(rows, table), workspace),
          RowsIn(RowsOf(rows, parts[0].parentTable), workspace);
        if exists child :: child in children && Broken(parts, child, parents) {
          return Some(ForeignKeyInvalid);
        }
      }
      assert fks[..|fks|] == fks;
      fault := None;
    }

    method VerifyTables(plan: Plan, workspace: string) returns (fault: Option<Fault>)
      ensures fault.None? <==> AllKeysHold(plan, rows, workspace, plan.tables)
      ensures fault.Some? ==> fault.value.ParentUnscoped? || fault.value.ForeignKeyInvalid?
    {
      for i := 0 to |plan.tables|
        invariant AllKeysHold(plan, rows, workspace, plan.tables[..i])
      {
        assert plan.tables[i] in plan.tables && plan.tables[..i + 1] == plan.tables[..i] + [plan.tables[i]];
        fault := VerifyForeignKeys(plan, workspace, plan.tables[i]);
        if fault.Some? { return; }
      }
      assert plan.tables[..|plan.tables|] == plan.tables;
      fault := None;
    }

    /** Where the sequence of one column restarts, past the column's values and its own. */
    method RestartColumn(plan: Plan, k: Key, ghost o: Origin) returns (c: Result<Counter>)
      requires Sound(plan, rows, sequences) && RowsAttained(plan, o, rows)
      requires k in plan.columns && plan.columns[k].sequence.Some?
      requires Attained(plan, o, sequences[plan.columns[k].sequence.value.name].last)
      ensures c.Ok? ==> BeyondColumn(plan, rows, k, c.value)
      ensures c.Failed? ==> RestartFailed(plan, o, rows, c.fault)
    {
      var q := plan.columns[k].sequence.value;
      assert Steps(plan.columns[k], sequences);
      var b := SequenceBoundary(RowsOf(rows, k.table), [], k.column, plan.columns[k], sequences, q.increment);
      if b.Failed? {
        BoundaryFault(plan, map[], Origin(rows, map[], map[]), k, k, q.increment, b.fault);
        return Failed(b.fault);
      }
      c := RestartBeyond(q, b.value.value);
      if c.Failed? {
        BoundaryAttained(plan, o, rows, k, b.value.value, sequences[q.name].last);
        RestartRefused(plan, map[], o, k, b.value.value, c.fault);
      }
    }

    /** The final restart of every sequence beyond the values stored by then. */
    method RestartSequences(plan: Plan, ghost o: Origin, ghost moved: set<Key>) returns (fault: Option<Fault>)
      requires Sound(plan, rows, sequences) && Tracked(plan, o, sequences, moved) && RowsAttained(plan, o, rows)
      modifies this`sequences
      ensures fault.None? ==> AllAhead(plan, rows, sequences, plan.columns.Keys)
      ensures fault.Some? ==> RestartFailed(plan, o, rows, fault.value)
    {
      var todo := plan.columns.Keys;
      ghost var done: set<Key> := {};
      while todo != {}
        invariant todo + done == plan.columns.Keys && sequences.Keys == old(sequences).Keys
        invariant AllAhead(plan, rows, sequences, done)
        invariant Pending(plan, sequences, old(sequences), todo)
        decreases |todo|
      {
        var k :| k in todo;
        StaysSound(plan, rows, old(sequences), rows, sequences);
        if plan.columns[k].sequence.Some? {
          assert StandsWell(plan, o, old(sequences), moved, k);
          var c := RestartColumn(plan, k, o);
          if c.Failed? { return Some(c.fault); }
          AheadOneMore(plan, rows, sequences, done, k, c.value);
          PendingOneLess(plan, rows, sequences, old(sequences), todo, k, c.value);
          sequences := sequences[plan.columns[k].sequence.value.name := c.value];
        }
        todo, done := todo - {k}, done + {k};
      }
      assert done == plan.columns.Keys;
      fault := None;
    }

    method ResolveRoots(plan: Plan, ghost o: Origin) returns (fault: Option<Fault>, roots: Roots)
      requires plan.schema.Listed()
      ensures fault.None? ==> Acyclic(plan.schema) && Right(plan.schema, roots)
      ensures fault.Some? ==> Justified(plan, roots, o, fault.value)
    {
      var resolution := DynamicKeyRoots(plan.schema);
      match resolution
      case Resolved(found) => fault, roots := None, found;
      case KeyCycle => fault, roots := Some(KeyCycleUnsupported), map[];
      case KeyRelationship => fault, roots := Some(KeyRelationshipUnsupported), map[];
    }

    /** Deletes the workspace's rows and inserts the remapped ones. */
    method ReplaceRows(plan: Plan, workspace: string, incoming: Tables, roots: Roots)
        returns (fault: Option<Fault>, keys: KeyMap)
      requires Sound(plan, rows, sequences) && Acyclic(plan.schema) && Right(plan.schema, roots)
      modifies this
      ensures sequences.Keys == old(sequences).Keys
      ensures fault.None? ==> Replaced(plan, workspace, incoming, old(rows), rows, roots, keys)
      ensures var o := Beginning(plan, workspace, old(rows), incoming, old(sequences));
        if fault.Some? then Justified(plan, roots, o, fault.value)
        else KeysAttained(plan, o, keys) && Tracked(plan, o, sequences, keys.Keys)
    {
      DeleteWorkspace(plan.tables, workspace);
      StaysSound(plan, old(rows), sequences, rows, sequences);
      var reserved := ReserveKeys(plan, roots, incoming);
      if reserved.Failed? { return Some(reserved.fault), map[]; }
      keys := reserved.value;
      fault := InsertRows(plan, incoming, roots, keys);
      if fault.Some? {
        InsertionFault(plan, roots, Beginning(plan, workspace, old(rows), incoming, old(sequences)), keys, fault.value);
      }
    }

    /** The steps of copyDatabase between BEGIN and COMMIT. */
    method CopySteps(plan: Plan, workspace: string, incoming: Tables)
        returns (fault: Option<Fault>, roots: Roots, keys: KeyMap)
      requires Sound(plan, rows, sequences) && OwnRows(incoming, workspace)
      modifies this
      ensures fault.None? ==> Complete(plan, workspace, incoming, old(rows), rows, sequences, roots, keys)
      ensures fault.Some? ==> Justified(plan, roots, Beginning(plan, workspace, old(rows), incoming, old(sequences)),
        fault.value)
    {
      keys := map[];
      ghost var o := Beginning(plan, workspace, rows, incoming, sequences);
      fault, roots := ResolveRoots(plan, o);
      if fault.Some? { return; }
      fault, keys := ReplaceRows(plan, workspace, incoming, roots);
      if fault.Some? { return; }
      StaysSound(plan, old(rows), old(sequences), old(rows), sequences);
      fault := Finish(plan, workspace, o, old(rows), roots, keys);
    }

    /** Checks the foreign keys and restarts the sequences. */
    method Finish(plan: Plan, workspace: string, ghost o: Origin, ghost before: Tables, ghost roots: Roots,
        ghost keys: KeyMap)
      returns (fault: Option<Fault>)
      requires Sound(plan, before, sequences) && OwnRows(o.incoming, workspace) && Right(plan.schema, roots)
      requires o.stored == Remaining(before, plan.tables, workspace)
      requires Replaced(plan, workspace, o.incoming, before, rows, roots, keys)
      requires KeysAttained(plan, o, keys) && Tracked(plan, o, sequences, keys.Keys)
      modifies this`sequences
      ensures fault.None? ==>
        AllKeysHold(plan, rows, workspace, plan.tables) &&
        AllAhead(plan, rows, sequences, plan.columns.Keys)
      ensures fault.Some? ==> Justified(plan, roots, o, fault.value)
    {
      fault := VerifyTables(plan, workspace);
      if fault.Some? {
        VerificationFault(plan, workspace, before, sequences, o.incoming, rows, roots, keys);
        return;
      }
      StaysSound(plan, before, sequences, rows, sequences);
      AllCopiedAttained(plan, o, rows, roots, keys);
      fault := RestartSequences(plan, o, keys.Keys);
      if fault.Some? { RestartFault(plan, o, rows, roots, keys, fault.value); }
    }

    /** copyDatabase: all or nothing. */
    method CopyDatabase(plan: Plan, workspace: string, incoming: Tables)
        returns (fault: Option<Fault>, roots: Roots, keys: KeyMap)
      requires Sound(plan, rows, sequences) && OwnRows(incoming, workspace)
      modifies this
      ensures fault.None? ==> Complete(plan, workspace, incoming, old(rows), rows, sequences, roots, keys)
      ensures fault.Some? ==> Justified(plan, roots, Beginning(plan, workspace, old(rows), incoming, old(sequences)),
        fault.value)
      ensures fault.Some? ==> rows == old(rows) && sequences == old(sequences)
    {
      var rows0, sequences0 := rows, sequences;
      fault, roots, keys := CopySteps(plan, workspace, incoming);
      if fault.Some? { rows, sequences := rows0, sequences0; }
    }
  }

  /** What the copy of a workspace starts from. */
  function Beginning(plan: Plan, workspace: string, before: Tables, incoming: Tables,
      sequences: map<string, Counter>): Origin
  {
    Origin(Remaining(before, plan.tables, workspace), incoming, sequences)
  }

  lemma AllCopiedAttained(plan: Plan, o: Origin, after: Tables, roots: Roots, keys: KeyMap)
    requires KeysAttained(plan, o, keys) && Inserted(o.stored, after, plan.tables, o.incoming, roots, keys)
    ensures RowsAttained(plan, o, after)
  {
    forall k, v | k in plan.columns && v in Numbers(RowsOf(after, k.table), k.column) ensures Attained(plan, o, v) {
      CopiedAttained(plan, o, after, roots, keys, k, v);
    }
  }

  /** Fresh keys are reserved, and the workspace's rows are the remapped incoming ones. */
  ghost predicate Replaced(plan: Plan, workspace: string, incoming: Tables, before: Tables, after: Tables,
      roots: Roots, keys: KeyMap) {
    && AllReserved(plan, roots, Remaining(before, plan.tables, workspace), incoming, keys)
    && Inserted(Remaining(before, plan.tables, workspace), after, plan.tables, incoming, roots, keys)
  }

  /** A finished copy. */
  ghost predicate Complete(plan: Plan, workspace: string, incoming: Tables, before: Tables, after: Tables,
    sequences: map<string, Counter>, roots: Roots, keys: KeyMap)
  {
    && Acyclic(plan.schema) && Right(plan.schema, roots)
    && Replaced(plan, workspace, incoming, before, after, roots, keys)
    && AllKeysHold(plan, after, workspace, plan.tables)
    && AllAhead(plan, after, sequences, plan.columns.Keys)
  }

  // ---- The copy's rows --------------------------------------------------------------------------

  /** The workspace's rows in the copy are exactly the remapped incoming ones. */
  lemma CopiedRows(before: seq<Row>, roots: Roots, keys: KeyMap, t: string, incoming: seq<Row>, workspace: string)
    requires AllIn(incoming, workspace)
    ensures RowsIn(RowsOutside(before, workspace) + RemapAll(roots, keys, t, incoming), workspace) ==
      RemapAll(roots, keys, t, incoming)
    ensures RowsOutside(RowsOutside(before, workspace) + RemapAll(roots, keys, t, incoming), workspace) ==
      RowsOutside(before, workspace)
  {
    var copies := RemapAll(roots, keys, t, incoming);
    forall r | r in copies ensures r.workspace == workspace {
      var i :| 0 <= i < |copies| && copies[i] == r;
      assert incoming[i] in incoming;
    }
    OutsideThenInside(before, copies, workspace);
  }

  /** An odd value in the copy was there before or came in. */
  lemma OddBefore(plan: Plan, remaining: Tables, incoming: Tables, after: Tables, roots: Roots, keys: KeyMap)
    requires Inserted(remaining, after, plan.tables, incoming, roots, keys)
    requires OddValue(plan, map[], after)
    ensures OddValue(plan, roots, remaining) || OddValue(plan, roots, incoming)
  {
    var k :| k in plan.columns && plan.columns[k].sequence.Some? && !AllNumbers(RowsOf(after, k.table), k.column);
    if k.table in after && k.table in plan.tables && AllNumbers(remaining[k.table], k.column) &&
        AllNumbers(RowsOf(incoming, k.table), k.column) {
      NumbersCopied(remaining[k.table], roots, keys, k, RowsOf(incoming, k.table));
    }
  }

  lemma RestartFault(plan: Plan, o: Origin, after: Tables, roots: Roots, keys: KeyMap, fault: Fault)
    requires Inserted(o.stored, after, plan.tables, o.incoming, roots, keys) && RestartFailed(plan, o, after, fault)
    ensures Justified(plan, roots, o, fault)
  {
    if fault.NotANumber? {
      OddBefore(plan, o.stored, o.incoming, after, roots, keys);
    }
  }

  lemma NumbersCopied(rows: seq<Row>, roots: Roots, keys: KeyMap, k: Key, incoming: seq<Row>)
    requires AllNumbers(rows, k.column) && AllNumbers(incoming, k.column)
    ensures AllNumbers(rows + RemapAll(roots, keys, k.table, incoming), k.column)
  {
    var copies := RemapAll(roots, keys, k.table, incoming);
    forall r: Row | r in copies ensures !r.Get(k.column).Other? {
      var i :| 0 <= i < |copies| && copies[i] == r;
      assert incoming[i] in incoming;
    }
  }

  /** Columns joined by a foreign key are rewritten alike unless just one of them is rooted. */
  lemma AlikeExactly(g: Schema, roots: Roots, keys: KeyMap, t: string, f: ForeignKey)
    requires Right(g, roots) && keys.Keys == roots.Values && f in g.KeysOf(t)
    ensures RewrittenAlike(roots, keys, t, f) <==> (Key(t, f.column) in roots <==> f.Parent() in roots)
  {
    var k := Key(t, f.column);
    assert g.References(k, f.Parent());
    if k in roots && f.Parent() in roots {
      RightShares(g, roots, k, f.Parent());
    }
  }

  lemma {:induction false} PartsOf(fks: seq<ForeignKey>, name: string)
    ensures forall f {:trigger f in Parts(fks, name)} :: f in Parts(fks, name) ==> f in fks && f.constraint == name
    decreases |fks|
  {
    if fks != [] { PartsOf(fks[..|fks| - 1], name); }
  }

  /** A constraint that fits holds in the copy. */
  lemma FitHolds(plan: Plan, workspace: string, before: Tables, sequences: map<string, Counter>, incoming: Tables,
      after: Tables,
    roots: Roots, keys: KeyMap, t: string, f: ForeignKey)
    requires Sound(plan, before, sequences) && OwnRows(incoming, workspace) && Right(plan.schema, roots) &&
      AllInjective(keys) && keys.Keys == roots.Values
    requires Inserted(Remaining(before, plan.tables, workspace), after, plan.tables, incoming, roots, keys)
    requires t in plan.tables && f in plan.schema.KeysOf(t) && forall h :: h in plan.schema.KeysOf(t) ==>
      !Unfit(plan, roots, incoming, t, h)
    ensures ConstraintHolds(plan, after, workspace, t, f.constraint)
  {
    var parts := Parts(plan.schema.KeysOf(t), f.constraint);
    PartsInclude(plan.schema.KeysOf(t), f);
    PartsOf(plan.schema.KeysOf(t), f.constraint);
    assert !Unfit(plan, roots, incoming, t, f);
    var u := parts[0].parentTable;
    forall h | h in parts ensures h.parentTable == u && RewrittenAlike(roots, keys, t, h) {
      assert h in plan.schema.KeysOf(t) && parts[0] in parts && !Unfit(plan, roots, incoming, t, h);
      AlikeExactly(plan.schema, roots, keys, t, h);
    }
    CopiedTable(plan, workspace, before, sequences, incoming, after, roots, keys, t);
    CopiedTable(plan, workspace, before, sequences, incoming, after, roots, keys, u);
    IntactPreserved(roots, keys, t, parts, RowsOf(incoming, t), u, RowsOf(incoming, u));
  }

  lemma CopiedTable(plan: Plan, workspace: string, before: Tables, sequences: map<string, Counter>, incoming: Tables,
      after: Tables,
    roots: Roots, keys: KeyMap, t: string)
    requires Sound(plan, before, sequences) && OwnRows(incoming, workspace) && t in plan.tables
    requires Inserted(Remaining(before, plan.tables, workspace), after, plan.tables, incoming, roots, keys)
    ensures RowsIn(RowsOf(after, t), workspace) == RemapAll(roots, keys, t, RowsOf(incoming, t)) &&
      NoneMissing(roots, keys, t, RowsOf(incoming, t))
  {
    assert t in after;
    CopiedRows(before[t], roots, keys, t, RowsOf(incoming, t), workspace);
  }

  lemma ReservedInjective(plan: Plan, roots: Roots, remaining: Tables, incoming: Tables, keys: KeyMap)
    requires AllReserved(plan, roots, remaining, incoming, keys)
    ensures AllInjective(keys)
  {
    forall k | k in keys ensures Injective(keys[k]) {
      assert Reserved(plan, roots, remaining, incoming, k, keys[k]);
    }
  }

  lemma VerificationFault(plan: Plan, workspace: string, before: Tables, sequences: map<string, Counter>,
      incoming: Tables, after: Tables,
    roots: Roots, keys: KeyMap)
    requires Sound(plan, before, sequences) && OwnRows(incoming, workspace) && Right(plan.schema, roots)
    requires Replaced(plan, workspace, incoming, before, after, roots, keys)
    requires !AllKeysHold(plan, after, workspace, plan.tables)
    ensures exists t, f :: t in plan.tables && Unfit(plan, roots, incoming, t, f)
  {
    var t :| t in plan.tables && !KeysHold(plan, after, workspace, t);
    var f :| f in plan.schema.KeysOf(t) && !ConstraintHolds(plan, after, workspace, t, f.constraint);
    ReservedInjective(plan, roots, Remaining(before, plan.tables, workspace), incoming, keys);
    if forall h :: h in plan.schema.KeysOf(t) ==> !Unfit(plan, roots, incoming, t, h) {
      FitHolds(plan, workspace, before, sequences, incoming, after, roots, keys, t, f);
    }
  }

  lemma InsertionFault(plan: Plan, roots: Roots, o: Origin, keys: KeyMap, fault: Fault)
    requires AllReserved(plan, roots, o.stored, o.incoming, keys)
    requires if fault.KeyOutsideWorkspace? then !AllMapped(roots, keys, plan.tables, o.incoming)
      else fault.InsertRefused? && !AllAdmitted(plan, o.stored, o.incoming, roots, keys, plan.tables)
    ensures Justified(plan, roots, o, fault)
  {
    if fault.KeyOutsideWorkspace? {
      var t :| t in plan.tables && !NoneMissing(roots, keys, t, RowsOf(o.incoming, t));
      MissingIsStray(plan, roots, o.stored, o.incoming, keys, t);
    } else {
      var t :| t in plan.tables && !Admitted(plan, o.stored, o.incoming, roots, keys, t);
      assert Refused(plan, roots, o, keys, t);
    }
  }

  /** A value without a replacement refers to a row that is not being copied. */
  lemma MissingIsStray(plan: Plan, roots: Roots, remaining: Tables, incoming: Tables, keys: KeyMap, t: string)
    requires AllReserved(plan, roots, remaining, incoming, keys) && !NoneMissing(roots, keys, t, RowsOf(incoming, t))
    ensures exists r, c :: Stray(roots, incoming, t, r, c)
  {
    var r :| r in RowsOf(incoming, t) && Missing(r, RemapRow(roots, keys, t, r));
    var c :| c in r.values && r.values[c] != Null && RemapRow(roots, keys, t, r).Get(c) == Null;
    var root := roots[Key(t, c)];
    assert Reserved(plan, roots, remaining, incoming, root, keys[root]);
    assert Stray(roots, incoming, t, r, c);
  }

  lemma NoneMissingAt(roots: Roots, keys: KeyMap, table: string, rows: seq<Row>)
    ensures NoneMissing(roots, keys, table, rows) <==>
      forall j :: 0 <= j < |rows| ==> !Missing(rows[j], RemapRow(roots, keys, table, rows[j]))
  {
  }

  lemma MissingSomewhere(roots: Roots, keys: KeyMap, tables: seq<string>, incoming: Tables, t: string)
    requires t in tables && !NoneMissing(roots, keys, t, RowsOf(incoming, t))
    ensures !AllMapped(roots, keys, tables, incoming)
  {
  }

  lemma InsertedOneMore(plan: Plan, before: Tables, after: Tables, tables: seq<string>, incoming: Tables, roots: Roots,
      keys: KeyMap, t: string)
    requires Inserted(before, after, tables, incoming, roots, keys) && AllMapped(roots, keys, tables, incoming)
    requires AllAdmitted(plan, before, incoming, roots, keys, tables) &&
      Admitted(plan, before, incoming, roots, keys, t)
    requires t in after && t !in tables && NoneMissing(roots, keys, t, RowsOf(incoming, t))
    ensures var copies := RemapAll(roots, keys, t, RowsOf(incoming, t));
      Inserted(before, after[t := after[t] + copies], tables + [t], incoming, roots, keys)
    ensures AllMapped(roots, keys, tables + [t], incoming) &&
      AllAdmitted(plan, before, incoming, roots, keys, tables + [t])
  {
  }
}
