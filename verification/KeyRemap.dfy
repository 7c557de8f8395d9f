/** Rewriting the keys of copied rows: what it preserves, for any mapping that is injective
    on each root. */
module KeyRemap {
  import opened Schemas
  import opened KeyRoots

  datatype Value = Null | Number(n: int) | Other(text: string)

  datatype Row = Row(workspace: string, values: map<string, Value>) {
    function Get(column: string): Value { if column in values then values[column] else Null }
  }

  type Tables = map<string, seq<Row>>

  /** New values by root column and old value. */
  type KeyMap = map<Key, map<int, int>>

  function RowsOf(t: Tables, table: string): seq<Row> { if table in t then t[table] else [] }

  /** The values of a column. */
  ghost function Numbers(rows: seq<Row>, column: string): set<int> {
    set r | r in rows && r.Get(column).Number? :: r.Get(column).n
  }

  // ---- remapRows ------------------------------------------------------------------------------

  function RemapValue(m: map<int, int>, v: Value): Value {
    if v.Number? && v.n in m then Number(m[v.n]) else Null
  }

  predicate Mapped(roots: Roots, keys: KeyMap, table: string, column: string) {
    Key(table, column) in roots && roots[Key(table, column)] in keys
  }

  function RemapRow(roots: Roots, keys: KeyMap, table: string, row: Row): Row {
    Row(row.workspace, map c | c in row.values ::
      if Mapped(roots, keys, table, c) then RemapValue(keys[roots[Key(table, c)]], row.values[c]) else row.values[c])
  }

  /** A value that had no replacement: it refers outside the copied rows. */
  predicate Missing(row: Row, remapped: Row) {
    exists c :: c in row.values && row.values[c] != Null && remapped.Get(c) == Null
  }

  function RemapAll(roots: Roots, keys: KeyMap, table: string, rows: seq<Row>): (r: seq<Row>)
    ensures |r| == |rows| && forall i :: 0 <= i < |rows| ==> r[i] == RemapRow(roots, keys, table, rows[i])
    decreases |rows|
  {
    if rows == [] then []
    else RemapAll(roots, keys, table, rows[..|rows| - 1]) + [RemapRow(roots, keys, table, rows[|rows| - 1])]
  }

  ghost predicate NoneMissing(roots: Roots, keys: KeyMap, table: string, rows: seq<Row>) {
    forall r {:trigger RemapRow(roots, keys, table, r)} :: r in rows ==> !Missing(r, RemapRow(roots, keys, table, r))
  }

  ghost predicate Injective(m: map<int, int>) { forall x, y :: x in m && y in m && m[x] == m[y] ==> x == y }

  ghost predicate AllInjective(keys: KeyMap) { forall k :: k in keys ==> Injective(keys[k]) }

  /** In two columns sharing a root, values are equal after remapping exactly when they were
      before; nulls stay null and nothing else becomes null. */
  lemma EqualityPreserved(roots: Roots, keys: KeyMap, t: string, r: Row, c: string, u: string, s: Row, d: string)
    requires AllInjective(keys) && Mapped(roots, keys, t, c) && Mapped(roots, keys, u, d)
    requires roots[Key(t, c)] == roots[Key(u, d)]
    requires !Missing(r, RemapRow(roots, keys, t, r)) && !Missing(s, RemapRow(roots, keys, u, s))
    ensures RemapRow(roots, keys, t, r).Get(c) == RemapRow(roots, keys, u, s).Get(d) <==> r.Get(c) == s.Get(d)
    ensures RemapRow(roots, keys, t, r).Get(c) == Null <==> r.Get(c) == Null
  {
    assert Injective(keys[roots[Key(t, c)]]);
  }

  // ---- Foreign keys ---------------------------------------------------------------------------

  /** The columns of one constraint. */
  function Parts(fks: seq<ForeignKey>, name: string): seq<ForeignKey>
    decreases |fks|
  {
    if fks == [] then []
    else
      var last := fks[|fks| - 1];
      Parts(fks[..|fks| - 1], name) + (if last.constraint == name then [last] else [])
  }

  predicate AllPresent(parts: seq<ForeignKey>, child: Row) { forall f :: f in parts ==> child.Get(f.column) != Null }
  predicate SomePresent(parts: seq<ForeignKey>, child: Row) { exists f :: f in parts && child.Get(f.column) != Null }

  predicate PointsTo(parts: seq<ForeignKey>, child: Row, parent: Row) {
    forall f :: f in parts ==> child.Get(f.column) != Null && parent.Get(f.parentColumn) == child.Get(f.column)
  }

  /** The query of verifyForeignKeys, over the workspace's own rows. */
  predicate Broken(parts: seq<ForeignKey>, child: Row, parents: seq<Row>)
    requires parts != []
  {
    || (parts[0].matchFull && SomePresent(parts, child) && !AllPresent(parts, child))
    || (AllPresent(parts, child) && !Pointed(parts, child, parents))
  }

  /** The nulls of the row spare it a parent: one null where the constraint is simple, all where
      it is full. */
  ghost predicate Spared(parts: seq<ForeignKey>, child: Row)
    requires parts != []
  {
    if parts[0].matchFull then forall f :: f in parts ==> child.Get(f.column) == Null
    else exists f :: f in parts && child.Get(f.column) == Null
  }

  /** A row keeps a constraint exactly when it is spared or some parent row has all of its values. */
  lemma BrokenExactly(parts: seq<ForeignKey>, child: Row, parents: seq<Row>)
    requires parts != []
    ensures !Broken(parts, child, parents) <==>
      Spared(parts, child) || exists parent :: parent in parents && PointsTo(parts, child, parent)
  {
    assert parts[0] in parts;
  }

  predicate Pointed(parts: seq<ForeignKey>, child: Row, parents: seq<Row>) {
    exists parent :: parent in parents && PointsTo(parts, child, parent)
  }

  ghost predicate Intact(parts: seq<ForeignKey>, children: seq<Row>, parents: seq<Row>)
    requires parts != []
  {
    forall child :: child in children ==> !Broken(parts, child, parents)
  }

  /** Child and parent columns are rewritten together or not at all. */
  ghost predicate RewrittenAlike(roots: Roots, keys: KeyMap, table: string, f: ForeignKey) {
    if Mapped(roots, keys, table, f.column)
    then Mapped(roots, keys, f.parentTable, f.parentColumn) && roots[f.Parent()] == roots[Key(table, f.column)]
    else !Mapped(roots, keys, f.parentTable, f.parentColumn)
  }

  /** Remapping keeps which rows a row points to. */
  lemma PointsPreserved(roots: Roots, keys: KeyMap, table: string, parts: seq<ForeignKey>, child: Row,
      parentTable: string, parent: Row)
    requires AllInjective(keys)
    requires forall f :: f in parts ==> f.parentTable == parentTable && RewrittenAlike(roots, keys, table, f)
    requires !Missing(child, RemapRow(roots, keys, table, child)) &&
      !Missing(parent, RemapRow(roots, keys, parentTable, parent))
    ensures PointsTo(parts, RemapRow(roots, keys, table, child), RemapRow(roots, keys, parentTable, parent)) <==>
      PointsTo(parts, child, parent)
  {
    var c, p := RemapRow(roots, keys, table, child), RemapRow(roots, keys, parentTable, parent);
    forall f | f in parts
      ensures c.Get(f.column) == Null <==> child.Get(f.column) == Null
      ensures p.Get(f.parentColumn) == c.Get(f.column) <==> parent.Get(f.parentColumn) == child.Get(f.column)
    {
      if Mapped(roots, keys, table, f.column) {
        EqualityPreserved(roots, keys, table, child, f.column, parentTable, parent, f.parentColumn);
      }
    }
  }

  /** A constraint that holds among the source rows holds among the copies. */
  lemma IntactPreserved(roots: Roots, keys: KeyMap, table: string, parts: seq<ForeignKey>, children: seq<Row>,
      parentTable: string, parents: seq<Row>)
    requires AllInjective(keys) && parts != []
    requires forall f :: f in parts ==> f.parentTable == parentTable && RewrittenAlike(roots, keys, table, f)
    requires NoneMissing(roots, keys, table, children) && NoneMissing(roots, keys, parentTable, parents)
    ensures Intact(parts, RemapAll(roots, keys, table, children), RemapAll(roots, keys, parentTable, parents)) <==>
      Intact(parts, children, parents)
  {
    var cs, ps := RemapAll(roots, keys, table, children), RemapAll(roots, keys, parentTable, parents);
    forall i | 0 <= i < |children|
      ensures Broken(parts, cs[i], ps) <==> Broken(parts, children[i], parents)
    {
      BrokenPreserved(roots, keys, table, parts, children[i], parentTable, parents);
    }
    if Intact(parts, children, parents) {
      forall c | c in cs ensures !Broken(parts, c, ps) {
        var i :| 0 <= i < |cs| && cs[i] == c;
        assert children[i] in children;
      }
    }
    if Intact(parts, cs, ps) {
      forall c | c in children ensures !Broken(parts, c, parents) {
        var i :| 0 <= i < |children| && children[i] == c;
        assert cs[i] in cs;
      }
    }
  }

  lemma BrokenPreserved(roots: Roots, keys: KeyMap, table: string, parts: seq<ForeignKey>, child: Row,
      parentTable: string, parents: seq<Row>)
    requires AllInjective(keys) && parts != []
    requires forall f :: f in parts ==> f.parentTable == parentTable && RewrittenAlike(roots, keys, table, f)
    requires !Missing(child, RemapRow(roots, keys, table, child)) && NoneMissing(roots, keys, parentTable, parents)
    ensures Broken(parts, RemapRow(roots, keys, table, child), RemapAll(roots, keys, parentTable, parents)) <==>
      Broken(parts, child, parents)
  {
    var c := RemapRow(roots, keys, table, child);
    assert forall f :: f in parts ==> (c.Get(f.column) == Null <==> child.Get(f.column) == Null);
    PointedPreserved(roots, keys, table, parts, child, parentTable, parents);
  }

  lemma PointedPreserved(roots: Roots, keys: KeyMap, table: string, parts: seq<ForeignKey>, child: Row,
      parentTable: string, parents: seq<Row>)
    requires AllInjective(keys)
    requires forall f :: f in parts ==> f.parentTable == parentTable && RewrittenAlike(roots, keys, table, f)
    requires !Missing(child, RemapRow(roots, keys, table, child)) && NoneMissing(roots, keys, parentTable, parents)
    ensures Pointed(parts, RemapRow(roots, keys, table, child), RemapAll(roots, keys, parentTable, parents)) <==>
      Pointed(parts, child, parents)
  {
    var c, ps := RemapRow(roots, keys, table, child), RemapAll(roots, keys, parentTable, parents);
    forall j | 0 <= j < |parents| ensures PointsTo(parts, c, ps[j]) <==> PointsTo(parts, child, parents[j]) {
      assert parents[j] in parents;
      PointsPreserved(roots, keys, table, parts, child, parentTable, parents[j]);
    }
    if p :| p in parents && PointsTo(parts, child, p) {
      var j :| 0 <= j < |parents| && parents[j] == p;
      assert ps[j] in ps;
    }
    if p :| p in ps && PointsTo(parts, c, p) {
      var j :| 0 <= j < |ps| && ps[j] == p;
      assert parents[j] in parents;
    }
  }

}
