/** The columns and foreign keys of the tables that a workspace migration copies. */
module Schemas {
  import opened Sequences

  datatype Key = Key(table: string, column: string)

  datatype Sequence = Sequence(name: string, increment: int, minimum: int, maximum: int, cycle: bool)

  datatype Column = Column(sequence: Option<Sequence>, globallyUnique: bool)

  datatype ForeignKey = ForeignKey(constraint: string, matchFull: bool, column: string, parentTable: string,
    parentColumn: string)
  {
    function Parent(): Key { Key(parentTable, parentColumn) }
  }

  /** order lists the columns of the dynamic tables as they were read. */
  datatype Schema = Schema(order: seq<Key>, columns: map<Key, Column>, foreignKeys: map<string, seq<ForeignKey>>) {
    ghost predicate Listed() { forall k :: k in order <==> k in columns }

    function KeysOf(table: string): seq<ForeignKey> { if table in foreignKeys then foreignKeys[table] else [] }

    /** The column can supply fresh values of its own. */
    predicate OwnsSequence(k: Key)
      requires k in columns
    {
      columns[k].sequence.Some? && columns[k].globallyUnique
    }

    /** The column k references the column p. */
    ghost predicate References(k: Key, p: Key) {
      exists f {:trigger f in KeysOf(k.table)} :: f in KeysOf(k.table) && f.column == k.column && f.Parent() == p
    }
  }
}
