/** Reserving replacement keys past every value in use, in the direction of a sequence. */
module FreshKeys {
  import opened Sequences
  import opened Schemas
  import opened KeyRemap

  /** A sequence's storage: last_value and is_called. */
  datatype Counter = Counter(last: int, called: bool)

  datatype Fault =
    | KeyCycleUnsupported | KeyRelationshipUnsupported | CyclingSequence | SequenceDirection
    | NotANumber | SequenceExhausted | DuplicateKey | KeyOutsideWorkspace | InsertRefused
    | ParentUnscoped | ForeignKeyInvalid

  datatype Result<T> = Ok(value: T) | Failed(fault: Fault)

  /** a lies strictly past b in the direction of the increment. */
  predicate Past(increment: int, a: int, b: int) { if 0 < increment then b < a else a < b }

  predicate AtOrPast(increment: int, a: int, b: int) { a == b || Past(increment, a, b) }

  /** The value that nextval returns next, limits apart. */
  function NextValue(q: Sequence, c: Counter): int { if c.called then c.last + q.increment else c.last }

  predicate InLimits(q: Sequence, n: int) { q.minimum <= n <= q.maximum }

  /** max or min over a column, by direction. */
  function Extreme(rows: seq<Row>, column: string, increment: int): (m: Option<int>)
    ensures m.None? <==> Numbers(rows, column) == {}
    ensures m.Some? ==> m.value in Numbers(rows, column) && forall x :: x in Numbers(rows, column) ==>
      AtOrPast(increment, m.value, x)
    decreases |rows|
  {
    if rows == [] then None
    else
      var rest, v := Extreme(rows[..|rows| - 1], column, increment), rows[|rows| - 1].Get(column);
      NumbersSplit(rows, column);
      if v.Number? && (rest.None? || Past(increment, v.n, rest.value)) then Some(v.n) else rest
  }

  lemma NumbersSplit(rows: seq<Row>, column: string)
    requires rows != []
    ensures var v := rows[|rows| - 1].Get(column);
      Numbers(rows, column) == Numbers(rows[..|rows| - 1], column) + (if v.Number? then {v.n} else {})
  {
    var init, last := rows[..|rows| - 1], rows[|rows| - 1];
    assert rows == init + [last];
    forall x | x in Numbers(rows, column)
      ensures x in Numbers(init, column) + (if last.Get(column).Number? then {last.Get(column).n} else {})
    {
      var r :| r in rows && r.Get(column).Number? && r.Get(column).n == x;
      assert r in init || r == last;
    }
    forall x | x in Numbers(init, column) ensures x in Numbers(rows, column) {
      var r :| r in init && r.Get(column).Number? && r.Get(column).n == x;
      assert r in rows;
    }
    assert last in rows;
  }

  function Further(increment: int, a: Option<int>, b: Option<int>): Option<int> {
    if b.None? || (a.Some? && !Past(increment, b.value, a.value)) then a else b
  }

  /** Every value lies at or before the boundary. */
  ghost predicate Bounds(increment: int, boundary: Option<int>, values: set<int>) {
    forall x {:trigger x in values} :: x in values ==> boundary.Some? && AtOrPast(increment, boundary.value, x)
  }

  predicate AllNumbers(rows: seq<Row>, column: string) { forall r :: r in rows ==> !r.Get(column).Other? }

  /** Why a boundary could not be found. */
  predicate Explained(fault: Fault, target: seq<Row>, incoming: seq<Row>, name: string, column: Column,
      increment: int) {
    match fault
    case NotANumber => !AllNumbers(target, name) || !AllNumbers(incoming, name)
    case CyclingSequence => column.sequence.Some? && column.sequence.value.cycle
    case SequenceDirection => column.sequence.Some? && column.sequence.value.increment * increment <= 0
    case _ => false
  }

  /** sequenceBoundary, for one column of the target and the incoming rows. */
  function SequenceBoundary(target: seq<Row>, incoming: seq<Row>, name: string, column: Column,
      sequences: map<string, Counter>, increment: int):
    (b: Result<Option<int>>)
    requires column.sequence.Some? ==> column.sequence.value.name in sequences
    ensures b.Ok? ==>
      Bounds(increment, b.value, Numbers(target, name)) &&
      Bounds(increment, b.value, Numbers(incoming, name)) && AllNumbers(incoming, name)
    ensures b.Ok? && column.sequence.Some? ==>
      b.value.Some? && AtOrPast(increment, b.value.value, sequences[column.sequence.value.name].last) &&
        !column.sequence.value.cycle
    ensures b.Ok? && b.value.Some? ==>
      b.value.value in Numbers(target, name) || b.value.value in Numbers(incoming, name) ||
      (column.sequence.Some? && b.value.value == sequences[column.sequence.value.name].last)
    ensures b.Failed? ==> Explained(b.fault, target, incoming, name, column, increment)
  {
    if !AllNumbers(target, name) || !AllNumbers(incoming, name) then Failed(NotANumber)
    else
      var boundary := Further(increment, Extreme(target, name, increment), Extreme(incoming, name, increment));
      match column.sequence
      case None => Ok(boundary)
      case Some(q) =>
        if q.cycle then Failed(CyclingSequence)
        else if q.increment * increment <= 0 then Failed(SequenceDirection)
        else Ok(Further(increment, boundary, Some(sequences[q.name].last)))
  }

  /** restartSequenceBeyond */
  function RestartBeyond(q: Sequence, boundary: int): (r: Result<Counter>)
    requires q.increment != 0
    ensures r.Ok? ==> Past(q.increment, NextValue(q, r.value), boundary)
    ensures r.Ok? ==> q.minimum <= NextValue(q, r.value) <= q.maximum && !q.cycle
    ensures r.Failed? ==>
      if r.fault.CyclingSequence? then q.cycle
      else r.fault.SequenceExhausted? && !(q.minimum <= boundary + q.increment <= q.maximum)
  {
    if q.cycle then Failed(CyclingSequence)
    else if !InLimits(q, boundary + q.increment) then Failed(SequenceExhausted)
    else Ok(Counter(boundary + q.increment, false))
  }

  // ---- Drawing the replacements of one root ---------------------------------------------------

  /** The replacements drawn so far are distinct, past the boundary, and before the next value. */
  ghost predicate Drawn(q: Sequence, boundary: int, m: map<int, int>, c: Counter) {
    && Injective(m) && Past(q.increment, NextValue(q, c), boundary)
    && forall x {:trigger m[x]} :: x in m ==>
      Past(q.increment, m[x], boundary) && Past(q.increment, NextValue(q, c), m[x])
  }

  /** The value of the k-th nextval from here, limits apart. */
  function Nth(q: Sequence, c: Counter, k: nat): int {
    if k == 0 then NextValue(q, c) else Nth(q, c, k - 1) + q.increment
  }

  ghost predicate Repeats(rows: seq<Row>, column: string) {
    exists i, j :: 0 <= i < j < |rows| && rows[i].Get(column).Number? && rows[i].Get(column) == rows[j].Get(column)
  }

  /** One of the next few values leaves the limits. */
  ghost predicate RunsOut(q: Sequence, start: Counter, calls: nat) {
    exists k: nat {:trigger Nth(q, start, k)} :: k < calls && !InLimits(q, Nth(q, start, k))
  }

  /** v is one of the next few values. */
  ghost predicate Among(q: Sequence, start: Counter, calls: nat, v: int) {
    exists k: nat :: k < calls && v == Nth(q, start, k)
  }

  /** The first i rows have been served with this many calls of nextval. */
  ghost predicate Served(q: Sequence, start: Counter, boundary: int, rows: seq<Row>, column: string, i: int,
      m: map<int, int>, c: Counter, calls: nat)
    requires 0 <= i <= |rows|
  {
    Drawn(q, boundary, m, c) && m.Keys == Numbers(rows[..i], column) && calls <= i &&
      NextValue(q, c) == Nth(q, start, calls) &&
    (calls == 0 ==> c == start) && (0 < calls ==> c == Counter(Nth(q, start, calls - 1), true)) &&
    forall x {:trigger m[x]} :: x in m ==> Among(q, start, calls, m[x])
  }

  /** One nextval for every non-null value of the root column, in the order of the rows. */
  method DrawReplacements(q: Sequence, start: Counter, rows: seq<Row>, column: string, ghost boundary: int)
      returns (r: Result<map<int, int>>, c: Counter)
    requires q.increment != 0 && Past(q.increment, NextValue(q, start), boundary)
    ensures r.Ok? ==> Drawn(q, boundary, r.value, c) && r.value.Keys == Numbers(rows, column)
    ensures r.Ok? ==> forall x :: x in r.value ==> Among(q, start, |rows|, r.value[x])
    ensures r.Ok? ==> c == start || (exists k: nat :: k < |rows| && c == Counter(Nth(q, start, k), true))
    ensures r.Failed? ==> r.fault.SequenceExhausted? || r.fault.DuplicateKey?
    ensures r.Failed? && r.fault.DuplicateKey? ==> Repeats(rows, column)
    ensures r.Failed? && r.fault.SequenceExhausted? ==> RunsOut(q, start, |rows|)
  {
    var m: map<int, int> := map[];
    c := start;
    ghost var calls: nat := 0;
    for i := 0 to |rows|
      invariant Served(q, start, boundary, rows, column, i, m, c, calls)
    {
      var v := rows[i].Get(column);
      if v.Number? {
        var n := NextValue(q, c);
        if !InLimits(q, n) { return Failed(SequenceExhausted), c; }
        if v.n in m {
          return Failed(DuplicateKey), c;
        }
        m, c, calls := m[v.n := n], Counter(n, true), calls + 1;
      }
    }
    assert rows[..|rows|] == rows;
    assert calls == 0 || c == Counter(Nth(q, start, calls - 1), true);
    r := Ok(m);
  }
}
