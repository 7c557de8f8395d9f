/** Resolving chains of shared keys to the column whose sequence supplies their values. */
module KeyRoots {
  import opened Sequences
  import opened Schemas

  type Roots = map<Key, Key>

  datatype Resolution = Resolved(roots: Roots) | KeyCycle | KeyRelationship

  // ---- What a resolution has to be ----------------------------------------------------------

  /** A column has the root of every rooted column it references; one that references none
      is its own root exactly when it owns a sequence. */
  ghost predicate RightAt(g: Schema, roots: Roots, k: Key)
    requires k in g.columns
  {
    && (forall p {:trigger g.References(k, p)} :: g.References(k, p) && p in roots ==>
      k in roots && roots[k] == roots[p])
    && ((forall p {:trigger g.References(k, p)} :: g.References(k, p) ==> p !in roots) ==>
          ((k in roots) <==> g.OwnsSequence(k)) && (k in roots ==> roots[k] == k))
  }

  ghost predicate Right(g: Schema, roots: Roots) {
    roots.Keys <= g.columns.Keys && forall k {:trigger RightAt(g, roots, k)} :: k in g.columns ==> RightAt(g, roots, k)
  }

  /** References among the columns lead strictly downwards. */
  ghost predicate Ranked(g: Schema, rank: map<Key, nat>) {
    rank.Keys == g.columns.Keys &&
    forall k, p {:trigger g.References(k, p)} :: k in g.columns && p in g.columns && g.References(k, p) ==>
      rank[p] < rank[k]
  }

  ghost predicate Acyclic(g: Schema) { exists rank :: Ranked(g, rank) }

  ghost predicate Linked(g: Schema, path: seq<Key>, i: int)
    requires 0 <= i < |path| - 1
  {
    path[i] in g.columns && path[i + 1] in g.columns && g.References(path[i], path[i + 1])
  }

  ghost predicate Chain(g: Schema, path: seq<Key>) {
    path != [] && forall i {:trigger Linked(g, path, i)} :: 0 <= i < |path| - 1 ==> Linked(g, path, i)
  }

  ghost predicate Cycle(g: Schema, path: seq<Key>) { Chain(g, path) && 1 < |path| && path[0] == path[|path| - 1] }

  // ---- Facts about ranks and right assignments ------------------------------------------------

  lemma {:induction false} ChainFalls(g: Schema, rank: map<Key, nat>, path: seq<Key>, i: int, j: int)
    requires Ranked(g, rank) && Chain(g, path) && 0 <= i < j < |path|
    ensures path[i] in rank && path[j] in rank && rank[path[j]] < rank[path[i]]
    decreases j - i
  {
    assert Linked(g, path, i);
    if i + 1 < j { ChainFalls(g, rank, path, i + 1, j); }
  }

  /** Ranked columns have no cycle. */
  lemma NoCycle(g: Schema, path: seq<Key>)
    requires Acyclic(g)
    ensures !Cycle(g, path)
  {
    if Cycle(g, path) {
      var rank :| Ranked(g, rank);
      ChainFalls(g, rank, path, 0, |path| - 1);
    }
  }

  /** The ranked columns reference only ranked columns, of lower rank, and are rooted right. */
  ghost predicate Settled(g: Schema, rank: map<Key, nat>, roots: Roots) {
    && roots.Keys <= rank.Keys <= g.columns.Keys
    && (forall k, p {:trigger g.References(k, p)} :: k in rank && p in g.columns && g.References(k, p) ==>
      p in rank && rank[p] < rank[k])
    && (forall k {:trigger RightAt(g, roots, k)} :: k in rank ==> RightAt(g, roots, k))
  }

  /** Another right assignment agrees on the settled columns. */
  lemma {:induction false} RightsAgree(g: Schema, rank: map<Key, nat>, a: Roots, b: Roots, k: Key)
    requires Settled(g, rank, a) && Right(g, b) && k in rank
    ensures (k in a <==> k in b) && (k in a ==> a[k] == b[k])
    decreases rank[k]
  {
    assert RightAt(g, a, k) && RightAt(g, b, k);
    forall p | g.References(k, p) ensures (p in a <==> p in b) && (p in a ==> a[p] == b[p]) {
      if p in g.columns { RightsAgree(g, rank, a, b, p); }
    }
    if p :| g.References(k, p) && p in a {
      assert p in b;
    }
  }

  /** The right assignment is unique. */
  lemma RightIsUnique(g: Schema, a: Roots, b: Roots)
    requires Acyclic(g) && Right(g, a) && Right(g, b)
    ensures a == b
  {
    var rank :| Ranked(g, rank);
    forall k | k in g.columns ensures (k in a <==> k in b) && (k in a ==> a[k] == b[k]) {
      RightsAgree(g, rank, a, b, k);
    }
    assert a.Keys == b.Keys;
  }

  /** Every root is a column of its own with a sequence and a unique index. */
  lemma {:induction false} RootsOwnSequences(g: Schema, rank: map<Key, nat>, roots: Roots, k: Key)
    requires Ranked(g, rank) && Right(g, roots) && k in roots
    ensures roots[k] in g.columns && g.OwnsSequence(roots[k])
    ensures roots[k] in roots && roots[roots[k]] == roots[k]
    decreases rank[k]
  {
    assert RightAt(g, roots, k);
    if p :| g.References(k, p) && p in roots {
      RootsOwnSequences(g, rank, roots, p);
    }
  }

  // ---- Resolution -----------------------------------------------------------------------------

  /** The failure is right: there is a cycle, or no right assignment. */
  ghost predicate Refuted(g: Schema, r: Resolution) {
    match r
    case Resolved(_) => false
    case KeyCycle => exists path :: Cycle(g, path)
    case KeyRelationship => forall roots :: !Right(g, roots)
  }

  lemma ChainLonger(g: Schema, path: seq<Key>, k: Key)
    requires path != [] && Chain(g, path)
    requires path[|path| - 1] in g.columns && k in g.columns && g.References(path[|path| - 1], k)
    ensures Chain(g, path + [k])
  {
    var more := path + [k];
    forall i | 0 <= i < |more| - 1 ensures Linked(g, more, i) {
      if i < |path| - 1 { assert Linked(g, path, i); }
    }
  }

  lemma ClosesCycle(g: Schema, path: seq<Key>, k: Key)
    requires Chain(g, path + [k]) && k in path
    ensures exists p :: Cycle(g, p)
  {
    var m :| 0 <= m < |path| && path[m] == k;
    var whole := path + [k];
    var loop := whole[m..];
    forall i | 0 <= i < |loop| - 1 ensures Linked(g, loop, i) {
      assert Linked(g, whole, m + i);
    }
    assert Cycle(g, loop);
  }

  lemma RightShares(g: Schema, roots: Roots, k: Key, p: Key)
    requires Right(g, roots) && k in g.columns && g.References(k, p) && p in roots
    ensures k in roots && roots[k] == roots[p]
  {
    assert RightAt(g, roots, k);
  }

  /** Two references with different roots leave no right assignment. */
  lemma TwoRoots(g: Schema, rank: map<Key, nat>, roots: Roots, k: Key, p: Key, q: Key)
    requires Settled(g, rank, roots) && k in g.columns && g.References(k, p) && g.References(k, q)
    requires p in roots && q in roots && roots[p] != roots[q]
    ensures forall other :: !Right(g, other)
  {
    forall other ensures !Right(g, other) {
      if Right(g, other) {
        RightsAgree(g, rank, roots, other, p);
        RightsAgree(g, rank, roots, other, q);
        RightShares(g, other, k, p);
        RightShares(g, other, k, q);
      }
    }
  }

  /** What the references of a column, all settled, say of its root. */
  ghost predicate RootOf(g: Schema, rank: map<Key, nat>, roots: Roots, k: Key, root: Option<Key>)
    requires k in g.columns
  {
    && (forall p {:trigger g.References(k, p)} :: g.References(k, p) && p in g.columns ==> p in rank)
    && (forall p {:trigger g.References(k, p)} :: g.References(k, p) && p in roots ==> root == Some(roots[p]))
    && (root.Some? ==> (exists p :: g.References(k, p) && p in roots) || (g.OwnsSequence(k) && root.value == k))
    && (root.None? ==> !g.OwnsSequence(k))
  }

  lemma SettlesNext(g: Schema, rank: map<Key, nat>, roots: Roots, k: Key, root: Option<Key>, clock: nat)
    requires Settled(g, rank, roots) && k in g.columns && k !in rank && RootOf(g, rank, roots, k, root)
    requires forall j :: j in rank ==> rank[j] < clock
    ensures Settled(g, rank[k := clock], if root.Some? then roots[k := root.value] else roots)
  {
    var rank', roots' := rank[k := clock], if root.Some? then roots[k := root.value] else roots;
    forall j | j in rank' ensures RightAt(g, roots', j) {
      if j != k { assert RightAt(g, roots, j); }
    }
  }

  /** The columns visited before have the roots they had. */
  ghost predicate Kept(before: set<Key>, was: Roots, now: Roots) {
    forall k {:trigger k in before} :: k in before ==> (k in now <==> k in was) && (k in now ==> now[k] == was[k])
  }

  class KeyResolver {
    const g: Schema
    var roots: Roots
    var visited: set<Key>
    var visiting: set<Key>
    ghost var rank: map<Key, nat>
    ghost var clock: nat

    constructor (g: Schema)
      ensures Valid() && this.g == g && visited == {} && visiting == {}
    {
      this.g := g;
      roots, visited, visiting, rank, clock := map[], {}, {}, map[], 0;
    }

    ghost predicate Valid()
      reads this
    {
      && visiting !! visited && visiting <= g.columns.Keys && visited <= g.columns.Keys
      && rank.Keys == visited && roots.Keys <= visited
      && (forall k :: k in rank ==> rank[k] < clock)
      && Settled(g, rank, roots)
    }

    /** The foreign keys of k's table before the i-th have been followed; root is the root
        that k's columns among them have, if any. */
    ghost predicate Followed(k: Key, i: int, root: Option<Key>)
      requires 0 <= i <= |g.KeysOf(k.table)|
      reads this
    {
      && (forall j {:trigger g.KeysOf(k.table)[j]} :: 0 <= j < i && g.KeysOf(k.table)[j].column == k.column ==>
           var p := g.KeysOf(k.table)[j].Parent();
           (p in g.columns ==> p in visited) && (p in roots ==> root == Some(roots[p])))
      && (root.Some? ==> exists p :: g.References(k, p) && p in roots && roots[p] == root.value)
    }

    /** Settles the column whose foreign keys have all been followed. */
    method Conclude(key: Key, root: Option<Key>) returns (r: Option<Key>)
      requires Valid() && key in visiting && Followed(key, |g.KeysOf(key.table)|, root)
      modifies this
      ensures Valid() && visiting == old(visiting) - {key} && visited == old(visited) + {key}
      ensures r == (if key in roots then Some(roots[key]) else None)
      ensures Kept(old(visited), old(roots), roots)
    {
      r := root;
      if r.None? && g.OwnsSequence(key) { r := Some(key); }
      SettlesNext(g, rank, roots, key, r, clock);
      if r.Some? { roots := roots[key := r.value]; }
      visiting := visiting - {key};
      visited := visited + {key};
      rank, clock := rank[key := clock], clock + 1;
    }

    /** The root of one column, and of every column it references; path leads here. */
    method Resolve(key: Key, ghost path: seq<Key>) returns (root: Option<Key>, error: Option<Resolution>)
      requires Valid() && (forall k :: k in visiting <==> k in path)
      requires key in g.columns ==> Chain(g, path + [key])
      modifies this
      ensures error.None? ==>
        Valid() && visiting == old(visiting) && old(visited) <= visited &&
        Kept(old(visited), old(roots), roots)
      ensures error.None? ==>
        (key in g.columns ==> key in visited) &&
        root == (if key in roots then Some(roots[key]) else None)
      ensures error.Some? ==> Refuted(g, error.value)
      decreases g.columns.Keys - visiting
    {
      if key in visited {
        return if key in roots then Some(roots[key]) else None, None;
      }
      if key !in g.columns { return None, None; }
      if key in visiting {
        ClosesCycle(g, path, key);
        return None, Some(KeyCycle);
      }
      visiting := visiting + {key};
      root, error := None, None;
      var keys := g.KeysOf(key.table);
      for i := 0 to |keys|
        invariant Valid() && visiting == old(visiting) + {key} && key !in visited
        invariant old(visited) <= visited && Kept(old(visited), old(roots), roots)
        invariant Followed(key, i, root)
      {
        if keys[i].column == key.column {
          var p := keys[i].Parent();
          assert keys[i] in keys && g.References(key, p);
          if p in g.columns { ChainLonger(g, path + [key], p); }
          var referenced, failure := Resolve(p, path + [key]);
          if failure.Some? { return None, failure; }
          if root.Some? && referenced.Some? && root != referenced {
            ghost var q :| g.References(key, q) && q in roots && roots[q] == root.value;
            TwoRoots(g, rank, roots, key, p, q);
            return None, Some(KeyRelationship);
          }
          if root.None? { root := referenced; }
        }
      }
      root := Conclude(key, root);
    }
  }

  /** dynamicKeyRoots */
  method DynamicKeyRoots(g: Schema) returns (r: Resolution)
    requires g.Listed()
    ensures r.Resolved? <==> Acyclic(g) && exists roots :: Right(g, roots)
    ensures r.Resolved? ==> Right(g, r.roots) && forall roots :: Right(g, roots) ==> roots == r.roots
    ensures r.KeyCycle? ==> exists path :: Cycle(g, path)
    ensures r.KeyRelationship? ==> forall roots :: !Right(g, roots)
  {
    var resolver := new KeyResolver(g);
    for i := 0 to |g.order|
      invariant resolver.Valid() && resolver.visiting == {} && resolver.g == g
      invariant forall j :: 0 <= j < i ==> g.order[j] in resolver.visited
      invariant fresh(resolver)
    {
      var root, error := resolver.Resolve(g.order[i], []);
      if error.Some? {
        RefutedFails(g, error.value);
        return error.value;
      }
    }
    assert resolver.visited == g.columns.Keys;
    SettledIsRight(g, resolver.rank, resolver.roots);
    r := Resolved(resolver.roots);
  }

  lemma RefutedFails(g: Schema, r: Resolution)
    requires Refuted(g, r)
    ensures !(Acyclic(g) && exists roots :: Right(g, roots)) && !r.Resolved?
  {
    if r.KeyCycle? {
      var path :| Cycle(g, path);
      if Acyclic(g) { NoCycle(g, path); }
    }
  }

  lemma SettledIsRight(g: Schema, rank: map<Key, nat>, roots: Roots)
    requires Settled(g, rank, roots) && rank.Keys == g.columns.Keys
    ensures Acyclic(g) && Right(g, roots)
    ensures forall other :: Right(g, other) ==> other == roots
  {
    assert Ranked(g, rank);
    forall other | Right(g, other) ensures other == roots { RightIsUnique(g, other, roots); }
  }

  // ---- Consequences -----------------------------------------------------------------------------

  /** The same columns and relationships, listed in any order. */
  ghost predicate SameRelationships(g: Schema, h: Schema) {
    g.columns == h.columns && forall k, p :: g.References(k, p) <==> h.References(k, p)
  }

  lemma SameRight(g: Schema, h: Schema, roots: Roots)
    requires SameRelationships(g, h) && Right(g, roots)
    ensures Right(h, roots)
  {
    forall k | k in h.columns ensures RightAt(h, roots, k) {
      assert RightAt(g, roots, k);
    }
  }

  /** The order of tables, columns and constraints does not matter. */
  lemma OrderDoesNotMatter(g: Schema, h: Schema, r: Resolution, s: Resolution)
    requires SameRelationships(g, h)
    requires (r.Resolved? <==> Acyclic(g) && exists roots :: Right(g, roots)) && (r.Resolved? ==> Right(g, r.roots))
    requires (s.Resolved? <==> Acyclic(h) && exists roots :: Right(h, roots)) && (s.Resolved? ==> Right(h, s.roots))
    ensures (r.Resolved? <==> s.Resolved?) && (r.Resolved? ==> r == s)
  {
    if Acyclic(g) {
      var rank :| Ranked(g, rank);
      assert Ranked(h, rank);
    }
    if Acyclic(h) {
      var rank :| Ranked(h, rank);
      assert Ranked(g, rank);
    }
    if roots :| Right(g, roots) { SameRight(g, h, roots); }
    if roots :| Right(h, roots) { SameRight(h, g, roots); }
    if r.Resolved? {
      SameRight(g, h, r.roots);
      RightIsUnique(h, r.roots, s.roots);
    }
  }

  /** Columns linked by a foreign key share the parent's root; every root is a column with a
      sequence and a unique index of its own, and its own root. */
  lemma SharedRoots(g: Schema, roots: Roots, k: Key)
    requires Acyclic(g) && Right(g, roots) && k in roots
    ensures roots[k] in g.columns && g.OwnsSequence(roots[k]) && roots[k] in roots && roots[roots[k]] == roots[k]
    ensures forall c :: c in g.columns && g.References(c, k) ==> c in roots && roots[c] == roots[k]
  {
    var rank :| Ranked(g, rank);
    RootsOwnSequences(g, rank, roots, k);
    forall c | c in g.columns && g.References(c, k) ensures c in roots && roots[c] == roots[k] {
      assert RightAt(g, roots, c);
    }
  }

  // ---- Roots in terms of the schema -------------------------------------------------------------

  /** The path leads from k, reference by reference, to a column that can supply keys. */
  ghost predicate Supplies(g: Schema, k: Key, path: seq<Key>) {
    Chain(g, path) && path[0] == k && path[|path| - 1] in g.columns && g.OwnsSequence(path[|path| - 1])
  }

  ghost predicate Supplied(g: Schema, k: Key) { exists path :: Supplies(g, k, path) }

  lemma {:induction false} SuppliedIsRooted(g: Schema, roots: Roots, k: Key, path: seq<Key>)
    requires Right(g, roots) && Supplies(g, k, path)
    ensures k in roots
    decreases |path|
  {
    if 1 < |path| {
      assert Linked(g, path, 0);
      forall i | 0 <= i < |path| - 2 ensures Linked(g, path[1..], i) {
        assert Linked(g, path, i + 1);
      }
      SuppliedIsRooted(g, roots, path[1], path[1..]);
    }
    assert RightAt(g, roots, k);
  }

  lemma {:induction false} RootedIsSupplied(g: Schema, rank: map<Key, nat>, roots: Roots, k: Key)
    requires Ranked(g, rank) && Right(g, roots) && k in roots
    ensures Supplied(g, k)
    decreases rank[k]
  {
    assert RightAt(g, roots, k);
    if p :| g.References(k, p) && p in roots {
      RootedIsSupplied(g, rank, roots, p);
      var path :| Supplies(g, p, path);
      var more := [k] + path;
      forall i | 0 <= i < |more| - 1 ensures Linked(g, more, i) {
        if 0 < i { assert Linked(g, path, i - 1); }
      }
      assert Supplies(g, k, more);
    } else {
      assert Supplies(g, k, [k]);
    }
  }

  /** A column has a root exactly when its references lead to a column with a sequence and a
      unique index, or it is one itself. */
  lemma RootedExactly(g: Schema, roots: Roots, k: Key)
    requires Acyclic(g) && Right(g, roots)
    ensures k in roots <==> Supplied(g, k)
  {
    if k in roots {
      var rank :| Ranked(g, rank);
      RootedIsSupplied(g, rank, roots, k);
    } else if path :| Supplies(g, k, path) {
      SuppliedIsRooted(g, roots, k, path);
    }
  }
}
