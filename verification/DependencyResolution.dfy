/** resolveDependencies from end to end: checks, candidates, search, node order. */
module DependencyResolution {
  import opened Sequences
  import opened Locks
  import opened LockValidation
  import opened Merging
  import opened Pruning
  import opened Resolver
  import opened NodeOrder

  datatype Rejection = FanOutOrAliases | InvalidRange | SearchLimit | NoVersion

  datatype Resolved = Resolved(lock: Lock) | Rejected(why: Rejection)

  // ---- Inputs in order ---------------------------------------------------------------

  function OrderOf(d: Dependency): int { if d.order.Some? then d.order.value else 0 }

  predicate DependencyLe(a: Dependency, b: Dependency) {
    if OrderOf(a) == OrderOf(b) then StrLe(a.alias, b.alias) else OrderOf(a) < OrderOf(b)
  }

  /** orderedDependencies */
  function OrderedDependencies(ds: seq<Dependency>): seq<Dependency> { Sort(ds, DependencyLe) }

  /** Highest version first, then least version id. */
  predicate BetterOrSame(sv: Semver, a: Choice, b: Choice) {
    var v, w := a.node.semanticVersion, b.node.semanticVersion;
    if sv.atMost(v, w) && sv.atMost(w, v) then StrLe(a.node.versionId, b.node.versionId) else sv.atMost(w, v)
  }

  function Candidates(sv: Semver, d: Dependency, choices: seq<Choice>): seq<Choice> {
    Sort(Filter(choices, (c: Choice) => sv.satisfies(c.node.semanticVersion, d.version)),
         (a, b) => BetterOrSame(sv, a, b))
  }

  function Prepare(sv: Semver, ds: seq<Dependency>, root: Root, choices: Dependency -> seq<Choice>,
      limits: Limits): Problem {
    var deps := OrderedDependencies(ds);
    var candidates := seq(|deps|, i requires 0 <= i < |deps| => Candidates(sv, deps[i], choices(deps[i])));
    Problem(sv, deps, candidates, root, limits)
  }

  lemma DependencyOrder()
    ensures TotalPreorder(DependencyLe)
    ensures forall a, b :: DependencyLe(a, b) && DependencyLe(b, a) ==> a.alias == b.alias
  {
    forall a, b ensures DependencyLe(a, b) || DependencyLe(b, a) { StrLeTotal(a.alias, b.alias); }
    forall a, b | DependencyLe(a, b) && DependencyLe(b, a) ensures a.alias == b.alias { StrLeTotal(a.alias, b.alias); }
    forall a, b, c | DependencyLe(a, b) && DependencyLe(b, c) ensures DependencyLe(a, c) {
      if OrderOf(a) == OrderOf(b) && OrderOf(b) == OrderOf(c) {
        StrLeTransitive(a.alias, b.alias, c.alias);
      }
    }
  }

  /** Declarations come by order, which is 0 when it is left out, and then by alias. */
  lemma DependenciesRanked(ds: seq<Dependency>, i: nat, j: nat)
    requires i < j < |ds|
    ensures |OrderedDependencies(ds)| == |ds|
    ensures var a, b := OrderedDependencies(ds)[i], OrderedDependencies(ds)[j];
      var x, y := if a.order == None then 0 else a.order.value, if b.order == None then 0 else b.order.value;
      x < y || (x == y && StrLe(a.alias, b.alias))
    ensures multiset(OrderedDependencies(ds)) == multiset(ds)
  {
    DependencyOrder();
    SortCorrect(ds, DependencyLe);
    assert |OrderedDependencies(ds)| == |multiset(ds)| == |ds|;
    assert DependencyLe(OrderedDependencies(ds)[i], OrderedDependencies(ds)[j]);
  }

  lemma CandidateOrder(sv: Semver)
    requires TotalPreorder(sv.atMost)
    ensures TotalPreorder((a: Choice, b: Choice) => BetterOrSame(sv, a, b))
    ensures forall a, b :: BetterOrSame(sv, a, b) && BetterOrSame(sv, b, a) ==> a.node.versionId == b.node.versionId
  {
    forall a: Choice, b: Choice ensures BetterOrSame(sv, a, b) || BetterOrSame(sv, b, a) {
      StrLeTotal(a.node.versionId, b.node.versionId);
    }
    forall a, b | BetterOrSame(sv, a, b) && BetterOrSame(sv, b, a) ensures a.node.versionId == b.node.versionId {
      StrLeTotal(a.node.versionId, b.node.versionId);
    }
    forall a, b, c | BetterOrSame(sv, a, b) && BetterOrSame(sv, b, c) ensures BetterOrSame(sv, a, c) {
      var u, v, w := a.node.semanticVersion, b.node.semanticVersion, c.node.semanticVersion;
      assert sv.atMost(v, u) && sv.atMost(w, v);
      assert sv.atMost(w, u);
      if sv.atMost(u, w) {
        assert sv.atMost(u, v) && sv.atMost(v, w);
        StrLeTransitive(a.node.versionId, b.node.versionId, c.node.versionId);
      }
    }
  }

  // ---- The result --------------------------------------------------------------------

  ghost predicate Declarable(ds: seq<Dependency>, limits: Limits) {
    |ds| <= limits.fanOut && NoDup(Map(ds, DepAlias))
  }

  /** Every choice offered carries the valid lock of a published version. */
  ghost predicate Offers(sv: Semver, choices: Dependency -> seq<Choice>) {
    forall d, c :: c in choices(d) ==> ValidChoice(sv, c)
  }

  lemma PreparePosed(sv: Semver, ds: seq<Dependency>, root: Root, choices: Dependency -> seq<Choice>, limits: Limits)
    requires TotalPreorder(sv.atMost) && Offers(sv, choices)
    requires forall d :: d in ds ==> DependencyShape(d)
    ensures var p := Prepare(sv, ds, root, choices, limits);
      multiset(p.deps) == multiset(ds) && (Declarable(ds, limits) <==> Declarable(p.deps, limits)) &&
      (NoDup(Map(p.deps, DepAlias)) ==> Posed(p))
  {
    var p := Prepare(sv, ds, root, choices, limits);
    DependencyOrder();
    SortCorrect(ds, DependencyLe);
    SortMembers(ds, DependencyLe);
    IncludedLength(ds, p.deps);
    IncludedLength(p.deps, ds);
    MapIncluded(ds, p.deps, DepAlias);
    MapIncluded(p.deps, ds, DepAlias);
    assert forall d :: d in p.deps ==> '/' !in d.alias;
    forall i, c | 0 <= i < |p.deps| && c in p.candidates[i] ensures ValidChoice(sv, c) {
      CandidateMembers(sv, p.deps[i], choices(p.deps[i]));
      assert c in choices(p.deps[i]);
    }
  }

  lemma CandidateMembers(sv: Semver, d: Dependency, choices: seq<Choice>)
    requires TotalPreorder(sv.atMost)
    ensures forall c :: c in Candidates(sv, d, choices) <==>
      c in choices && sv.satisfies(c.node.semanticVersion, d.version)
  {
    CandidateOrder(sv);
    var kept := Filter(choices, (c: Choice) => sv.satisfies(c.node.semanticVersion, d.version));
    FilterMembers(choices, (c: Choice) => sv.satisfies(c.node.semanticVersion, d.version));
    SortMembers(kept, (a, b) => BetterOrSame(sv, a, b));
  }

  /** The lock that a resolution stands for is closed, so its nodes can be listed. */
  lemma FoundIsSolution(p: Problem) returns (s: seq<nat>)
    requires Posed(p) && Resolution(p).Found?
    ensures First(p, [], s) && Combined(p, s) == Some(Resolution(p).lock) && Closed(Resolution(p).lock)
  {
    FirstExists(p, []);
    s :| First(p, [], s);
    ResolutionFound(p, s);
    if s != [] {
      ValidIsClosed(p.sv, Combined(p, s).value, p.root, p.limits);
    }
  }

  lemma FoundIsClosed(p: Problem)
    requires Posed(p) && Resolution(p).Found?
    ensures Closed(Resolution(p).lock)
  {
    var _ := FoundIsSolution(p);
  }

  /** What resolveDependencies returns, as a function of its inputs. */
  ghost function Answer(sv: Semver, ds: seq<Dependency>, root: Root, choices: Dependency -> seq<Choice>,
      limits: Limits): Resolved
    requires TotalPreorder(sv.atMost) && Offers(sv, choices)
    requires forall d :: d in ds ==> DependencyShape(d)
  {
    PreparePosed(sv, ds, root, choices, limits);
    var p := Prepare(sv, ds, root, choices, limits);
    if !Declarable(ds, limits) then Rejected(FanOutOrAliases)
    else if exists d :: d in ds && !sv.validRange(d.version) then Rejected(InvalidRange)
    else match Resolution(p)
      case Exceeded => Rejected(SearchLimit)
      case NotFound => Rejected(NoVersion)
      case Found(l) =>
        FoundIsClosed(p);
        Resolved(Reordered(l))
  }

  /** The candidates of every dependency, in order. */
  method CandidateLists(sv: Semver, deps: seq<Dependency>, choices: Dependency -> seq<Choice>)
      returns (lists: seq<seq<Choice>>)
    ensures |lists| == |deps| && forall i :: 0 <= i < |deps| ==> lists[i] == Candidates(sv, deps[i], choices(deps[i]))
  {
    lists := [];
    for i := 0 to |deps|
      invariant |lists| == i && forall j :: 0 <= j < i ==> lists[j] == Candidates(sv, deps[j], choices(deps[j]))
    {
      lists := lists + [Candidates(sv, deps[i], choices(deps[i]))];
    }
  }

  /** The answer when the declarations themselves are at fault. */
  lemma AnswerRejects(sv: Semver, ds: seq<Dependency>, root: Root, choices: Dependency -> seq<Choice>, limits: Limits)
    requires TotalPreorder(sv.atMost) && Offers(sv, choices)
    requires forall d :: d in ds ==> DependencyShape(d)
    ensures var deps := OrderedDependencies(ds);
      && (!Declarable(deps, limits) ==> Answer(sv, ds, root, choices, limits) == Rejected(FanOutOrAliases))
      && (Declarable(deps, limits) && (exists d :: d in deps && !sv.validRange(d.version)) ==>
            Answer(sv, ds, root, choices, limits) == Rejected(InvalidRange))
  {
    PreparePosed(sv, ds, root, choices, limits);
    DependencyOrder();
    SortMembers(ds, DependencyLe);
  }

  /** The answer otherwise, in terms of the search. */
  lemma AnswerSearches(sv: Semver, ds: seq<Dependency>, root: Root, choices: Dependency -> seq<Choice>, limits: Limits)
    requires TotalPreorder(sv.atMost) && Offers(sv, choices)
    requires forall d :: d in ds ==> DependencyShape(d)
    requires Declarable(OrderedDependencies(ds), limits)
    requires forall d :: d in OrderedDependencies(ds) ==> sv.validRange(d.version)
    ensures var p := Prepare(sv, ds, root, choices, limits); var answer := Answer(sv, ds, root, choices, limits);
      Posed(p) && match Resolution(p)
        case Exceeded => answer == Rejected(SearchLimit)
        case NotFound => answer == Rejected(NoVersion)
        case Found(l) => Closed(l) && answer == Resolved(Reordered(l))
  {
    PreparePosed(sv, ds, root, choices, limits);
    DependencyOrder();
    SortMembers(ds, DependencyLe);
    var p := Prepare(sv, ds, root, choices, limits);
    if Resolution(p).Found? { FoundIsClosed(p); }
  }

  lemma PreparedLists(sv: Semver, ds: seq<Dependency>, root: Root, choices: Dependency -> seq<Choice>, limits: Limits,
      lists: seq<seq<Choice>>)
    requires var deps := OrderedDependencies(ds);
      |lists| == |deps| && forall i :: 0 <= i < |deps| ==> lists[i] == Candidates(sv, deps[i], choices(deps[i]))
    ensures Prepare(sv, ds, root, choices, limits) == Problem(sv, OrderedDependencies(ds), lists, root, limits)
  {
    assert lists == Prepare(sv, ds, root, choices, limits).candidates;
  }

  ghost predicate SharedAlias(ds: seq<Dependency>) {
    exists i, j :: 0 <= i < j < |ds| && ds[i].alias == ds[j].alias
  }

  /** The declarations are at fault exactly when there are too many, or two share an alias, or
      one has no valid range. */
  lemma RejectedExactly(sv: Semver, ds: seq<Dependency>, limits: Limits)
    requires forall d :: d in ds ==> DependencyShape(d)
    ensures var deps := OrderedDependencies(ds);
      && (Declarable(deps, limits) <==> |ds| <= limits.fanOut && !SharedAlias(ds))
      && ((exists d :: d in deps && !sv.validRange(d.version)) <==> exists d :: d in ds && !sv.validRange(d.version))
  {
    var deps := OrderedDependencies(ds);
    DependencyOrder();
    SortCorrect(ds, DependencyLe);
    SortMembers(ds, DependencyLe);
    IncludedLength(ds, deps);
    IncludedLength(deps, ds);
    MapIncluded(ds, deps, DepAlias);
    MapIncluded(deps, ds, DepAlias);
    NoDupPositions(Map(ds, DepAlias));
    if SharedAlias(ds) {
      var i, j :| 0 <= i < j < |ds| && ds[i].alias == ds[j].alias;
      assert Map(ds, DepAlias)[i] == Map(ds, DepAlias)[j];
    } else {
      forall i, j | 0 <= i < j < |ds| ensures Map(ds, DepAlias)[i] != Map(ds, DepAlias)[j] {
        assert ds[i].alias != ds[j].alias;
      }
    }
  }

  method ResolveDependencies(sv: Semver, ds: seq<Dependency>, root: Root, choices: Dependency -> seq<Choice>,
      limits: Limits)
    returns (r: Resolved)
    requires TotalPreorder(sv.atMost) && Offers(sv, choices)
    requires forall d :: d in ds ==> DependencyShape(d)
    ensures r == Answer(sv, ds, root, choices, limits)
    ensures r == Rejected(FanOutOrAliases) <==> limits.fanOut < |ds| || SharedAlias(ds)
    ensures r == Rejected(InvalidRange) <==>
      |ds| <= limits.fanOut && !SharedAlias(ds) && exists d :: d in ds && !sv.validRange(d.version)
  {
    RejectedExactly(sv, ds, limits);
    AnswerRejects(sv, ds, root, choices, limits);
    var deps := OrderedDependencies(ds);
    var aliases := Map(deps, DepAlias);
    DistinctCount(aliases);
    if |deps| > limits.fanOut || |Elements(aliases)| != |deps| {
      return Rejected(FanOutOrAliases);
    }
    if exists d :: d in deps && !sv.validRange(d.version) {
      return Rejected(InvalidRange);
    }
    AnswerSearches(sv, ds, root, choices, limits);
    var candidates := CandidateLists(sv, deps, choices);
    PreparedLists(sv, ds, root, choices, limits, candidates);
    var found := SearchAll(Problem(sv, deps, candidates, root, limits));
    match found
    case Exceeded => r := Rejected(SearchLimit);
    case NotFound => r := Rejected(NoVersion);
    case Found(l) =>
      var ordered := OrderNodes(l);
      r := Resolved(ordered);
  }

  // ---- Soundness and completeness ----------------------------------------------------

  /** A resolved lock is the merge of the first solution, children first; it is valid
      unless nothing was declared, in which case it is valid when the root alone fits. */
  lemma ResolvedIsBest(p: Problem) returns (s: seq<nat>)
    requires Posed(p) && Resolution(p).Found?
    ensures First(p, [], s) && Combined(p, s) == Some(Resolution(p).lock) && Closed(Resolution(p).lock)
    ensures var l := Resolution(p).lock;
      multiset(Reordered(l).nodes) == multiset(l.nodes) && ChildrenFirst(l.edges, Reordered(l).nodes) &&
      (ValidLock(p.sv, Reordered(l), p.root, p.limits) <==>
        (p.deps != [] || p.root.expandedBytes <= p.limits.expandedBytes))
  {
    s := FoundIsSolution(p);
    var l := Resolution(p).lock;
    if s == [] {
      if ValidLock(p.sv, EMPTY, p.root, p.limits) {
        ReorderedValid(p.sv, EMPTY, p.root, p.limits);
      }
      assert Children(EMPTY, ROOT) == [];
    } else {
      ReorderedValid(p.sv, l, p.root, p.limits);
    }
  }

  /** a has the higher version, or one of the same precedence and no greater version id. */
  ghost predicate Ranks(sv: Semver, a: Node, b: Node) {
    sv.atMost(b.semanticVersion, a.semanticVersion) &&
    (sv.atMost(a.semanticVersion, b.semanticVersion) ==> StrLe(a.versionId, b.versionId))
  }

  /** Earlier candidates have a higher version, or the same one and no greater version id. */
  lemma CandidatesRanked(sv: Semver, d: Dependency, choices: seq<Choice>, i: nat, j: nat)
    requires TotalPreorder(sv.atMost) && i < j < |Candidates(sv, d, choices)|
    ensures var a, b := Candidates(sv, d, choices)[i].node, Candidates(sv, d, choices)[j].node;
      && sv.atMost(b.semanticVersion, a.semanticVersion)
      && (sv.atMost(a.semanticVersion, b.semanticVersion) ==> StrLe(a.versionId, b.versionId))
  {
    CandidateOrder(sv);
    SortCorrect(Filter(choices, (c: Choice) => sv.satisfies(c.node.semanticVersion, d.version)),
                (a, b) => BetterOrSame(sv, a, b));
    assert BetterOrSame(sv, Candidates(sv, d, choices)[i], Candidates(sv, d, choices)[j]);
  }

  /** At the first dependency where two combinations differ, s has the better version. */
  ghost predicate Improves(p: Problem, s: seq<nat>, t: seq<nat>, i: nat)
    requires Picks(p, s) && Picks(p, t)
  {
    && i < |s| && i < |t| && s[..i] == t[..i] && s[i] != t[i]
    && Ranks(p.sv, p.candidates[i][s[i]].node, p.candidates[i][t[i]].node)
  }

  lemma FirstImproves(p: Problem, choices: Dependency -> seq<Choice>, s: seq<nat>, t: seq<nat>)
    requires TotalPreorder(p.sv.atMost) && Picks(p, s) && Picks(p, t) && NoLater(s, t) && s != t
    requires forall k :: 0 <= k < |p.deps| ==> p.candidates[k] == Candidates(p.sv, p.deps[k], choices(p.deps[k]))
    ensures exists i :: Improves(p, s, t, i)
  {
    var i :| 0 <= i < |s| && i < |t| && s[..i] == t[..i] && s[i] < t[i];
    CandidatesRanked(p.sv, p.deps[i], choices(p.deps[i]), s[i], t[i]);
    assert Improves(p, s, t, i);
  }

  /** The resolved lock merges the valid combination with the best versions, dependency by
      dependency. */
  lemma ResolvedVersionsBest(sv: Semver, ds: seq<Dependency>, root: Root, choices: Dependency -> seq<Choice>,
      limits: Limits) returns (s: seq<nat>)
    requires TotalPreorder(sv.atMost) && Posed(Prepare(sv, ds, root, choices, limits))
    requires Resolution(Prepare(sv, ds, root, choices, limits)).Found?
    ensures var p := Prepare(sv, ds, root, choices, limits);
      && Solution(p, s) && Combined(p, s) == Some(Resolution(p).lock)
      && forall t :: Solution(p, t) && t != s ==> exists i :: Improves(p, s, t, i)
  {
    var p := Prepare(sv, ds, root, choices, limits);
    s := FoundIsSolution(p);
    forall t | Solution(p, t) && t != s ensures exists i :: Improves(p, s, t, i) {
      FirstImproves(p, choices, s, t);
    }
  }

  /** With no dependency declared the search answers without validating: a root of
      eleven bytes under a limit of ten still resolves, to a lock that is not valid. */
  lemma UncheckedEmptyLock(sv: Semver) returns (p: Problem)
    ensures Posed(p) && Resolution(p) == Found(EMPTY)
    ensures !ValidLock(sv, EMPTY, p.root, p.limits)
  {
    p := Problem(sv, [], [], Root("acme", "root", 11), COMPOSITION_LIMITS.(expandedBytes := 10));
    assert Map(p.deps, DepAlias) == [];
    assert Solution(p, []);
    assert First(p, [], []);
    ResolutionFound(p, []);
  }

  /** Failure means that no combination of candidates is valid, and only that. */
  lemma RejectedMeansNone(p: Problem)
    requires Posed(p) && Visits(p, []) <= p.limits.attempts
    ensures Resolution(p).NotFound? <==> forall s :: |s| == |p.deps| && Picks(p, s) ==> !Viable(p, s)
  {
    if Resolution(p).NotFound? {
      forall s | |s| == |p.deps| && Picks(p, s) ensures !Viable(p, s) {
        if Viable(p, s) {
          assert Solution(p, s) && [] <= s;
        }
      }
    }
  }

  // ---- Pins never float --------------------------------------------------------------

  ghost predicate NodeFrom(p: Problem, s: seq<nat>, i: nat, n: Node)
    requires Picks(p, s) && i < |s|
  {
    n == p.candidates[i][s[i]].node || n in p.candidates[i][s[i]].lock.nodes
  }

  ghost predicate EdgeFrom(p: Problem, s: seq<nat>, i: nat, e: Edge)
    requires Picks(p, s) && i < |s|
  {
    var c := p.candidates[i][s[i]];
    || e == Edge(p.deps[i], "$root", c.node.versionId, i)
    || exists f :: f in c.lock.edges && e == f.(parent := if f.parent == "$root" then c.node.versionId else f.parent)
  }

  /** l holds the rows of the first |s| picks and no others. */
  ghost predicate MadeOf(p: Problem, s: seq<nat>, l: Lock)
    requires Picks(p, s)
  {
    && (forall i, n :: 0 <= i < |s| && NodeFrom(p, s, i, n) ==> n in l.nodes)
    && (forall i, e :: 0 <= i < |s| && EdgeFrom(p, s, i, e) ==> e in l.edges)
    && (forall n :: n in l.nodes ==> exists i :: 0 <= i < |s| && NodeFrom(p, s, i, n))
    && (forall e :: e in l.edges ==> exists i :: 0 <= i < |s| && EdgeFrom(p, s, i, e))
  }

  lemma EdgesFromPick(p: Problem, s: seq<nat>, i: nat, e: Edge)
    requires Picks(p, s) && i < |s|
    ensures EdgeFrom(p, s, i, e) <==>
      e in Reparented(Picked(p, s, i)) || e == RootEdge(p.deps[i], Picked(p, s, i), i)
  {
    var c := Picked(p, s, i);
    if e in Reparented(c) {
      var f := FromReparented(c, e);
    }
    if f :| f in c.lock.edges && e == f.(parent := if f.parent == "$root" then c.node.versionId else f.parent) {
      InReparented(c, f);
    }
  }

  lemma MadeOfStep(p: Problem, s: seq<nat>, l: Lock, m: Lock)
    requires Picks(p, s) && s != [] && Picks(p, s[..|s| - 1])
    requires MadeOf(p, s[..|s| - 1], l)
    requires Joined(l, p.deps[|s| - 1], Picked(p, s, |s| - 1), |s| - 1, m)
    ensures MadeOf(p, s, m)
  {
    var k := |s| - 1;
    var init := s[..k];
    assert forall i :: 0 <= i < k ==> Picked(p, init, i) == Picked(p, s, i);
    forall i, n | 0 <= i < |s| && NodeFrom(p, s, i, n) ensures n in m.nodes {
      if i < k { assert NodeFrom(p, init, i, n); }
    }
    forall i, e | 0 <= i < |s| && EdgeFrom(p, s, i, e) ensures e in m.edges {
      if i < k { assert EdgeFrom(p, init, i, e); } else { EdgesFromPick(p, s, i, e); }
    }
    forall n | n in m.nodes ensures exists i :: 0 <= i < |s| && NodeFrom(p, s, i, n) {
      if n in l.nodes {
        var i :| 0 <= i < k && NodeFrom(p, init, i, n);
        assert NodeFrom(p, s, i, n);
      } else {
        assert NodeFrom(p, s, k, n);
      }
    }
    forall e | e in m.edges ensures exists i :: 0 <= i < |s| && EdgeFrom(p, s, i, e) {
      if e in l.edges {
        var i :| 0 <= i < k && EdgeFrom(p, init, i, e);
        assert EdgeFrom(p, s, i, e);
      } else {
        EdgesFromPick(p, s, k, e);
        assert EdgeFrom(p, s, k, e);
      }
    }
  }

  /** Published pins never float: every row of every chosen lock is in the result as it
      was published (its own root renamed), and the result holds nothing else but one
      root edge for each declared dependency. */
  lemma {:induction false} PinsNeverFloat(p: Problem, s: seq<nat>)
    requires Posed(p) && Picks(p, s) && NoRootPicked(p, s) && Combined(p, s).Some?
    ensures MadeOf(p, s, Combined(p, s).value)
    decreases |s|
  {
    if s != [] {
      var k := |s| - 1;
      PicksPrefix(p, s, k);
      PinsNeverFloat(p, s[..k]);
      CombinedAnchored(p, s[..k]);
      var l := Combined(p, s[..k]).value;
      AliasIsNew(p, k, l);
      MergeAnchored(p.sv, l, p.deps[k], Picked(p, s, k), k);
      MadeOfStep(p, s, l, Combined(p, s).value);
    }
  }

  /** The same for the lock that is returned. */
  lemma ResolvedPins(p: Problem) returns (s: seq<nat>)
    requires Posed(p) && Resolution(p).Found?
    ensures First(p, [], s) && Combined(p, s) == Some(Resolution(p).lock) && MadeOf(p, s, Resolution(p).lock)
  {
    s := FoundIsSolution(p);
    ViableHasNoRoot(p, s);
    PinsNeverFloat(p, s);
  }

  /** In the lock, d is pinned by its own edge from the root, at its place, to a choice that was
      offered for it and satisfies its range; and the choice came with its whole lock. */
  ghost predicate Meets(sv: Semver, d: Dependency, offered: seq<Choice>, i: nat, l: Lock) {
    exists c: Choice :: c in offered && sv.satisfies(c.node.semanticVersion, d.version) && c.node in l.nodes &&
      (forall n :: n in c.lock.nodes ==> n in l.nodes) && Edge(d, "$root", c.node.versionId, i) in l.edges
  }

  /** What a resolved lock gives its caller, from end to end. */
  lemma ResolvedMeets(sv: Semver, ds: seq<Dependency>, root: Root, choices: Dependency -> seq<Choice>, limits: Limits,
      i: nat)
    requires TotalPreorder(sv.atMost) && Offers(sv, choices)
    requires forall d :: d in ds ==> DependencyShape(d)
    requires Answer(sv, ds, root, choices, limits).Resolved? && i < |ds|
    ensures |OrderedDependencies(ds)| == |ds|
    ensures var d := OrderedDependencies(ds)[i];
      Meets(sv, d, choices(d), i, Answer(sv, ds, root, choices, limits).lock)
  {
    var p := Prepare(sv, ds, root, choices, limits);
    PreparePosed(sv, ds, root, choices, limits);
    IncludedLength(ds, p.deps);
    IncludedLength(p.deps, ds);
    FoundIsClosed(p);
    PickMeets(p, choices, i);
  }

  lemma PickMeets(p: Problem, choices: Dependency -> seq<Choice>, i: nat)
    requires TotalPreorder(p.sv.atMost) && Posed(p) && i < |p.deps|
    requires Resolution(p).Found? && Closed(Resolution(p).lock)
    requires p.candidates[i] == Candidates(p.sv, p.deps[i], choices(p.deps[i]))
    ensures Meets(p.sv, p.deps[i], choices(p.deps[i]), i, Reordered(Resolution(p).lock))
  {
    var s := ResolvedPins(p);
    var d, c := p.deps[i], Picked(p, s, i);
    CandidateMembers(p.sv, d, choices(d));
    assert c in p.candidates[i];
    KeptNodes(p);
    assert NodeFrom(p, s, i, c.node) && EdgeFrom(p, s, i, Edge(d, "$root", c.node.versionId, i));
    forall n | n in c.lock.nodes ensures n in Resolution(p).lock.nodes { assert NodeFrom(p, s, i, n); }
  }

  lemma KeptNodes(p: Problem)
    requires Posed(p) && Resolution(p).Found? && Closed(Resolution(p).lock)
    ensures forall n :: n in Resolution(p).lock.nodes ==> n in Reordered(Resolution(p).lock).nodes
  {
    var s := ResolvedIsBest(p);
    SameMembers(Reordered(Resolution(p).lock).nodes, Resolution(p).lock.nodes);
  }

  // ---- Determinism --------------------------------------------------------------------

  ghost predicate OneOfEach(choices: seq<Choice>) {
    forall a, b :: a in choices && b in choices && a.node.versionId == b.node.versionId ==> a == b
  }

  lemma CandidatesCanonical(sv: Semver, d: Dependency, xs: seq<Choice>, ys: seq<Choice>)
    requires TotalPreorder(sv.atMost) && multiset(xs) == multiset(ys) && OneOfEach(xs)
    ensures Candidates(sv, d, xs) == Candidates(sv, d, ys)
  {
    var keep := (c: Choice) => sv.satisfies(c.node.semanticVersion, d.version);
    var le := (a, b) => BetterOrSame(sv, a, b);
    CandidateOrder(sv);
    FilterMembers(xs, keep);
    forall c ensures multiset(Filter(xs, keep))[c] == multiset(Filter(ys, keep))[c] {
      FilterCounts(xs, keep, c);
      FilterCounts(ys, keep, c);
    }
    SortCanonical(Filter(xs, keep), Filter(ys, keep), le);
  }

  lemma OrderCanonical(ds: seq<Dependency>, ds': seq<Dependency>)
    requires multiset(ds) == multiset(ds') && NoDup(Map(ds, DepAlias))
    ensures OrderedDependencies(ds) == OrderedDependencies(ds')
  {
    DependencyOrder();
    forall a, b | a in ds && b in ds && DependencyLe(a, b) && DependencyLe(b, a) ensures a == b {
      KeyIsUnique(ds, DepAlias, a, b);
    }
    SortCanonical(ds, ds', DependencyLe);
  }

  /** Neither the order of the declarations nor that of the offered versions matters. */
  lemma Deterministic(sv: Semver, root: Root, limits: Limits, ds: seq<Dependency>, ds': seq<Dependency>,
                      choices: Dependency -> seq<Choice>, choices': Dependency -> seq<Choice>)
    requires TotalPreorder(sv.atMost) && Offers(sv, choices) && Offers(sv, choices')
    requires forall d :: d in ds ==> DependencyShape(d)
    requires forall d :: d in ds' ==> DependencyShape(d)
    requires multiset(ds) == multiset(ds')
    requires forall d :: d in ds ==> multiset(choices(d)) == multiset(choices'(d)) && OneOfEach(choices(d))
    ensures Answer(sv, ds, root, choices, limits) == Answer(sv, ds', root, choices', limits)
  {
    SameMembers(ds, ds');
    IncludedLength(ds, ds');
    IncludedLength(ds', ds);
    MapIncluded(ds, ds', DepAlias);
    MapIncluded(ds', ds, DepAlias);
    if Declarable(ds, limits) {
      PrepareCanonical(sv, root, limits, ds, ds', choices, choices');
    }
  }

  lemma PrepareCanonical(sv: Semver, root: Root, limits: Limits, ds: seq<Dependency>, ds': seq<Dependency>,
                         choices: Dependency -> seq<Choice>, choices': Dependency -> seq<Choice>)
    requires TotalPreorder(sv.atMost) && multiset(ds) == multiset(ds') && NoDup(Map(ds, DepAlias))
    requires forall d :: d in ds ==> multiset(choices(d)) == multiset(choices'(d)) && OneOfEach(choices(d))
    ensures Prepare(sv, ds, root, choices, limits) == Prepare(sv, ds', root, choices', limits)
  {
    OrderCanonical(ds, ds');
    DependencyOrder();
    SortMembers(ds, DependencyLe);
    var deps := OrderedDependencies(ds);
    forall i | 0 <= i < |deps|
      ensures Candidates(sv, deps[i], choices(deps[i])) == Candidates(sv, deps[i], choices'(deps[i]))
    {
      assert deps[i] in deps && deps[i] in ds;
      CandidatesCanonical(sv, deps[i], choices(deps[i]), choices'(deps[i]));
    }
    assert Prepare(sv, ds, root, choices, limits).candidates == Prepare(sv, ds', root, choices', limits).candidates;
  }
}
