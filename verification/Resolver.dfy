/** resolveDependencies: a bounded backtracking search for the best set of pins. */
module Resolver {
  import opened Sequences
  import opened Locks
  import opened LockValidation
  import opened Merging
  import opened Pruning

  /** The declared dependencies in order, each with its candidates best first. */
  datatype Problem = Problem(
    sv: Semver, deps: seq<Dependency>, candidates: seq<seq<Choice>>, root: Root, limits: Limits)

  ghost predicate Posed(p: Problem) {
    && |p.candidates| == |p.deps|
    && NoDup(Map(p.deps, DepAlias))
    && (forall d :: d in p.deps ==> '/' !in d.alias)
    && (forall i, c :: 0 <= i < |p.deps| && c in p.candidates[i] ==> ValidChoice(p.sv, c))
  }

  function DepAlias(d: Dependency): string { d.alias }

  // ---- What is being searched for ----------------------------------------------------

  /** A choice of candidate for each of the first |picks| dependencies. */
  predicate Picks(p: Problem, picks: seq<nat>) {
    |picks| <= |p.deps| && |p.candidates| == |p.deps| &&
    forall i :: 0 <= i < |picks| ==> picks[i] < |p.candidates[i]|
  }

  function Picked(p: Problem, picks: seq<nat>, i: nat): Choice
    requires Picks(p, picks) && i < |picks|
  {
    p.candidates[i][picks[i]]
  }

  /** The picks merged one after the other, without any check on the way. */
  function Combined(p: Problem, picks: seq<nat>): Option<Lock>
    requires Picks(p, picks)
    decreases |picks|
  {
    if picks == [] then Some(EMPTY)
    else
      var k := |picks| - 1;
      match Combined(p, picks[..k])
      case None => None
      case Some(l) => Merge(l, p.deps[k], Picked(p, picks, k), k)
  }

  /** The picks merge into a valid lock. Nothing is checked before the first pick. */
  ghost predicate Viable(p: Problem, picks: seq<nat>) {
    Picks(p, picks) && Combined(p, picks).Some? &&
    (picks == [] || ValidLock(p.sv, Combined(p, picks).value, p.root, p.limits))
  }

  ghost predicate Solution(p: Problem, picks: seq<nat>) {
    |picks| == |p.deps| && Viable(p, picks)
  }

  ghost predicate HasSolution(p: Problem, picks: seq<nat>) {
    exists s :: Solution(p, s) && picks <= s
  }

  /** s comes no later than t when the earliest dependency decides. */
  ghost predicate NoLater(s: seq<nat>, t: seq<nat>) {
    s == t || exists i :: 0 <= i < |s| && i < |t| && s[..i] == t[..i] && s[i] < t[i]
  }

  /** s is the first solution that starts with picks. */
  ghost predicate First(p: Problem, picks: seq<nat>, s: seq<nat>) {
    Solution(p, s) && picks <= s && forall t :: Solution(p, t) && picks <= t ==> NoLater(s, t)
  }

  // ---- Pruning -------------------------------------------------------------------------

  ghost predicate NoRootPicked(p: Problem, picks: seq<nat>)
    requires Picks(p, picks)
  {
    forall i :: 0 <= i < |picks| ==> Picked(p, picks, i).node.versionId != ROOT
  }

  ghost predicate RootAliases(p: Problem, k: nat, l: Lock)
    requires k <= |p.deps|
  {
    forall e :: e in l.edges && e.parent == ROOT ==> exists j :: 0 <= j < k && p.deps[j].alias == e.dep.alias
  }

  lemma PicksPrefix(p: Problem, picks: seq<nat>, k: nat)
    requires Picks(p, picks) && k <= |picks|
    ensures Picks(p, picks[..k])
    ensures forall i :: 0 <= i < k ==> Picked(p, picks[..k], i) == Picked(p, picks, i)
  {
  }

  lemma AliasIsNew(p: Problem, k: nat, l: Lock)
    requires Posed(p) && k < |p.deps| && RootAliases(p, k, l)
    ensures forall e :: e in l.edges && e.parent == ROOT ==> e.dep.alias != p.deps[k].alias
  {
    NoDupPositions(Map(p.deps, DepAlias));
    forall e | e in l.edges && e.parent == ROOT ensures e.dep.alias != p.deps[k].alias {
      var j :| 0 <= j < k && p.deps[j].alias == e.dep.alias;
      assert Map(p.deps, DepAlias)[j] != Map(p.deps, DepAlias)[k];
    }
  }

  lemma PickIsValid(p: Problem, picks: seq<nat>, i: nat)
    requires Posed(p) && Picks(p, picks) && i < |picks|
    ensures ValidChoice(p.sv, Picked(p, picks, i)) && '/' !in p.deps[i].alias
  {
    assert Picked(p, picks, i) in p.candidates[i] && p.deps[i] in p.deps;
  }

  lemma EmptyAnchored()
    ensures Anchored(EMPTY)
  {
    assert Ids(EMPTY.nodes) == [] && Map(EMPTY.edges, KeyOf) == [];
  }

  /** Every merged lock is whole, and its root edges are those of the merged dependencies. */
  lemma {:induction false} CombinedAnchored(p: Problem, picks: seq<nat>)
    requires Posed(p) && Picks(p, picks) && NoRootPicked(p, picks) && Combined(p, picks).Some?
    ensures Anchored(Combined(p, picks).value) && RootAliases(p, |picks|, Combined(p, picks).value)
    decreases |picks|
  {
    if picks == [] {
      EmptyAnchored();
    } else {
      var k := |picks| - 1;
      PicksPrefix(p, picks, k);
      CombinedAnchored(p, picks[..k]);
      var l := Combined(p, picks[..k]).value;
      AliasIsNew(p, k, l);
      PickIsValid(p, picks, k);
      var c := Picked(p, picks, k);
      MergeAnchored(p.sv, l, p.deps[k], c, k);
      RootAliasesStep(p, k, l, c, Combined(p, picks).value);
    }
  }

  lemma RootAliasesStep(p: Problem, k: nat, l: Lock, c: Choice, m: Lock)
    requires k < |p.deps| && RootAliases(p, k, l) && ValidChoice(p.sv, c) && c.node.versionId != ROOT
    requires Joined(l, p.deps[k], c, k, m)
    ensures RootAliases(p, k + 1, m)
  {
    ChoiceEdges(p.sv, c);
    forall e | e in m.edges && e.parent == ROOT
      ensures exists j :: 0 <= j < k + 1 && p.deps[j].alias == e.dep.alias
    {
      if e in l.edges {
        var j :| 0 <= j < k && p.deps[j].alias == e.dep.alias;
      } else {
        assert e == RootEdge(p.deps[k], c, k);
      }
    }
  }

  lemma {:induction false} CombinedKeys(p: Problem, picks: seq<nat>)
    requires Picks(p, picks) && Combined(p, picks).Some?
    ensures NoDup(Ids(Combined(p, picks).value.nodes))
    decreases |picks|
  {
    if picks == [] {
      EmptyAnchored();
    } else {
      var k := |picks| - 1;
      PicksPrefix(p, picks, k);
      CombinedKeys(p, picks[..k]);
      MergedNodes(Combined(p, picks[..k]).value, p.deps[k], Picked(p, picks, k), k);
    }
  }

  lemma CombinedStepNodes(p: Problem, picks: seq<nat>, n: Node)
    requires Picks(p, picks) && picks != [] && Combined(p, picks).Some?
    requires Picks(p, picks[..|picks| - 1])
    requires n == Picked(p, picks, |picks| - 1).node ||
      (Combined(p, picks[..|picks| - 1]).Some? && n in Combined(p, picks[..|picks| - 1]).value.nodes)
    ensures n in Combined(p, picks).value.nodes
  {
    var k := |picks| - 1;
    PicksPrefix(p, picks, k);
    CombinedKeys(p, picks[..k]);
    MergedNodes(Combined(p, picks[..k]).value, p.deps[k], Picked(p, picks, k), k);
  }

  lemma CombinedInit(p: Problem, picks: seq<nat>)
    requires Picks(p, picks) && picks != [] && Combined(p, picks).Some?
    ensures Picks(p, picks[..|picks| - 1]) && Combined(p, picks[..|picks| - 1]).Some?
  {
    PicksPrefix(p, picks, |picks| - 1);
  }

  /** The node of every pick is in the merged lock. */
  lemma {:induction false} CombinedHasPick(p: Problem, picks: seq<nat>, i: nat)
    requires Picks(p, picks) && Combined(p, picks).Some? && i < |picks|
    ensures Picked(p, picks, i).node in Combined(p, picks).value.nodes
    decreases |picks|
  {
    CombinedInit(p, picks);
    if i < |picks| - 1 {
      CombinedHasPick(p, picks[..|picks| - 1], i);
      assert Picked(p, picks[..|picks| - 1], i) == Picked(p, picks, i);
    }
    CombinedStepNodes(p, picks, Picked(p, picks, i).node);
  }

  lemma ViableHasNoRoot(p: Problem, picks: seq<nat>)
    requires Viable(p, picks)
    ensures NoRootPicked(p, picks)
  {
    forall i | 0 <= i < |picks| ensures Picked(p, picks, i).node.versionId != ROOT {
      CombinedHasPick(p, picks, i);
      InIds(Combined(p, picks).value.nodes, Picked(p, picks, i).node);
    }
  }

  /** A conflict or an invalid lock stays one: dropping the last pick keeps viability. */
  lemma ViablePrefix(p: Problem, picks: seq<nat>)
    requires Posed(p) && Viable(p, picks) && picks != []
    ensures Viable(p, picks[..|picks| - 1])
  {
    var k := |picks| - 1;
    PicksPrefix(p, picks, k);
    if k > 0 {
      ViableHasNoRoot(p, picks);
      CombinedAnchored(p, picks[..k]);
      var l, m := Combined(p, picks[..k]).value, Combined(p, picks).value;
      AliasIsNew(p, k, l);
      PickIsValid(p, picks, k);
      MergeAnchored(p.sv, l, p.deps[k], Picked(p, picks, k), k);
      if !ValidLock(p.sv, l, p.root, p.limits) {
        InvalidNeverRecovers(p.sv, l, m, p.root, p.limits);
      }
    }
  }

  /** Pruning is sound: every prefix of a solution is viable. */
  lemma {:induction false} SolutionPrefix(p: Problem, s: seq<nat>, k: nat)
    requires Posed(p) && Viable(p, s) && k <= |s|
    ensures Viable(p, s[..k])
    decreases |s| - k
  {
    if k < |s| {
      SolutionPrefix(p, s, k + 1);
      assert s[..k + 1][..k] == s[..k];
      ViablePrefix(p, s[..k + 1]);
    } else {
      assert s[..k] == s;
    }
  }

  // ---- What the search returns and how long it takes -------------------------------------

  datatype Outcome = Found(lock: Lock) | NotFound | Exceeded

  /** How many partial locks the search enters below picks, up to the first solution. */
  ghost function Visits(p: Problem, picks: seq<nat>): nat
    requires Picks(p, picks)
    decreases |p.deps| - |picks|, 1, 0
  {
    if |picks| == |p.deps| then 1 else 1 + VisitsFrom(p, picks, 0)
  }

  ghost function VisitsFrom(p: Problem, picks: seq<nat>, k: nat): nat
    requires Picks(p, picks) && |picks| < |p.deps| && k <= |p.candidates[|picks|]|
    decreases |p.deps| - |picks|, 0, |p.candidates[|picks|]| - k
  {
    if k == |p.candidates[|picks|]| then 0
    else if !Viable(p, picks + [k]) then VisitsFrom(p, picks, k + 1)
    else Visits(p, picks + [k]) + if HasSolution(p, picks + [k]) then 0 else VisitsFrom(p, picks, k + 1)
  }

  /** None of the first k candidates leads to a solution. */
  ghost predicate Barren(p: Problem, picks: seq<nat>, k: nat) {
    forall j: nat {:trigger HasSolution(p, picks + [j])} :: j < k ==> !HasSolution(p, picks + [j])
  }

  /** The outcome that the declared problem determines. */
  ghost function Resolution(p: Problem): Outcome
    requires Posed(p)
  {
    if Visits(p, []) > p.limits.attempts then Exceeded
    else if HasSolution(p, []) then
      FirstExists(p, []);
      var s :| First(p, [], s);
      Found(Combined(p, s).value)
    else NotFound
  }

  lemma NoLaterAntisymmetric(s: seq<nat>, t: seq<nat>)
    requires |s| == |t| && NoLater(s, t) && NoLater(t, s)
    ensures s == t
  {
    if s != t {
      var i :| 0 <= i < |s| && s[..i] == t[..i] && s[i] < t[i];
      var j :| 0 <= j < |t| && t[..j] == s[..j] && t[j] < s[j];
      FirstDifference(s, t, i, j);
    }
  }

  lemma SameBefore(s: seq<nat>, t: seq<nat>, n: nat, h: nat)
    requires h < n <= |s| && n <= |t| && s[..n] == t[..n]
    ensures s[h] == t[h]
  {
    assert s[h] == s[..n][h] == t[..n][h] == t[h];
  }

  /** Where sequences first differ, only one of them has the smaller element. */
  lemma FirstDifference(s: seq<nat>, t: seq<nat>, i: nat, j: nat)
    requires |s| == |t| && i < |s| && j < |s| && s[..i] == t[..i] && s[..j] == t[..j] && s[i] < t[i]
    ensures s[j] <= t[j]
  {
    if j < i { SameBefore(s, t, i, j); }
    if i < j { SameBefore(s, t, j, i); }
  }

  /** The first solution is unique, so it does not matter how it was found. */
  lemma FirstUnique(p: Problem, picks: seq<nat>, s: seq<nat>, t: seq<nat>)
    requires First(p, picks, s) && First(p, picks, t)
    ensures s == t
  {
    NoLaterAntisymmetric(s, t);
  }

  lemma PrefixChoices(picks: seq<nat>, s: seq<nat>)
    requires picks <= s && |picks| < |s|
    ensures picks + [s[|picks|]] <= s
  {
  }

  lemma NextPick(p: Problem, picks: seq<nat>, t: seq<nat>)
    requires Solution(p, t) && picks <= t && |picks| < |p.deps|
    ensures t[|picks|] < |p.candidates[|picks|]| && picks + [t[|picks|]] <= t
    ensures HasSolution(p, picks + [t[|picks|]])
  {
    PrefixChoices(picks, t);
  }

  /** A first solution below an early candidate comes before everything below later ones. */
  lemma FirstBelow(p: Problem, picks: seq<nat>, k: nat, s: seq<nat>)
    requires |picks| < |p.deps| && First(p, picks + [k], s)
    requires Barren(p, picks, k)
    ensures First(p, picks, s)
  {
    assert s[|picks|] == (picks + [k])[|picks|] == k;
    assert picks <= s;
    forall t | Solution(p, t) && picks <= t ensures NoLater(s, t) {
      NextPick(p, picks, t);
      var j := t[|picks|];
      if j == k {
        assert picks + [k] <= t;
      } else {
        assert s[..|picks|] == picks == t[..|picks|];
      }
    }
  }

  lemma NoneBelow(p: Problem, picks: seq<nat>)
    requires Picks(p, picks) && |picks| < |p.deps|
    requires Barren(p, picks, |p.candidates[|picks|]|)
    ensures !HasSolution(p, picks)
  {
    if HasSolution(p, picks) {
      var t :| Solution(p, t) && picks <= t;
      NextPick(p, picks, t);
    }
  }

  /** A nonempty set of solutions has a first one. */
  lemma {:induction false} FirstExists(p: Problem, picks: seq<nat>)
    requires Posed(p) && HasSolution(p, picks)
    ensures exists s :: First(p, picks, s)
    decreases |p.deps| - |picks|
  {
    var t :| Solution(p, t) && picks <= t;
    if |picks| == |p.deps| {
      assert picks == t;
      assert First(p, picks, t);
    } else {
      NextPick(p, picks, t);
      var k := FirstCandidate(p, picks, t[|picks|]);
      FirstExists(p, picks + [k]);
      var s :| First(p, picks + [k], s);
      FirstBelow(p, picks, k, s);
    }
  }

  lemma {:induction false} FirstCandidate(p: Problem, picks: seq<nat>, m: nat) returns (k: nat)
    requires HasSolution(p, picks + [m])
    ensures HasSolution(p, picks + [k]) && Barren(p, picks, k)
    decreases m
  {
    if !Barren(p, picks, m) {
      var j: nat :| j < m && HasSolution(p, picks + [j]);
      k := FirstCandidate(p, picks, j);
    } else {
      k := m;
    }
  }

  /** Without a viable lock there is no solution below. */
  lemma NotViableNoSolution(p: Problem, picks: seq<nat>)
    requires Posed(p) && !Viable(p, picks)
    ensures !HasSolution(p, picks)
  {
    if HasSolution(p, picks) {
      var s :| Solution(p, s) && picks <= s;
      assert s[..|picks|] == picks;
      SolutionPrefix(p, s, |picks|);
    }
  }

  ghost predicate FoundFirst(p: Problem, picks: seq<nat>, lock: Lock) {
    exists s :: First(p, picks, s) && Combined(p, s) == Some(lock)
  }

  lemma FoundBelow(p: Problem, picks: seq<nat>, k: nat, lock: Lock)
    requires |picks| < |p.deps| && FoundFirst(p, picks + [k], lock) && Barren(p, picks, k)
    ensures FoundFirst(p, picks, lock)
  {
    var s :| First(p, picks + [k], s) && Combined(p, s) == Some(lock);
    FirstBelow(p, picks, k, s);
  }

  lemma BarrenStep(p: Problem, picks: seq<nat>, k: nat)
    requires Barren(p, picks, k) && !HasSolution(p, picks + [k])
    ensures Barren(p, picks, k + 1)
  {
    forall j: nat | j < k + 1 ensures !HasSolution(p, picks + [j]) {
      if j == k {
        assert picks + [j] == picks + [k];
      }
    }
  }

  /** What one candidate costs. */
  ghost function Cost(p: Problem, picks: seq<nat>): nat {
    if Viable(p, picks) then Visits(p, picks) else 0
  }

  lemma VisitsStep(p: Problem, picks: seq<nat>, k: nat)
    requires Posed(p) && Picks(p, picks) && |picks| < |p.deps| && k < |p.candidates[|picks|]|
    ensures VisitsFrom(p, picks, k) >= Cost(p, picks + [k])
    ensures HasSolution(p, picks + [k]) ==> VisitsFrom(p, picks, k) == Cost(p, picks + [k])
    ensures !HasSolution(p, picks + [k]) ==>
      VisitsFrom(p, picks, k) == Cost(p, picks + [k]) + VisitsFrom(p, picks, k + 1)
  {
    if !Viable(p, picks + [k]) {
      NotViableNoSolution(p, picks + [k]);
    }
  }

  lemma LeafFirst(p: Problem, picks: seq<nat>)
    requires Viable(p, picks) && |picks| == |p.deps|
    ensures First(p, picks, picks)
  {
  }

  lemma FirstIsSolution(p: Problem, picks: seq<nat>, lock: Lock)
    requires FoundFirst(p, picks, lock)
    ensures HasSolution(p, picks)
  {
    var s :| First(p, picks, s) && Combined(p, s) == Some(lock);
  }

  // ---- What is counted ----------------------------------------------------------------------

  /** t comes after s where they first differ. */
  ghost predicate After(t: seq<nat>, s: seq<nat>) {
    exists i {:trigger t[i]} :: 0 <= i < |t| && i < |s| && t[..i] == s[..i] && s[i] < t[i]
  }

  /** t is viable, starts with picks, and does not come after the first solution that does. */
  ghost predicate Reached(p: Problem, picks: seq<nat>, t: seq<nat>) {
    picks <= t && Viable(p, t) && forall s :: First(p, picks, s) ==> !After(t, s)
  }

  ghost predicate ReachedFrom(p: Problem, picks: seq<nat>, k: nat, t: seq<nat>) {
    |picks| < |t| && k <= t[|picks|] && Reached(p, picks, t)
  }

  /** The attempts are the viable prefixes, the empty one included, that do not come after the
      first solution; all viable ones when there is no solution. */
  lemma {:induction false} VisitsCount(p: Problem, picks: seq<nat>) returns (entered: set<seq<nat>>)
    requires Posed(p) && Viable(p, picks)
    ensures forall t :: t in entered <==> Reached(p, picks, t)
    ensures |entered| == Visits(p, picks)
    decreases |p.deps| - |picks|, 1, 0
  {
    var below: set<seq<nat>> := {};
    if |picks| < |p.deps| { below := VisitsFromCount(p, picks, 0); }
    entered := {picks} + below;
    forall t ensures t in entered <==> Reached(p, picks, t) { ReachedHere(p, picks, t); }
  }

  /** Picks come first among what starts with them. */
  lemma ReachedHere(p: Problem, picks: seq<nat>, t: seq<nat>)
    requires Viable(p, picks)
    ensures Reached(p, picks, t) <==> t == picks || ReachedFrom(p, picks, 0, t)
    ensures ReachedFrom(p, picks, 0, t) ==> |picks| < |p.deps|
  {
    forall s | First(p, picks, s) ensures !After(picks, s) { PrefixNotAfter(picks, s); }
    if Reached(p, picks, t) && |t| == |picks| { assert t == picks; }
  }

  lemma PrefixNotAfter(t: seq<nat>, s: seq<nat>)
    requires t <= s
    ensures !After(t, s)
  {
    forall i | 0 <= i < |t| ensures t[i] == s[i] { }
  }

  lemma {:induction false} VisitsFromCount(p: Problem, picks: seq<nat>, k: nat) returns (entered: set<seq<nat>>)
    requires Posed(p) && Viable(p, picks) && |picks| < |p.deps| && k <= |p.candidates[|picks|]| && Barren(p, picks, k)
    ensures forall t :: t in entered <==> ReachedFrom(p, picks, k, t)
    ensures |entered| == VisitsFrom(p, picks, k)
    decreases |p.deps| - |picks|, 0, |p.candidates[|picks|]| - k
  {
    if k == |p.candidates[|picks|]| {
      entered := {};
    } else if !Viable(p, picks + [k]) {
      NotViableNoSolution(p, picks + [k]);
      BarrenStep(p, picks, k);
      entered := VisitsFromCount(p, picks, k + 1);
      forall t | ReachedFrom(p, picks, k, t) ensures t[|picks|] != k { NothingBelow(p, picks, k, t); }
    } else {
      entered := VisitsCount(p, picks + [k]);
      if HasSolution(p, picks + [k]) {
        forall t ensures t in entered <==> ReachedFrom(p, picks, k, t) { ReachedAlone(p, picks, k, t); }
      } else {
        BarrenStep(p, picks, k);
        var later := VisitsFromCount(p, picks, k + 1);
        forall t ensures t in entered <==> ReachedFrom(p, picks, k, t) && t[|picks|] == k {
          ReachedFirst(p, picks, k, t);
        }
        entered := entered + later;
      }
    }
  }

  /** Nothing viable starts with picks that are not. */
  lemma NothingBelow(p: Problem, picks: seq<nat>, k: nat, t: seq<nat>)
    requires Posed(p) && !Viable(p, picks + [k]) && Viable(p, t) && picks <= t && |picks| < |t|
    ensures t[|picks|] != k
  {
    SolutionPrefix(p, t, |picks| + 1);
    assert t[..|picks| + 1] == picks + [t[|picks|]];
  }

  lemma ExtendsNext(picks: seq<nat>, k: nat, t: seq<nat>)
    ensures picks + [k] <= t <==> picks <= t && |picks| < |t| && t[|picks|] == k
  {
    if picks + [k] <= t { assert picks == (picks + [k])[..|picks|] && t[|picks|] == (picks + [k])[|picks|]; }
  }

  /** When the k-th candidate leads to the first solution, only prefixes below it are left. */
  lemma ReachedAlone(p: Problem, picks: seq<nat>, k: nat, t: seq<nat>)
    requires Posed(p) && |picks| < |p.deps| && Barren(p, picks, k) && HasSolution(p, picks + [k])
    ensures Reached(p, picks + [k], t) <==> ReachedFrom(p, picks, k, t)
  {
    FirstExists(p, picks + [k]);
    var s :| First(p, picks + [k], s);
    FirstBelow(p, picks, k, s);
    ExtendsNext(picks, k, s);
    ExtendsNext(picks, k, t);
    forall r | First(p, picks, r) || First(p, picks + [k], r) ensures r == s {
      if First(p, picks, r) { FirstUnique(p, picks, r, s); } else { FirstUnique(p, picks + [k], r, s); }
    }
    if picks <= t && |picks| < |t| && k < t[|picks|] {
      assert t[..|picks|] == s[..|picks|];
      assert After(t, s);
    }
  }

  /** When it leads to none, all viable prefixes below it come before the first solution. */
  lemma ReachedFirst(p: Problem, picks: seq<nat>, k: nat, t: seq<nat>)
    requires Posed(p) && |picks| < |p.deps| && Barren(p, picks, k + 1)
    ensures Reached(p, picks + [k], t) <==> ReachedFrom(p, picks, k, t) && t[|picks|] == k
  {
    ExtendsNext(picks, k, t);
    assert !HasSolution(p, picks + [k]);
    if picks + [k] <= t {
      forall s | First(p, picks, s) ensures !After(t, s) {
        NextPick(p, picks, s);
        assert !Barren(p, picks, s[|picks|] + 1) && k < s[|picks|];
        BeforeAll(picks, t, s);
      }
    }
  }

  lemma BeforeAll(picks: seq<nat>, t: seq<nat>, s: seq<nat>)
    requires picks <= t && picks <= s && |picks| < |t| && |picks| < |s| && t[|picks|] < s[|picks|]
    ensures !After(t, s)
  {
    forall i | 0 <= i < |t| && i < |s| && t[..i] == s[..i] ensures t[i] <= s[i] {
      if |picks| < i { SameBefore(t, s, i, |picks|); }
    }
  }

  // ---- The search ---------------------------------------------------------------------------

  /** One row of the merge loops: an immutable row may be met again but not changed. */
  method AddRows<T(==,!new), K(==,!new)>(xs: seq<T>, key: T -> K, ys: seq<T>) returns (r: Option<seq<T>>)
    ensures r == AddAll(xs, key, ys)
  {
    var rows := xs;
    for i := 0 to |ys|
      invariant AddAll(rows, key, ys[i..]) == AddAll(xs, key, ys)
    {
      var existing := IndexOf(rows, key, key(ys[i]));
      if existing < |rows| && rows[existing] != ys[i] {
        return None;
      }
      if existing == |rows| {
        rows := rows + [ys[i]];
      }
    }
    r := Some(rows);
  }

  /** The body of the try block up to validateLock. */
  method MergeChoice(l: Lock, d: Dependency, c: Choice, index: nat) returns (r: Option<Lock>)
    ensures r == Merge(l, d, c, index)
  {
    var nodes := AddRows(l.nodes, IdOfNode, [c.node] + c.lock.nodes);
    if nodes.None? {
      return None;
    }
    var edges := AddRows(l.edges, KeyOf, Reparented(c));
    if edges.None? {
      return None;
    }
    r := Some(Lock(1, Sort(nodes.value, NodeLe), Sort(SetEdge(edges.value, RootEdge(d, c, index)), EdgeLe)));
  }

  class Search {
    const p: Problem
    var attempts: nat

    constructor (p: Problem)
      ensures this.p == p && attempts == 0
    {
      this.p := p;
      attempts := 0;
    }

    /** search(index, lock): the first solution below the picks made so far. */
    method Explore(index: nat, lock: Lock, ghost picks: seq<nat>) returns (r: Outcome)
      requires Posed(p) && Viable(p, picks) && index == |picks| && Combined(p, picks) == Some(lock)
      requires attempts <= p.limits.attempts
      modifies this
      ensures r.Exceeded? <==> old(attempts) + Visits(p, picks) > p.limits.attempts
      ensures !r.Exceeded? ==> attempts == old(attempts) + Visits(p, picks)
      ensures r.NotFound? ==> !HasSolution(p, picks)
      ensures r.Found? ==> FoundFirst(p, picks, r.lock)
      decreases |p.deps| - index
    {
      attempts := attempts + 1;
      if attempts > p.limits.attempts {
        return Exceeded;
      }
      if index == |p.deps| {
        LeafFirst(p, picks);
        return Found(lock);
      }
      var k := 0;
      while k < |p.candidates[index]|
        invariant 0 <= k <= |p.candidates[index]|
        invariant attempts <= p.limits.attempts
        invariant attempts + VisitsFrom(p, picks, k) == old(attempts) + Visits(p, picks)
        invariant Barren(p, picks, k)
      {
        VisitsStep(p, picks, k);
        r := Try(index, lock, k, picks);
        if r.Found? {
          FoundBelow(p, picks, k, r.lock);
          return;
        }
        if r.Exceeded? {
          return;
        }
        BarrenStep(p, picks, k);
        k := k + 1;
      }
      NoneBelow(p, picks);
      r := NotFound;
    }

    /** One candidate: merge, validate, and search below it. */
    method Try(index: nat, lock: Lock, k: nat, ghost picks: seq<nat>) returns (r: Outcome)
      requires Posed(p) && Viable(p, picks) && index == |picks| < |p.deps| && Combined(p, picks) == Some(lock)
      requires k < |p.candidates[index]| && attempts <= p.limits.attempts
      modifies this
      ensures r.Exceeded? <==> old(attempts) + Cost(p, picks + [k]) > p.limits.attempts
      ensures !r.Exceeded? ==> attempts == old(attempts) + Cost(p, picks + [k])
      ensures r.NotFound? ==> !HasSolution(p, picks + [k])
      ensures r.Found? ==> FoundFirst(p, picks + [k], r.lock) && HasSolution(p, picks + [k])
      decreases |p.deps| - index, 0
    {
      ghost var next := picks + [k];
      assert next[..index] == picks && Picks(p, next) && Picked(p, next, index) == p.candidates[index][k];
      var merged := MergeChoice(lock, p.deps[index], p.candidates[index][k], index);
      assert merged == Combined(p, next);
      if merged.None? {
        NotViableNoSolution(p, next);
        return NotFound;
      }
      var verdict := ValidateLock(p.sv, merged.value, p.root, p.limits);
      if verdict.Conflict? {
        NotViableNoSolution(p, next);
        return NotFound;
      }
      r := Explore(index + 1, merged.value, next);
      if r.Found? {
        FirstIsSolution(p, next, r.lock);
      }
    }
  }

  /** The search from the empty lock gives the outcome that the problem determines. */
  method SearchAll(p: Problem) returns (r: Outcome)
    requires Posed(p)
    ensures r == Resolution(p)
  {
    var search := new Search(p);
    r := search.Explore(0, EMPTY, []);
    if r.Found? {
      ghost var s :| First(p, [], s) && Combined(p, s) == Some(r.lock);
      ResolutionFound(p, s);
    }
  }

  lemma ResolutionFound(p: Problem, s: seq<nat>)
    requires Posed(p) && First(p, [], s) && Visits(p, []) <= p.limits.attempts
    ensures Resolution(p) == Found(Combined(p, s).value)
  {
    assert HasSolution(p, []);
    forall t | First(p, [], t) ensures t == s { FirstUnique(p, [], s, t); }
  }
}
