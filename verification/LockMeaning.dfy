/** What a valid lock is, in the fields of its rows and the positions where they stand. */
module LockMeaning {
  import opened Sequences
  import opened Locks

  // ---- Words and digests ------------------------------------------------------------------

  ghost predicate Word(w: string) { w != [] && forall c :: c in w ==> 'a' <= c <= 'z' || '0' <= c <= '9' }

  function Joined(words: seq<string>): string
    requires words != []
    decreases |words|
  {
    if |words| == 1 then words[0] else words[0] + "-" + Joined(words[1..])
  }

  ghost predicate Words(s: string, words: seq<string>) {
    words != [] && (forall w :: w in words ==> Word(w)) && s == Joined(words)
  }

  /** Dash-separated text whose ends and dashes are as a selector's. */
  ghost predicate Dashed(s: string) {
    s != [] && SelectorChar(s[0]) && SelectorChar(s[|s| - 1]) &&
    (forall i :: 0 <= i < |s| ==> SelectorChar(s[i]) || s[i] == '-') &&
    (forall i :: 0 <= i < |s| - 1 ==> s[i] != '-' || s[i + 1] != '-')
  }

  /** The first word and the rest. */
  lemma {:induction false} SplitWords(s: string) returns (words: seq<string>)
    requires Dashed(s)
    ensures Words(s, words)
    decreases |s|
  {
    if k :| 0 <= k < |s| && s[k] == '-' && forall i :: 0 <= i < k ==> s[i] != '-' {
      var rest := s[k + 1..];
      assert rest[|rest| - 1] == s[|s| - 1];
      var more := SplitWords(rest);
      words := [s[..k]] + more;
      assert words[1..] == more && s == s[..k] + "-" + rest;
    } else {
      NoDash(s);
      words := [s];
    }
  }

  lemma {:induction false} NoDash(s: string)
    requires !exists k :: 0 <= k < |s| && s[k] == '-' && forall i :: 0 <= i < k ==> s[i] != '-'
    ensures '-' !in s
  {
    var n := 0;
    while n < |s|
      invariant 0 <= n <= |s| && forall i :: 0 <= i < n ==> s[i] != '-'
    {
      n := n + 1;
    }
  }

  lemma WordThenDashed(w: string, rest: string)
    requires Word(w) && Dashed(rest)
    ensures Dashed(w + "-" + rest)
  {
    var s := w + "-" + rest;
    forall i | 0 <= i < |s|
      ensures SelectorChar(s[i]) || s[i] == '-'
      ensures i < |s| - 1 ==> s[i] != '-' || s[i + 1] != '-'
    {
      if i < |w| { assert s[i] == w[i] && w[i] in w; }
      if |w| < i { assert s[i] == rest[i - |w| - 1]; }
      if |w| < i < |s| - 1 { assert s[i + 1] == rest[i - |w|]; }
    }
    assert s[0] == w[0] && w[0] in w && s[|s| - 1] == rest[|rest| - 1];
  }

  lemma {:induction false} JoinDashed(words: seq<string>)
    requires words != [] && forall w :: w in words ==> Word(w)
    ensures Dashed(Joined(words))
    decreases |words|
  {
    var w := words[0];
    assert Word(w);
    if |words| == 1 {
      assert forall i :: 0 <= i < |w| ==> w[i] in w;
    } else {
      assert forall v :: v in words[1..] ==> v in words;
      JoinDashed(words[1..]);
      WordThenDashed(w, Joined(words[1..]));
    }
  }

  /** A selector is words of lower-case letters and digits with single hyphens between them. */
  lemma SelectorExactly(s: string)
    ensures Selector(s) <==> |s| <= 120 && exists words :: Words(s, words)
  {
    if Selector(s) {
      assert forall i :: 0 <= i < |s| ==> s[i] in s;
      var words := SplitWords(s);
    }
    if |s| <= 120 {
      if words :| Words(s, words) {
        JoinDashed(words);
        assert forall c :: c in s ==> exists i :: 0 <= i < |s| && s[i] == c;
      }
    }
  }

  ghost predicate Hex(h: string) {
    |h| == 64 && forall i :: 0 <= i < 64 ==> '0' <= h[i] <= '9' || 'a' <= h[i] <= 'f'
  }

  /** A digest is sha256: and sixty-four lower-case hexadecimal digits. */
  lemma DigestExactly(s: string)
    ensures Digest(s) <==> exists h :: Hex(h) && s == "sha256:" + h
  {
    if Digest(s) {
      var h := s[7..];
      assert Hex(h) && s == "sha256:" + h;
    }
    if h :| Hex(h) && s == "sha256:" + h {
      assert s[..7] == "sha256:";
      forall i | 7 <= i < 71 ensures '0' <= s[i] <= '9' || 'a' <= s[i] <= 'f' { assert s[i] == h[i - 7]; }
    }
  }

  // ---- Nodes --------------------------------------------------------------------------------

  function TotalBytes(nodes: seq<Node>): int
    decreases |nodes|
  {
    if nodes == [] then 0 else TotalBytes(nodes[..|nodes| - 1]) + nodes[|nodes| - 1].expandedBytes
  }

  lemma {:induction false} TotalIsSum(nodes: seq<Node>)
    ensures Sum(Sizes(nodes)) == TotalBytes(nodes)
    decreases |nodes|
  {
    if nodes != [] {
      var init, n := nodes[..|nodes| - 1], nodes[|nodes| - 1];
      TotalIsSum(init);
      SumAppend(Sizes(init), [n.expandedBytes]);
      assert Sizes(nodes) == Sizes(init) + [n.expandedBytes];
      assert Sum([n.expandedBytes]) == n.expandedBytes;
    }
  }

  ghost predicate PlainNode(sv: Semver, n: Node, root: Root) {
    && n.versionId != "" && n.workspaceId != "" && n.skillId != "" && n.workspace != "" && n.skill != ""
    && n.versionId != "$root" && n.workspace + "/" + n.skill != root.workspace + "/" + root.skill
    && sv.valid(n.semanticVersion) && Digest(n.digest) && Digest(n.closureDigest)
    && 0 <= n.expandedBytes <= 9007199254740991
  }

  ghost predicate PlainNodes(sv: Semver, nodes: seq<Node>, root: Root, limits: Limits) {
    && |nodes| <= limits.nodes && (forall n :: n in nodes ==> PlainNode(sv, n, root))
    && (forall i, j :: 0 <= i < j < |nodes| ==> nodes[i].versionId != nodes[j].versionId)
    && (forall i, j :: 0 <= i < j < |nodes| ==>
      nodes[i].workspace + "/" + nodes[i].skill != nodes[j].workspace + "/" + nodes[j].skill)
    && root.expandedBytes + TotalBytes(nodes) <= limits.expandedBytes
  }

  lemma InMap<T, K>(xs: seq<T>, f: T -> K, k: K)
    ensures k in Map(xs, f) <==> exists x :: x in xs && f(x) == k
  {
    if k in Map(xs, f) {
      var i :| 0 <= i < |xs| && Map(xs, f)[i] == k;
      assert xs[i] in xs;
    }
    if x :| x in xs && f(x) == k {
      var i :| 0 <= i < |xs| && xs[i] == x;
      assert Map(xs, f)[i] == k;
    }
  }

  lemma NodesArePlain(sv: Semver, nodes: seq<Node>, root: Root, limits: Limits)
    ensures (forall n :: n in nodes ==> NodeShape(sv, n)) && NodesOk(nodes, root, limits) <==>
      PlainNodes(sv, nodes, root, limits)
  {
    TotalIsSum(nodes);
    NodeKeysArePlain(nodes, root);
  }

  lemma NodeKeysArePlain(nodes: seq<Node>, root: Root)
    ensures NoDup(Ids(nodes)) <==> forall i, j :: 0 <= i < j < |nodes| ==> nodes[i].versionId != nodes[j].versionId
    ensures NoDup(Identities(nodes)) <==> forall i, j :: 0 <= i < j < |nodes| ==>
      nodes[i].workspace + "/" + nodes[i].skill != nodes[j].workspace + "/" + nodes[j].skill
    ensures ROOT in Ids(nodes) <==> exists n :: n in nodes && n.versionId == "$root"
    ensures root.Identity() in Identities(nodes) <==>
      exists n :: n in nodes && n.workspace + "/" + n.skill == root.workspace + "/" + root.skill
  {
    NodeKeys(nodes);
    NoDupPositions(Map(nodes, IdOfNode));
    NoDupPositions(Map(nodes, IdentityOf));
    InMap(nodes, IdOfNode, ROOT);
    InMap(nodes, IdentityOf, root.Identity());
    assert forall i :: 0 <= i < |nodes| ==> Map(nodes, IdOfNode)[i] == nodes[i].versionId;
    assert forall i :: 0 <= i < |nodes| ==> Map(nodes, IdentityOf)[i] == nodes[i].workspace + "/" + nodes[i].skill;
  }

  // ---- Edges --------------------------------------------------------------------------------

  ghost predicate PlainEdge(sv: Semver, nodes: seq<Node>, e: Edge) {
    && Selector(e.dep.alias) && Selector(e.dep.workspace) && Selector(e.dep.skill)
    && 1 <= |e.dep.version| <= 200 && sv.validRange(e.dep.version)
    && (e.dep.order != None ==> 0 <= e.dep.order.value <= 1000)
    && 0 <= e.ordinal <= 9007199254740991
    && (e.parent == "$root" || exists n :: n in nodes && n.versionId == e.parent)
    && exists n :: n in nodes && n.versionId == e.child && n.workspace == e.dep.workspace &&
         n.skill == e.dep.skill && sv.satisfies(n.semanticVersion, e.dep.version)
  }

  lemma EdgeIsPlain(sv: Semver, nodes: seq<Node>, e: Edge)
    requires forall n :: n in nodes ==> n.versionId != ""
    ensures EdgeShape(e) && EdgeOk(sv, nodes, e) && (e.parent == ROOT || e.parent in Ids(nodes)) <==>
      PlainEdge(sv, nodes, e)
  {
    NodeKeys(nodes);
    InMap(nodes, IdOfNode, e.parent);
    if PlainEdge(sv, nodes, e) {
      var n :| n in nodes && n.versionId == e.child && n.workspace == e.dep.workspace && n.skill == e.dep.skill &&
        sv.satisfies(n.semanticVersion, e.dep.version);
      assert Pins(sv, e, n);
    }
    if EdgeOk(sv, nodes, e) {
      var n :| n in nodes && Pins(sv, e, n);
    }
  }

  ghost function Positions(edges: seq<Edge>, parent: string): set<nat> {
    set i: nat | i < |edges| && edges[i].parent == parent
  }

  lemma {:induction false} OutFiltered(edges: seq<Edge>, parent: string)
    ensures Out(edges, parent) == Filter(edges, (e: Edge) => e.parent == parent)
  {
    if edges != [] { OutFiltered(edges[1..], parent); }
  }

  lemma LastPosition(edges: seq<Edge>, parent: string)
    requires edges != []
    ensures var k := |edges| - 1; var before := Positions(edges[..k], parent);
      Positions(edges, parent) == if edges[k].parent == parent then before + {k} else before
  {
  }

  lemma LastOut(edges: seq<Edge>, parent: string)
    requires edges != []
    ensures var k := |edges| - 1; var before := Out(edges[..k], parent);
      Out(edges, parent) == if edges[k].parent == parent then before + [edges[k]] else before
  {
    OutFiltered(edges, parent);
    OutFiltered(edges[..|edges| - 1], parent);
    FilterLast(edges, (e: Edge) => e.parent == parent);
  }

  lemma {:induction false} PositionsCount(edges: seq<Edge>, parent: string)
    ensures |Positions(edges, parent)| == |Out(edges, parent)|
    decreases |edges|
  {
    if edges == [] {
      assert Positions(edges, parent) == {};
    } else {
      PositionsCount(edges[..|edges| - 1], parent);
      LastPosition(edges, parent);
      LastOut(edges, parent);
    }
  }

  /** Two edges of one parent share neither alias nor ordinal. */
  ghost predicate Distinguished(edges: seq<Edge>) {
    forall i, j :: 0 <= i < j < |edges| && edges[i].parent == edges[j].parent ==>
      edges[i].dep.alias != edges[j].dep.alias && edges[i].ordinal != edges[j].ordinal
  }

  lemma KeysOfOut(edges: seq<Edge>, parent: string)
    requires Distinguished(edges)
    ensures NoDup(Aliases(Out(edges, parent))) && NoDup(Ordinals(Out(edges, parent)))
  {
    var out := Out(edges, parent);
    OutFiltered(edges, parent);
    var at := FilterSublist(edges, (e: Edge) => e.parent == parent);
    assert forall k :: 0 <= k < |out| ==> out[k] in out;
    EdgeKeys(out);
    NoDupPositions(Aliases(out));
    NoDupPositions(Ordinals(out));
    forall i, j | 0 <= i < j < |out|
      ensures Aliases(out)[i] != Aliases(out)[j] && Ordinals(out)[i] != Ordinals(out)[j]
    {
      assert out[i] == edges[at[i]] && out[j] == edges[at[j]] && at[i] < at[j];
    }
  }

  lemma OutDistinguishes(edges: seq<Edge>, i: nat, j: nat)
    requires i < j < |edges| && edges[i].parent == edges[j].parent
    requires NoDup(Aliases(Out(edges, edges[i].parent))) && NoDup(Ordinals(Out(edges, edges[i].parent)))
    ensures edges[i].dep.alias != edges[j].dep.alias && edges[i].ordinal != edges[j].ordinal
  {
    if edges[i] == edges[j] {
      OutCounts(edges, edges[i].parent, edges[i]);
      TwiceThere(edges, i, j);
      Repeated(Out(edges, edges[i].parent), edges[i]);
    } else {
      KeysDiffer(Out(edges, edges[i].parent), edges[i], edges[j]);
    }
  }

  lemma KeysDiffer(out: seq<Edge>, e: Edge, f: Edge)
    requires e in out && f in out && e != f && NoDup(Aliases(out)) && NoDup(Ordinals(out))
    ensures e.dep.alias != f.dep.alias && e.ordinal != f.ordinal
  {
    EdgeKeys(out);
    if AliasOf(e) == AliasOf(f) { KeyIsUnique(out, AliasOf, e, f); }
    if OrdinalOf(e) == OrdinalOf(f) { KeyIsUnique(out, OrdinalOf, e, f); }
  }

  lemma TwiceThere(edges: seq<Edge>, i: nat, j: nat)
    requires i < j < |edges| && edges[i] == edges[j]
    ensures 2 <= multiset(edges)[edges[i]]
  {
    assert edges == edges[..j] + edges[j..] && edges[..j][i] == edges[i] && edges[j..][0] == edges[i];
    assert multiset(edges) == multiset(edges[..j]) + multiset(edges[j..]);
  }

  lemma Repeated(out: seq<Edge>, e: Edge)
    requires 2 <= multiset(out)[e]
    ensures !NoDup(Aliases(out)) && !NoDup(Ordinals(out))
  {
    NoDupPositions(out);
    NoDupPositions(Aliases(out));
    NoDupPositions(Ordinals(out));
    var a, b :| 0 <= a < b < |out| && out[a] == out[b];
    assert Aliases(out)[a] == Aliases(out)[b] && Ordinals(out)[a] == Ordinals(out)[b];
  }

  lemma FanOutIsPlain(edges: seq<Edge>, fanOut: nat)
    ensures (forall p :: FanOutOk(edges, p, fanOut)) <==>
      Distinguished(edges) && forall p :: |Positions(edges, p)| <= fanOut
  {
    forall p ensures |Positions(edges, p)| == |Out(edges, p)| { PositionsCount(edges, p); }
    if Distinguished(edges) && forall p :: |Positions(edges, p)| <= fanOut {
      forall p ensures FanOutOk(edges, p, fanOut) { KeysOfOut(edges, p); }
    }
    if forall p :: FanOutOk(edges, p, fanOut) {
      forall i, j | 0 <= i < j < |edges| && edges[i].parent == edges[j].parent
        ensures edges[i].dep.alias != edges[j].dep.alias && edges[i].ordinal != edges[j].ordinal
      {
        assert FanOutOk(edges, edges[i].parent, fanOut);
        OutDistinguishes(edges, i, j);
      }
      forall p ensures |Positions(edges, p)| <= fanOut { assert FanOutOk(edges, p, fanOut); }
    }
  }

  // ---- The lock -----------------------------------------------------------------------------

  lemma EdgesArePlain(sv: Semver, lock: Lock, limits: Limits)
    requires forall n :: n in lock.nodes ==> n.versionId != ""
    ensures (forall e :: e in lock.edges ==> EdgeShape(e)) && EdgesOk(sv, lock, limits) <==>
      (forall e :: e in lock.edges ==> PlainEdge(sv, lock.nodes, e)) &&
      forall p :: FanOutOk(lock.edges, p, limits.fanOut)
  {
    forall e | e in lock.edges
      ensures EdgeShape(e) && EdgeOk(sv, lock.nodes, e) && (e.parent == ROOT || e.parent in Ids(lock.nodes)) <==>
        PlainEdge(sv, lock.nodes, e)
    {
      EdgeIsPlain(sv, lock.nodes, e);
    }
  }

  /** A valid lock, in the fields and positions of its rows. */
  lemma ValidExactly(sv: Semver, lock: Lock, root: Root, limits: Limits)
    ensures ValidLock(sv, lock, root, limits) <==>
      && lock.formatVersion == 1 && PlainNodes(sv, lock.nodes, root, limits)
      && (forall e :: e in lock.edges ==> PlainEdge(sv, lock.nodes, e))
      && Distinguished(lock.edges) && (forall p :: |Positions(lock.edges, p)| <= limits.fanOut)
      && Acyclic(lock.edges) && !HasWalk(lock.edges, "$root", limits.depth + 1) && AllReached(lock)
  {
    NodesArePlain(sv, lock.nodes, root, limits);
    FanOutIsPlain(lock.edges, limits.fanOut);
    if forall n :: n in lock.nodes ==> n.versionId != "" { EdgesArePlain(sv, lock, limits); }
  }
}
