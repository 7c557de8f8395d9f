/** What every run of the OAuth operations keeps: linear families, shrinking grants,
    and the permanence of a family's death. */
module TokenFamilies {
  import opened Sequences
  import opened OAuthTokens

  datatype Op =
    | IssuesCode(secret: string, id: string, request: CodeRequest, now: int)
    | Redeems(exchange: CodeExchange, clock: Clock, random: Fresh)
    | Refreshes(refresh: RefreshExchange, clock: Clock, random: Fresh)
    | Revokes(secret: string, clientId: string, now: int)

  function Step(rt: Runtime, s: Store, op: Op): Store {
    match op
    case IssuesCode(secret, id, q, now) => IssueCode(rt, s, secret, id, q, now)
    case Redeems(q, t, f) => Redeem(rt, s, q, t, f)
    case Refreshes(q, t, f) => Rotate(rt, s, q, t, f)
    case Revokes(secret, clientId, now) => Revoke(s, secret, clientId, now)
  }

  /** The random source yields nothing seen before. */
  ghost predicate Possible(s: Store, op: Op) {
    match op
    case IssuesCode(secret, _, _, _) => secret !in s.codes
    case Redeems(_, t, f) => IsFresh(s, f) && Ticking(t)
    case Refreshes(_, t, f) => IsFresh(s, f) && Ticking(t)
    case Revokes(_, _, _) => true
  }

  function Run(rt: Runtime, s: Store, ops: seq<Op>): Store
    decreases |ops|
  {
    if ops == [] then s else Run(rt, Step(rt, s, ops[0]), ops[1..])
  }

  ghost predicate PossibleRun(rt: Runtime, s: Store, ops: seq<Op>)
    decreases |ops|
  {
    ops == [] || (Possible(s, ops[0]) && PossibleRun(rt, Step(rt, s, ops[0]), ops[1..]))
  }

  const NOTHING := Store(map[], map[], map[])

  // ---- The families of a run -------------------------------------------------------------

  /** Each family's refresh secrets, oldest first, and the code that started it. */
  datatype Ledger = Ledger(chains: map<string, seq<string>>, origin: map<string, string>)

  /** The i-th token of a family: it names its predecessor as parent, it is consumed just
      when it has a successor, and its grant is the first one's but for fewer scopes. */
  ghost predicate Link(s: Store, family: string, chain: seq<string>, i: nat)
    requires i < |chain|
  {
    && chain[0] in s.refresh && chain[i] in s.refresh && (0 < i ==> chain[i - 1] in s.refresh)
    && var r := s.refresh[chain[i]];
       && r.familyId == family && SameGrant(s.refresh[chain[0]], r)
       && r.parentId == (if i == 0 then None else Some(s.refresh[chain[i - 1]].id))
       && (r.consumedAt.Some? <==> i < |chain| - 1)
       && (0 < i ==> Subset(r.scopes, s.refresh[chain[i - 1]].scopes))
  }

  ghost predicate ChainOk(s: Store, family: string, chain: seq<string>) {
    chain != [] && Distinct(chain) &&
    forall i {:trigger Link(s, family, chain, i)} :: 0 <= i < |chain| ==> Link(s, family, chain, i)
  }

  ghost predicate SameGrant(a: Refresh, b: Refresh) {
    a.userId == b.userId && a.clientId == b.clientId && a.resource == b.resource && a.expiresAt == b.expiresAt
  }

  ghost predicate Subset(xs: seq<string>, ys: seq<string>) { forall x :: x in xs ==> x in ys }

  /** An access token carries the subject of its family and no scope beyond the first grant. */
  ghost predicate AccessOk(rt: Runtime, s: Store, l: Ledger, k: string)
    requires k in s.access
  {
    var a := s.access[k];
    && a.familyId in l.chains && l.chains[a.familyId] != [] && l.chains[a.familyId][0] in s.refresh
    && a.expiresAt == a.createdAt + rt.accessTtl
    && var first := s.refresh[l.chains[a.familyId][0]];
       a.userId == first.userId && a.clientId == first.clientId && a.resource == first.resource &&
         Subset(a.scopes, first.scopes)
  }

  ghost predicate Chains(s: Store, l: Ledger) {
    forall f {:trigger ChainOk(s, f, l.chains[f])} :: f in l.chains ==> ChainOk(s, f, l.chains[f])
  }

  ghost predicate InItsChain(s: Store, l: Ledger, k: string)
    requires k in s.refresh
  {
    s.refresh[k].familyId in l.chains && k in l.chains[s.refresh[k].familyId]
  }

  ghost predicate Placed(s: Store, l: Ledger) {
    forall k {:trigger InItsChain(s, l, k)} :: k in s.refresh ==> InItsChain(s, l, k)
  }

  ghost predicate OneRowPerId(s: Store) {
    forall j, k :: j in s.refresh && k in s.refresh && s.refresh[j].id == s.refresh[k].id ==> j == k
  }

  ghost predicate AllAccess(rt: Runtime, s: Store, l: Ledger) {
    forall k {:trigger AccessOk(rt, s, l, k)} :: k in s.access ==> AccessOk(rt, s, l, k)
  }

  /** Each family was started by a consumed code, and no code started two. */
  ghost predicate Origins(s: Store, l: Ledger) {
    && l.origin.Keys == l.chains.Keys
    && (forall f :: f in l.origin ==> l.origin[f] in s.codes && s.codes[l.origin[f]].consumedAt.Some?)
    && (forall f, g :: f in l.origin && g in l.origin && l.origin[f] == l.origin[g] ==> f == g)
  }

  ghost predicate Families(rt: Runtime, s: Store, l: Ledger) {
    Chains(s, l) && Placed(s, l) && OneRowPerId(s) && AllAccess(rt, s, l) && Origins(s, l)
  }

  function Record(rt: Runtime, s: Store, l: Ledger, op: Op): Ledger {
    match op
    case Redeems(q, t, f) =>
      if Verifier(q.verifier) && Redeemable(rt, s, q, t.check)
      then Ledger(l.chains[f.familyId := [f.refreshSecret]], l.origin[f.familyId := q.code]) else l
    case Refreshes(q, t, f) =>
      if Judge(rt, s, q, t.check).None? && s.refresh[q.token].familyId in l.chains
      then
        var family := s.refresh[q.token].familyId;
        l.(chains := l.chains[family := l.chains[family] + [f.refreshSecret]])
      else l
    case _ => l
  }

  // ---- Each operation keeps the families ------------------------------------------------------

  /** Nothing changes in the token tables but revocation marks, and no code is forgotten. */
  ghost predicate OnlyRevoked(s: Store, s': Store) {
    && s'.refresh.Keys == s.refresh.Keys && s'.access.Keys == s.access.Keys
    && (forall k :: k in s.refresh ==> s'.refresh[k] == s.refresh[k].(revokedAt := s'.refresh[k].revokedAt))
    && (forall k :: k in s.access ==> s'.access[k] == s.access[k].(revokedAt := s'.access[k].revokedAt))
    && (forall c :: c in s.codes && s.codes[c].consumedAt.Some? ==> c in s'.codes && s'.codes[c].consumedAt.Some?)
  }

  /** A chain looks the same in two stores that agree on it. */
  lemma ChainCarried(s: Store, s': Store, family: string, chain: seq<string>)
    requires ChainOk(s, family, chain)
    requires forall k :: k in chain && k in s.refresh ==>
      k in s'.refresh && s'.refresh[k].(revokedAt := s.refresh[k].revokedAt) == s.refresh[k]
    ensures ChainOk(s', family, chain)
  {
    forall i | 0 <= i < |chain| ensures Link(s', family, chain, i) {
      assert Link(s, family, chain, i);
      assert chain[0] in chain && chain[i] in chain && (0 < i ==> chain[i - 1] in chain);
    }
  }

  lemma RevocationKeeps(rt: Runtime, s: Store, s': Store, l: Ledger)
    requires Families(rt, s, l) && OnlyRevoked(s, s')
    ensures Families(rt, s', l)
  {
    forall f | f in l.chains ensures ChainOk(s', f, l.chains[f]) {
      assert ChainOk(s, f, l.chains[f]);
      ChainCarried(s, s', f, l.chains[f]);
    }
    forall k | k in s'.refresh ensures InItsChain(s', l, k) {
      assert InItsChain(s, l, k);
    }
    forall k | k in s'.access ensures AccessOk(rt, s', l, k) {
      assert AccessOk(rt, s, l, k);
    }
  }

  lemma ChainMembers(s: Store, family: string, chain: seq<string>)
    requires ChainOk(s, family, chain)
    ensures chain[0] in chain
    ensures forall k :: k in chain ==> k in s.refresh && s.refresh[k].familyId == family
  {
    forall k | k in chain ensures k in s.refresh && s.refresh[k].familyId == family {
      var i :| 0 <= i < |chain| && chain[i] == k;
      assert Link(s, family, chain, i);
    }
  }

  /** A fresh family id names no family yet. */
  lemma NewFamily(s: Store, l: Ledger, f: Fresh)
    requires Chains(s, l) && IsFresh(s, f)
    ensures f.familyId !in l.chains
  {
    if f.familyId in l.chains {
      ChainMembers(s, f.familyId, l.chains[f.familyId]);
    }
  }

  lemma NotInOtherChains(s: Store, l: Ledger, g: string, k: string)
    requires Chains(s, l) && g in l.chains && (k in s.refresh ==> s.refresh[k].familyId != g)
    ensures k !in l.chains[g]
  {
    ChainMembers(s, g, l.chains[g]);
  }

  /** Redeeming a code adds one family of one token. */
  lemma RedeemKeeps(rt: Runtime, s: Store, l: Ledger, q: CodeExchange, t: Clock, f: Fresh)
    requires Families(rt, s, l) && IsFresh(s, f) && Verifier(q.verifier) && Redeemable(rt, s, q, t.check)
    ensures Families(rt, Redeem(rt, s, q, t, f), Record(rt, s, l, Redeems(q, t, f)))
  {
    var s', l' := Redeem(rt, s, q, t, f), Record(rt, s, l, Redeems(q, t, f));
    NewFamily(s, l, f);
    forall g | g in l'.chains ensures ChainOk(s', g, l'.chains[g]) {
      if g != f.familyId {
        assert ChainOk(s, g, l.chains[g]);
        NotInOtherChains(s, l, g, f.refreshSecret);
        ChainCarried(s, s', g, l.chains[g]);
      } else {
        assert Link(s', g, [f.refreshSecret], 0);
      }
    }
    RedeemTokens(rt, s, l, q, t, f);
  }

  lemma RedeemTokens(rt: Runtime, s: Store, l: Ledger, q: CodeExchange, t: Clock, f: Fresh)
    requires Families(rt, s, l) && IsFresh(s, f) && Verifier(q.verifier) && Redeemable(rt, s, q, t.check)
    requires f.familyId !in l.chains
    ensures Placed(Redeem(rt, s, q, t, f), Record(rt, s, l, Redeems(q, t, f)))
    ensures OneRowPerId(Redeem(rt, s, q, t, f))
    ensures AllAccess(rt, Redeem(rt, s, q, t, f), Record(rt, s, l, Redeems(q, t, f)))
  {
    var s', l' := Redeem(rt, s, q, t, f), Record(rt, s, l, Redeems(q, t, f));
    forall k | k in s'.refresh ensures InItsChain(s', l', k) {
      if k != f.refreshSecret {
        assert InItsChain(s, l, k);
      }
    }
    forall k | k in s'.access ensures AccessOk(rt, s', l', k) {
      if k != f.accessSecret {
        assert AccessOk(rt, s, l, k);
      }
    }
  }

  /** The token that may be exchanged is the last of its chain. */
  lemma UnconsumedIsLast(s: Store, l: Ledger, k: string)
    requires Chains(s, l) && Placed(s, l) && k in s.refresh && s.refresh[k].consumedAt.None?
    ensures s.refresh[k].familyId in l.chains && ChainOk(s, s.refresh[k].familyId, l.chains[s.refresh[k].familyId])
    ensures var chain := l.chains[s.refresh[k].familyId]; chain[|chain| - 1] == k
  {
    assert InItsChain(s, l, k);
    var chain := l.chains[s.refresh[k].familyId];
    assert ChainOk(s, s.refresh[k].familyId, chain);
    var i :| 0 <= i < |chain| && chain[i] == k;
    assert Link(s, s.refresh[k].familyId, chain, i);
  }

  /** Scopes only shrink along a chain. */
  lemma {:induction false} ScopesShrink(s: Store, family: string, chain: seq<string>, i: nat, j: nat)
    requires ChainOk(s, family, chain) && i <= j < |chain|
    ensures chain[i] in s.refresh && chain[j] in s.refresh &&
      Subset(s.refresh[chain[j]].scopes, s.refresh[chain[i]].scopes)
    decreases j
  {
    assert Link(s, family, chain, j);
    if i < j {
      ScopesShrink(s, family, chain, i, j - 1);
    }
  }

  lemma ChainExtended(rt: Runtime, s: Store, chain: seq<string>, q: RefreshExchange, t: Clock, f: Fresh)
    requires IsFresh(s, f) && Judge(rt, s, q, t.check).None?
    requires ChainOk(s, s.refresh[q.token].familyId, chain) && chain[|chain| - 1] == q.token
    ensures ChainOk(Rotate(rt, s, q, t, f), s.refresh[q.token].familyId, chain + [f.refreshSecret])
  {
    var s', family, n := Rotate(rt, s, q, t, f), s.refresh[q.token].familyId, |chain|;
    var more := chain + [f.refreshSecret];
    ReducedScopesShrink(q.scope, s.refresh[q.token].scopes);
    assert s'.refresh == s.refresh[q.token := s.refresh[q.token].(consumedAt := Some(t.consume))]
      [f.refreshSecret := NewRefresh(rt,
        NextSubject(s.refresh[q.token], ReducedScopes(q.scope, s.refresh[q.token].scopes).value), t.issue, f)];
    forall i | 0 <= i < |more| ensures Link(s', family, more, i) {
      assert Link(s, family, chain, 0) && Link(s, family, chain, n - 1);
      if i < n {
        assert Link(s, family, chain, i);
      }
    }
    assert f.refreshSecret !in chain by {
      forall i | 0 <= i < n ensures chain[i] != f.refreshSecret { assert Link(s, family, chain, i); }
    }
  }

  lemma RotateChains(rt: Runtime, s: Store, l: Ledger, q: RefreshExchange, t: Clock, f: Fresh)
    requires Families(rt, s, l) && IsFresh(s, f) && Judge(rt, s, q, t.check).None?
    ensures Chains(Rotate(rt, s, q, t, f), Record(rt, s, l, Refreshes(q, t, f)))
    ensures Placed(Rotate(rt, s, q, t, f), Record(rt, s, l, Refreshes(q, t, f)))
  {
    var s', l' := Rotate(rt, s, q, t, f), Record(rt, s, l, Refreshes(q, t, f));
    var family := s.refresh[q.token].familyId;
    UnconsumedIsLast(s, l, q.token);
    forall g | g in l'.chains ensures ChainOk(s', g, l'.chains[g]) {
      if g == family {
        ChainExtended(rt, s, l.chains[family], q, t, f);
      } else {
        assert ChainOk(s, g, l.chains[g]);
        NotInOtherChains(s, l, g, q.token);
        NotInOtherChains(s, l, g, f.refreshSecret);
        ChainCarried(s, s', g, l.chains[g]);
      }
    }
    forall k | k in s'.refresh ensures InItsChain(s', l', k) {
      if k != f.refreshSecret {
        assert InItsChain(s, l, k);
      }
    }
  }

  lemma GrantBelowFirst(s: Store, family: string, chain: seq<string>)
    requires ChainOk(s, family, chain)
    ensures var last := chain[|chain| - 1];
      chain[0] in s.refresh && last in s.refresh && SameGrant(s.refresh[chain[0]], s.refresh[last]) &&
      Subset(s.refresh[last].scopes, s.refresh[chain[0]].scopes)
  {
    assert Link(s, family, chain, |chain| - 1);
    ScopesShrink(s, family, chain, 0, |chain| - 1);
  }

  /** The pair issued in a rotation stays within the first grant of its family. */
  lemma RotatedAccess(rt: Runtime, s: Store, l: Ledger, q: RefreshExchange, t: Clock, f: Fresh)
    requires Families(rt, s, l) && IsFresh(s, f) && Judge(rt, s, q, t.check).None?
    ensures f.accessSecret in Rotate(rt, s, q, t, f).access
    ensures AccessOk(rt, Rotate(rt, s, q, t, f), Record(rt, s, l, Refreshes(q, t, f)), f.accessSecret)
  {
    var family := s.refresh[q.token].familyId;
    UnconsumedIsLast(s, l, q.token);
    GrantBelowFirst(s, family, l.chains[family]);
    ReducedScopesShrink(q.scope, s.refresh[q.token].scopes);
  }

  lemma RotateAccess(rt: Runtime, s: Store, l: Ledger, q: RefreshExchange, t: Clock, f: Fresh)
    requires Families(rt, s, l) && IsFresh(s, f) && Judge(rt, s, q, t.check).None?
    ensures AllAccess(rt, Rotate(rt, s, q, t, f), Record(rt, s, l, Refreshes(q, t, f)))
  {
    var s', l' := Rotate(rt, s, q, t, f), Record(rt, s, l, Refreshes(q, t, f));
    RotatedAccess(rt, s, l, q, t, f);
    forall k | k in s'.access ensures AccessOk(rt, s', l', k) {
      if k != f.accessSecret {
        assert AccessOk(rt, s, l, k);
      }
    }
  }

  /** Rotating a refresh token adds one link to its family. */
  lemma RotateKeeps(rt: Runtime, s: Store, l: Ledger, q: RefreshExchange, t: Clock, f: Fresh)
    requires Families(rt, s, l) && IsFresh(s, f) && Judge(rt, s, q, t.check).None?
    ensures Families(rt, Rotate(rt, s, q, t, f), Record(rt, s, l, Refreshes(q, t, f)))
  {
    RotateChains(rt, s, l, q, t, f);
    RotateAccess(rt, s, l, q, t, f);
    UnconsumedIsLast(s, l, q.token);
  }

  lemma RevokeMarks(s: Store, secret: string, clientId: string, now: int)
    ensures OnlyRevoked(s, Revoke(s, secret, clientId, now))
  {
  }

  /** The steps that issue no tokens. */
  ghost predicate Quiet(rt: Runtime, s: Store, op: Op) {
    && (op.Redeems? ==> !(Verifier(op.exchange.verifier) && Redeemable(rt, s, op.exchange, op.clock.check)))
    && (op.Refreshes? ==> Judge(rt, s, op.refresh, op.clock.check).Some?)
  }

  /** They leave only revocation marks and codes behind. */
  lemma QuietMarks(rt: Runtime, s: Store, op: Op)
    requires Possible(s, op) && Quiet(rt, s, op)
    ensures OnlyRevoked(s, Step(rt, s, op))
  {
    match op {
      case IssuesCode(_, _, _, _) =>
      case Redeems(_, _, _) =>
      case Refreshes(_, _, _) =>
      case Revokes(secret, clientId, now) => RevokeMarks(s, secret, clientId, now);
    }
  }

  /** One step keeps the families. */
  lemma StepKeeps(rt: Runtime, s: Store, l: Ledger, op: Op)
    requires Families(rt, s, l) && Possible(s, op)
    ensures Families(rt, Step(rt, s, op), Record(rt, s, l, op))
  {
    if op.Redeems? && Verifier(op.exchange.verifier) && Redeemable(rt, s, op.exchange, op.clock.check) {
      RedeemKeeps(rt, s, l, op.exchange, op.clock, op.random);
    } else if op.Refreshes? && Judge(rt, s, op.refresh, op.clock.check).None? {
      RotateKeeps(rt, s, l, op.refresh, op.clock, op.random);
    } else {
      QuietMarks(rt, s, op);
      RevocationKeeps(rt, s, Step(rt, s, op), l);
    }
  }

  /** In every reachable state the tokens form families. */
  lemma {:induction false} RunKeeps(rt: Runtime, s: Store, l: Ledger, ops: seq<Op>) returns (l': Ledger)
    requires Families(rt, s, l) && PossibleRun(rt, s, ops)
    ensures Families(rt, Run(rt, s, ops), l')
    decreases |ops|
  {
    if ops == [] {
      l' := l;
    } else {
      StepKeeps(rt, s, l, ops[0]);
      l' := RunKeeps(rt, Step(rt, s, ops[0]), Record(rt, s, l, ops[0]), ops[1..]);
    }
  }
}
