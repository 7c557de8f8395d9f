/** What the families of every run mean for a client: one live token, permanent death,
    and a bound on how long a family can be used. */
module FamilyProperties {
  import opened Sequences
  import opened OAuthTokens
  import opened TokenFamilies

  // ---- One live refresh token -------------------------------------------------------------

  /** In every reachable state, whatever is asked and whenever, one token of a family at
      most can be exchanged. */
  lemma OneExchangeable(rt: Runtime, ops: seq<Op>, q1: RefreshExchange, now1: int, q2: RefreshExchange, now2: int)
    requires PossibleRun(rt, NOTHING, ops)
    requires var s := Run(rt, NOTHING, ops);
      Judge(rt, s, q1, now1).None? && Judge(rt, s, q2, now2).None? &&
      s.refresh[q1.token].familyId == s.refresh[q2.token].familyId
    ensures q1.token == q2.token
  {
    var s := Run(rt, NOTHING, ops);
    var l := RunKeeps(rt, NOTHING, Ledger(map[], map[]), ops);
    UnconsumedIsLast(s, l, q1.token);
    UnconsumedIsLast(s, l, q2.token);
  }

  /** A consumed code stays consumed and can never be redeemed again. */
  lemma {:induction false} CodeUsedOnce(rt: Runtime, s: Store, ops: seq<Op>, q: CodeExchange, now: int)
    requires q.code in s.codes && s.codes[q.code].consumedAt.Some? && PossibleRun(rt, s, ops)
    ensures !Redeemable(rt, Run(rt, s, ops), q, now)
    decreases |ops|
  {
    if ops != [] {
      CodeUsedOnce(rt, Step(rt, s, ops[0]), ops[1..], q, now);
    }
  }

  // ---- Death is permanent -------------------------------------------------------------------

  /** A family that exists and whose every token is revoked. */
  ghost predicate Dead(s: Store, family: string) {
    && (exists k :: k in s.refresh && s.refresh[k].familyId == family)
    && (forall k :: k in s.refresh && s.refresh[k].familyId == family ==> s.refresh[k].revokedAt.Some?)
    && (forall k :: k in s.access && s.access[k].familyId == family ==> s.access[k].revokedAt.Some?)
  }

  lemma RevokedIsDead(s: Store, token: string, at: int)
    requires token in s.refresh
    ensures Dead(RevokeFamily(s, s.refresh[token].familyId, at), s.refresh[token].familyId)
  {
    var s' := RevokeFamily(s, s.refresh[token].familyId, at);
    assert token in s'.refresh && s'.refresh[token].familyId == s.refresh[token].familyId;
  }

  /** Presenting a consumed refresh token kills its family. */
  lemma ReuseKills(rt: Runtime, s: Store, q: RefreshExchange, t: Clock, f: Fresh)
    requires q.allowed && q.token in s.refresh && s.refresh[q.token].consumedAt.Some?
    ensures Dead(Rotate(rt, s, q, t, f), s.refresh[q.token].familyId)
    ensures Judge(rt, s, q, t.check) == Some(ReuseDetected)
  {
    RevokedIsDead(s, q.token, t.check);
  }

  /** Revoking a refresh token by its own client kills its family; by another client it does nothing. */
  lemma RevocationKills(s: Store, token: string, clientId: string, now: int)
    requires token in s.refresh
    ensures s.refresh[token].clientId == clientId ==> Dead(Revoke(s, token, clientId, now), s.refresh[token].familyId)
    ensures s.refresh[token].clientId != clientId ==> Revoke(s, token, clientId, now) == s
  {
    RevokedIsDead(s, token, now);
  }

  /** Presenting a consumed token, or revoking one, spares every other family and every code. */
  lemma OtherFamiliesSpared(rt: Runtime, s: Store, q: RefreshExchange, t: Clock, f: Fresh, clientId: string, now: int)
    requires q.token in s.refresh
    ensures q.allowed && s.refresh[q.token].consumedAt != None ==>
      FamilyRevoked(s, Rotate(rt, s, q, t, f), s.refresh[q.token].familyId, t.check)
    ensures s.refresh[q.token].clientId == clientId ==>
      FamilyRevoked(s, Revoke(s, q.token, clientId, now), s.refresh[q.token].familyId, now)
  {
    RevocationSpares(s, s.refresh[q.token].familyId, t.check);
    RevocationSpares(s, s.refresh[q.token].familyId, now);
  }

  /** Revoking an access token by its own client ends that token alone; by another it does nothing. */
  lemma AccessRevoked(s: Store, secret: string, clientId: string, now: int, resource: string, scopes: seq<string>,
      users: set<string>, later: int)
    requires secret in s.access && secret !in s.refresh
    ensures var s' := Revoke(s, secret, clientId, now);
      if s.access[secret].clientId != clientId then s' == s
      else
        && !Accepts(s', secret, resource, scopes, users, later)
        && s'.codes == s.codes && s'.refresh == s.refresh && s'.access.Keys == s.access.Keys
        && forall k :: k in s.access && k != secret ==> s'.access[k] == s.access[k]
  {
  }

  lemma PairElsewhere(rt: Runtime, s: Store, u: Subject, at: int, f: Fresh, family: string)
    requires Dead(s, family) && IsFresh(s, f)
    requires (if u.lineage.Some? then u.lineage.value.familyId else f.familyId) != family
    ensures Dead(IssuePair(rt, s, u, at, f), family)
  {
    var s' := IssuePair(rt, s, u, at, f);
    var k :| k in s.refresh && s.refresh[k].familyId == family;
    assert k in s'.refresh && s'.refresh[k] == s.refresh[k];
  }

  lemma MarksKeepDead(s: Store, s': Store, family: string)
    requires Dead(s, family) && s'.refresh.Keys == s.refresh.Keys && s'.access.Keys == s.access.Keys
    requires forall k :: k in s.refresh ==>
      s'.refresh[k].familyId == s.refresh[k].familyId &&
        (s.refresh[k].revokedAt.Some? ==> s'.refresh[k].revokedAt.Some?)
    requires forall k :: k in s.access ==>
      s'.access[k].familyId == s.access[k].familyId && (s.access[k].revokedAt.Some? ==> s'.access[k].revokedAt.Some?)
    ensures Dead(s', family)
  {
    var k :| k in s.refresh && s.refresh[k].familyId == family;
    assert k in s'.refresh && s'.refresh[k].familyId == family;
  }

  lemma RotateKeepsDead(rt: Runtime, s: Store, q: RefreshExchange, t: Clock, f: Fresh, family: string)
    requires Dead(s, family) && IsFresh(s, f)
    ensures Dead(Rotate(rt, s, q, t, f), family)
  {
    if Judge(rt, s, q, t.check).None? {
      var r := s.refresh[q.token];
      assert r.familyId != family;
      var s1 := Consumed(s, q.token, t.consume);
      MarksKeepDead(s, s1, family);
      PairElsewhere(rt, s1, NextSubject(r, ReducedScopes(q.scope, r.scopes).value), t.issue, f, family);
    } else if Judge(rt, s, q, t.check) == Some(ReuseDetected) {
      MarksKeepDead(s, Rotate(rt, s, q, t, f), family);
    }
  }

  lemma RedeemKeepsDead(rt: Runtime, s: Store, q: CodeExchange, t: Clock, f: Fresh, family: string)
    requires Dead(s, family) && IsFresh(s, f)
    ensures Dead(Redeem(rt, s, q, t, f), family)
  {
    var k :| k in s.refresh && s.refresh[k].familyId == family;
    assert f.familyId != family;
    if Verifier(q.verifier) && Redeemable(rt, s, q, t.check) {
      var s1 := s.(codes := s.codes[q.code := s.codes[q.code].(consumedAt := Some(t.consume))]);
      MarksKeepDead(s, s1, family);
      PairElsewhere(rt, s1, FirstSubject(s.codes[q.code]), t.issue, f, family);
    }
  }

  lemma RevokeKeepsDead(s: Store, secret: string, clientId: string, now: int, family: string)
    requires Dead(s, family)
    ensures Dead(Revoke(s, secret, clientId, now), family)
  {
    MarksKeepDead(s, Revoke(s, secret, clientId, now), family);
  }

  lemma StepKeepsDead(rt: Runtime, s: Store, op: Op, family: string)
    requires Dead(s, family) && Possible(s, op)
    ensures Dead(Step(rt, s, op), family)
  {
    match op {
      case IssuesCode(_, _, _, _) => MarksKeepDead(s, Step(rt, s, op), family);
      case Redeems(q, t, f) => RedeemKeepsDead(rt, s, q, t, f, family);
      case Refreshes(q, t, f) => RotateKeepsDead(rt, s, q, t, f, family);
      case Revokes(secret, clientId, now) => RevokeKeepsDead(s, secret, clientId, now, family);
    }
  }

  lemma {:induction false} DeadForever(rt: Runtime, s: Store, ops: seq<Op>, family: string)
    requires Dead(s, family) && PossibleRun(rt, s, ops)
    ensures Dead(Run(rt, s, ops), family)
    decreases |ops|
  {
    if ops != [] {
      StepKeepsDead(rt, s, ops[0], family);
      DeadForever(rt, Step(rt, s, ops[0]), ops[1..], family);
    }
  }

  /** After the death of a family, in every continuation, no refresh token of it is ever
      exchanged and no access token of it ever verifies. */
  lemma DeathIsPermanent(rt: Runtime, s: Store, ops: seq<Op>, family: string)
    requires Dead(s, family) && PossibleRun(rt, s, ops)
    ensures var s' := Run(rt, s, ops);
      && (forall q: RefreshExchange, now: int :: q.token in s'.refresh && s'.refresh[q.token].familyId == family ==>
        Judge(rt, s', q, now).Some?)
      && (forall k, resource, scopes, users, now ::
            k in s'.access && s'.access[k].familyId == family ==> !Accepts(s', k, resource, scopes, users, now))
  {
    DeadForever(rt, s, ops, family);
  }

  // ---- How long a family lasts -----------------------------------------------------------------

  /** Every pair of the step is issued no later than the family's expiry. */
  ghost predicate Prompt(rt: Runtime, s: Store, op: Op) {
    op.Refreshes? && Judge(rt, s, op.refresh, op.clock.check).None? ==>
      op.clock.issue <= s.refresh[op.refresh.token].expiresAt
  }

  ghost predicate PromptRun(rt: Runtime, s: Store, ops: seq<Op>)
    decreases |ops|
  {
    ops == [] || (Prompt(rt, s, ops[0]) && PromptRun(rt, Step(rt, s, ops[0]), ops[1..]))
  }

  /** No access token outlives a refresh token of its family by more than one lifetime. */
  ghost predicate Bounded(rt: Runtime, s: Store) {
    forall a, r {:trigger s.access[a], s.refresh[r]} ::
      a in s.access && r in s.refresh && s.access[a].familyId == s.refresh[r].familyId ==>
        s.access[a].expiresAt <= s.refresh[r].expiresAt + rt.accessTtl
  }

  lemma SameExpiry(rt: Runtime, s: Store, l: Ledger, j: string, k: string)
    requires Chains(s, l) && Placed(s, l) && j in s.refresh && k in s.refresh
    requires s.refresh[j].familyId == s.refresh[k].familyId
    ensures s.refresh[j].expiresAt == s.refresh[k].expiresAt
  {
    var family := s.refresh[j].familyId;
    assert InItsChain(s, l, j) && InItsChain(s, l, k);
    var chain := l.chains[family];
    assert ChainOk(s, family, chain);
    var x :| 0 <= x < |chain| && chain[x] == j;
    var y :| 0 <= y < |chain| && chain[y] == k;
    assert Link(s, family, chain, x) && Link(s, family, chain, y);
  }

  /** One rotation: the new access token is never accepted at or after the bound exactly
      when it is issued no later than the family's expiry. */
  lemma RotationLifetime(rt: Runtime, s: Store, q: RefreshExchange, t: Clock, f: Fresh)
    requires Judge(rt, s, q, t.check).None? && IsFresh(s, f)
    requires "spo_" <= f.accessSecret && |f.accessSecret| <= 512
    ensures var s', bound := Rotate(rt, s, q, t, f), s.refresh[q.token].expiresAt + rt.accessTtl;
      ((forall users, now :: now >= bound ==> !Accepts(s', f.accessSecret, rt.resource, [], users, now)) <==>
       t.issue <= s.refresh[q.token].expiresAt)
  {
    var s', bound := Rotate(rt, s, q, t, f), s.refresh[q.token].expiresAt + rt.accessTtl;
    if t.issue > s.refresh[q.token].expiresAt {
      assert Accepts(s', f.accessSecret, rt.resource, [], {s.refresh[q.token].userId}, bound);
    }
  }

  lemma RotateBounded(rt: Runtime, s: Store, l: Ledger, q: RefreshExchange, t: Clock, f: Fresh)
    requires Families(rt, s, l) && Bounded(rt, s) && IsFresh(s, f) && Judge(rt, s, q, t.check).None?
    requires t.issue <= s.refresh[q.token].expiresAt
    ensures Bounded(rt, Rotate(rt, s, q, t, f))
  {
    var s' := Rotate(rt, s, q, t, f);
    var r0 := s.refresh[q.token];
    forall a, r | a in s'.access && r in s'.refresh && s'.access[a].familyId == s'.refresh[r].familyId
      ensures s'.access[a].expiresAt <= s'.refresh[r].expiresAt + rt.accessTtl
    {
      var was := if r == f.refreshSecret then q.token else r;
      assert s'.refresh[r].expiresAt == s.refresh[was].expiresAt && s'.refresh[r].familyId == s.refresh[was].familyId;
      if a == f.accessSecret {
        SameExpiry(rt, s, l, q.token, was);
      } else {
        assert s'.access[a] == s.access[a];
      }
    }
  }

  lemma RedeemBounded(rt: Runtime, s: Store, l: Ledger, q: CodeExchange, t: Clock, f: Fresh)
    requires Bounded(rt, s) && IsFresh(s, f)
    ensures Bounded(rt, Redeem(rt, s, q, t, f))
  {
  }

  lemma StepBounded(rt: Runtime, s: Store, l: Ledger, op: Op)
    requires Families(rt, s, l) && Bounded(rt, s) && Possible(s, op) && Prompt(rt, s, op)
    ensures Bounded(rt, Step(rt, s, op))
  {
    match op {
      case IssuesCode(_, _, _, _) =>
      case Redeems(q, t, f) => RedeemBounded(rt, s, l, q, t, f);
      case Refreshes(q, t, f) =>
        if Judge(rt, s, q, t.check).None? {
          RotateBounded(rt, s, l, q, t, f);
        }
      case Revokes(_, _, _) =>
    }
  }

  lemma {:induction false} RunBounded(rt: Runtime, s: Store, l: Ledger, ops: seq<Op>)
    requires Families(rt, s, l) && Bounded(rt, s) && PossibleRun(rt, s, ops) && PromptRun(rt, s, ops)
    ensures Bounded(rt, Run(rt, s, ops))
    decreases |ops|
  {
    if ops != [] {
      StepBounded(rt, s, l, ops[0]);
      StepKeeps(rt, s, l, ops[0]);
      RunBounded(rt, Step(rt, s, ops[0]), Record(rt, s, l, ops[0]), ops[1..]);
    }
  }

  /** When pairs are issued in time, no access token of a family is accepted at or after
      the family's expiry plus one access lifetime. */
  lemma FamilyLifetime(rt: Runtime, ops: seq<Op>, r: string, a: string, resource: string, scopes: seq<string>,
                       users: set<string>, now: int)
    requires PossibleRun(rt, NOTHING, ops) && PromptRun(rt, NOTHING, ops)
    requires var s := Run(rt, NOTHING, ops);
      r in s.refresh && a in s.access && s.access[a].familyId == s.refresh[r].familyId &&
      now >= s.refresh[r].expiresAt + rt.accessTtl
    ensures !Accepts(Run(rt, NOTHING, ops), a, resource, scopes, users, now)
  {
    RunBounded(rt, NOTHING, Ledger(map[], map[]), ops);
  }

  /** The bound holds in every state of the run. */
  ghost predicate BoundedThroughout(rt: Runtime, s: Store, ops: seq<Op>)
    decreases |ops|
  {
    Bounded(rt, s) && (ops == [] || BoundedThroughout(rt, Step(rt, s, ops[0]), ops[1..]))
  }

  lemma BoundedMeansPrompt(rt: Runtime, s: Store, op: Op)
    requires Possible(s, op) && Bounded(rt, Step(rt, s, op))
    ensures Prompt(rt, s, op)
  {
    if op.Refreshes? && Judge(rt, s, op.refresh, op.clock.check).None? {
      var s' := Step(rt, s, op);
      assert op.random.accessSecret in s'.access && op.random.refreshSecret in s'.refresh;
      var f := op.random;
      assert s'.access[f.accessSecret].expiresAt <= s'.refresh[f.refreshSecret].expiresAt + rt.accessTtl;
    }
  }

  lemma {:induction false} ThroughoutExactly(rt: Runtime, s: Store, l: Ledger, ops: seq<Op>)
    requires Families(rt, s, l) && Bounded(rt, s) && PossibleRun(rt, s, ops)
    ensures BoundedThroughout(rt, s, ops) <==> PromptRun(rt, s, ops)
    decreases |ops|
  {
    if ops != [] {
      if Prompt(rt, s, ops[0]) {
        StepBounded(rt, s, l, ops[0]);
        StepKeeps(rt, s, l, ops[0]);
        ThroughoutExactly(rt, Step(rt, s, ops[0]), Record(rt, s, l, ops[0]), ops[1..]);
      } else if BoundedThroughout(rt, s, ops) {
        assert BoundedThroughout(rt, Step(rt, s, ops[0]), ops[1..]);
        BoundedMeansPrompt(rt, s, ops[0]);
      }
    }
  }

  /** Over a whole run the bound holds in every state exactly when every pair was issued in time. */
  lemma BoundedExactlyWhenPrompt(rt: Runtime, ops: seq<Op>)
    requires PossibleRun(rt, NOTHING, ops)
    ensures BoundedThroughout(rt, NOTHING, ops) <==> PromptRun(rt, NOTHING, ops)
  {
    ThroughoutExactly(rt, NOTHING, Ledger(map[], map[]), ops);
  }

  // ---- A run that breaks the bound --------------------------------------------------------------

  const VERIFIER := "aaaaaaaaaaaaaaaaaaaaaaaaaaaaaaaaaaaaaaaaaaa"

  function Asking(rt: Runtime): CodeRequest {
    CodeRequest("user", "client", "uri", rt.resource, ["skills:read"], rt.sha256(VERIFIER))
  }

  function Asked(rt: Runtime): Store { IssueCode(rt, NOTHING, "spc_1", "oac_1", Asking(rt), 0) }

  const FIRST := Fresh("spo_1", "spr_1", "otf_1", "oat_1", "ort_1")
  const SECOND := Fresh("spo_2", "spr_2", "otf_2", "oat_2", "ort_2")

  function Redeeming(rt: Runtime): CodeExchange { CodeExchange("spc_1", "client", "uri", rt.resource, VERIFIER) }

  function Started(rt: Runtime): Store { Redeem(rt, Asked(rt), Redeeming(rt), Clock(0, 0, 0), FIRST) }

  const REFRESHING := RefreshExchange("spr_1", "client", None, None, true)

  /** Checked just before the expiry of the first refresh token, issued just after it. */
  function Straddling(rt: Runtime): Clock { Clock(rt.refreshTtl - 1, rt.refreshTtl, rt.refreshTtl + 1) }

  lemma StartedFamily(rt: Runtime)
    requires 0 < rt.codeTtl
    ensures var s := Started(rt);
      && s.refresh == map["spr_1" := Refresh("ort_1", "otf_1", None, "user", "client", rt.resource, ["skills:read"],
                                             rt.refreshTtl, 0, None, None)]
      && s.access == map["spo_1" := Access("oat_1", "otf_1", "user", "client", rt.resource, ["skills:read"],
                                           rt.accessTtl, 0, None)]
  {
    assert Verifier(VERIFIER);
    IssuedCodeWorks(rt, NOTHING, "spc_1", "oac_1", Asking(rt), 0, Redeeming(rt), Clock(0, 0, 0), FIRST);
  }

  lemma RefreshedLate(rt: Runtime)
    requires 0 < rt.codeTtl && 0 < rt.refreshTtl
    ensures IsFresh(Started(rt), SECOND) && Judge(rt, Started(rt), REFRESHING, rt.refreshTtl - 1).None?
    ensures var s := Rotate(rt, Started(rt), REFRESHING, Straddling(rt), SECOND);
      "spr_2" in s.refresh && "spo_2" in s.access && s.access["spo_2"].familyId == s.refresh["spr_2"].familyId &&
      Accepts(s, "spo_2", rt.resource, [], {"user"}, s.refresh["spr_2"].expiresAt + rt.accessTtl)
  {
    StartedFamily(rt);
    assert "spo_" <= "spo_2";
  }

  lemma Then(rt: Runtime, s: Store, op: Op, rest: seq<Op>)
    ensures Run(rt, s, [op] + rest) == Run(rt, Step(rt, s, op), rest)
    ensures PossibleRun(rt, s, [op] + rest) <==> Possible(s, op) && PossibleRun(rt, Step(rt, s, op), rest)
  {
    assert ([op] + rest)[1..] == rest;
  }

  /** The clock is read again when the pair is issued. If it passes the expiry between the
      check and the issue, the new access token outlives the bound. */
  lemma LateIssue(rt: Runtime) returns (ops: seq<Op>)
    requires 0 < rt.codeTtl && 0 < rt.refreshTtl
    ensures PossibleRun(rt, NOTHING, ops) && !PromptRun(rt, NOTHING, ops)
    ensures var s := Run(rt, NOTHING, ops);
      "spr_2" in s.refresh && "spo_2" in s.access && s.access["spo_2"].familyId == s.refresh["spr_2"].familyId &&
      Accepts(s, "spo_2", rt.resource, [], {"user"}, s.refresh["spr_2"].expiresAt + rt.accessTtl)
  {
    var o1 := IssuesCode("spc_1", "oac_1", Asking(rt), 0);
    var o2 := Redeems(Redeeming(rt), Clock(0, 0, 0), FIRST);
    var o3 := Refreshes(REFRESHING, Straddling(rt), SECOND);
    RefreshedLate(rt);
    Then(rt, Started(rt), o3, []);
    Then(rt, Asked(rt), o2, [o3] + []);
    Then(rt, NOTHING, o1, [o2] + ([o3] + []));
    ops := [o1] + ([o2] + ([o3] + []));
    if PromptRun(rt, NOTHING, ops) {
      RunBounded(rt, NOTHING, Ledger(map[], map[]), ops);
    }
  }
}
