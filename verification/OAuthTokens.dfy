/** The OAuth token tables and the operations on them. Every BEGIN..COMMIT block is one
    step; a keyed hash finds the row of exactly one secret, so rows are kept by secret. */
module OAuthTokens {
  import opened Sequences

  /** Times are milliseconds. */
  datatype Code = Code(
    id: string, userId: string, clientId: string, redirectUri: string, resource: string, scopes: seq<string>,
    challenge: string, expiresAt: int, consumedAt: Option<int>)

  datatype Access = Access(
    id: string, familyId: string, userId: string, clientId: string, resource: string, scopes: seq<string>,
    expiresAt: int, createdAt: int, revokedAt: Option<int>)

  datatype Refresh = Refresh(
    id: string, familyId: string, parentId: Option<string>, userId: string, clientId: string, resource: string,
    scopes: seq<string>, expiresAt: int, createdAt: int, consumedAt: Option<int>, revokedAt: Option<int>)

  datatype Store = Store(codes: map<string, Code>, access: map<string, Access>, refresh: map<string, Refresh>)

  /** sha256 is left uninterpreted. */
  datatype Runtime = Runtime(resource: string, codeTtl: nat, accessTtl: nat, refreshTtl: nat, sha256: string -> string)

  /** The instants at which one exchange reads the clock. */
  datatype Clock = Clock(check: int, consume: int, issue: int)

  ghost predicate Ticking(c: Clock) { c.check <= c.consume <= c.issue }

  /** What the random source yields during one exchange. */
  datatype Fresh = Fresh(accessSecret: string, refreshSecret: string, familyId: string, accessId: string,
    refreshId: string)

  const OAUTH_SCOPES: seq<string> := [
    "skills:read", "skills:write", "skills:amend", "skills:publish", "contexts:read", "contexts:write", "audit:read"]

  datatype Refusal =
    | RateLimited | UnknownGrant | ReuseDetected | RevokedGrant | ExpiredGrant | ClientMismatch | ResourceMismatch
    | InvalidScope | InvalidVerifier | InvalidCode

  datatype Reply = Issued(accessSecret: string, refreshSecret: string, scopes: seq<string>) | Refused(why: Refusal)

  // ---- Scopes ------------------------------------------------------------------------

  /** [...new Set(xs)] */
  function Unique(xs: seq<string>): seq<string> {
    if xs == [] then []
    else
      var init := Unique(xs[..|xs| - 1]);
      if xs[|xs| - 1] in init then init else init + [xs[|xs| - 1]]
  }

  lemma {:induction false} UniqueCorrect(xs: seq<string>)
    ensures NoDup(Unique(xs)) && forall x :: x in Unique(xs) <==> x in xs
  {
    if xs != [] {
      UniqueCorrect(xs[..|xs| - 1]);
      assert xs == xs[..|xs| - 1] + [xs[|xs| - 1]];
    }
  }

  /** reducedScopes; requested is the scope parameter split at spaces. */
  function ReducedScopes(requested: Option<seq<string>>, granted: seq<string>): Option<seq<string>> {
    if requested.None? then Some(granted)
    else
      var scopes := Unique(Filter(requested.value, (s: string) => s != ""));
      if |scopes| < 1 || |scopes| > 20 || exists s :: s in scopes && (s !in OAUTH_SCOPES || s !in granted) then None
      else Some(scopes)
  }

  /** A refresh never widens the grant, and it yields exactly what was asked for. */
  lemma ReducedScopesShrink(requested: Option<seq<string>>, granted: seq<string>)
    ensures ReducedScopes(requested, granted).Some? ==>
      forall s :: s in ReducedScopes(requested, granted).value ==> s in granted
    ensures requested.Some? && ReducedScopes(requested, granted).Some? ==>
      NoDup(ReducedScopes(requested, granted).value) &&
      forall s :: s in ReducedScopes(requested, granted).value <==> s in requested.value && s != ""
  {
    if requested.Some? {
      FilterMembers(requested.value, (s: string) => s != "");
      UniqueCorrect(Filter(requested.value, (s: string) => s != ""));
    }
  }

  const KNOWN := {"skills:read", "skills:write", "skills:amend", "skills:publish", "contexts:read", "contexts:write",
    "audit:read"}

  /** What may be asked for: nothing in particular, or one to twenty known scopes, all granted. */
  ghost predicate Grantable(requested: Option<seq<string>>, granted: seq<string>) {
    requested == None ||
    (1 <= |set x | x in requested.value && x != ""| <= 20 &&
     forall x :: x in requested.value && x != "" ==> x in granted && x in KNOWN)
  }

  /** What is granted: everything when nothing is asked for, and otherwise what is, if it may be. */
  lemma ReducedScopesExactly(requested: Option<seq<string>>, granted: seq<string>)
    ensures ReducedScopes(None, granted) == Some(granted)
    ensures ReducedScopes(requested, granted).Some? <==> Grantable(requested, granted)
  {
    if requested.Some? {
      var named := Filter(requested.value, (s: string) => s != "");
      FilterMembers(requested.value, (s: string) => s != "");
      UniqueCorrect(named);
      DistinctCount(Unique(named));
      assert Elements(Unique(named)) == (set x | x in requested.value && x != "");
    }
  }

  // ---- Steps as functions of the tables --------------------------------------------------

  /** COALESCE(revoked_at, at) */
  function Coalesce(revokedAt: Option<int>, at: int): Option<int> { if revokedAt.Some? then revokedAt else Some(at) }

  function RevokeFamily(s: Store, family: string, at: int): Store {
    Store(s.codes,
      map k | k in s.access :: if s.access[k].familyId == family
        then s.access[k].(revokedAt := Coalesce(s.access[k].revokedAt, at)) else s.access[k],
      map k | k in s.refresh :: if s.refresh[k].familyId == family
        then s.refresh[k].(revokedAt := Coalesce(s.refresh[k].revokedAt, at)) else s.refresh[k])
  }

  /** The subject of a token pair; lineage is absent for the first pair of a family. */
  datatype Lineage = Lineage(familyId: string, parentId: string, expiresAt: int)
  datatype Subject = Subject(userId: string, clientId: string, resource: string, scopes: seq<string>,
    lineage: Option<Lineage>)

  function NewAccess(rt: Runtime, u: Subject, at: int, f: Fresh): Access {
    Access(f.accessId, if u.lineage.Some? then u.lineage.value.familyId else f.familyId,
           u.userId, u.clientId, u.resource, u.scopes, at + rt.accessTtl, at, None)
  }

  function NewRefresh(rt: Runtime, u: Subject, at: int, f: Fresh): Refresh {
    if u.lineage.Some? then
      Refresh(f.refreshId, u.lineage.value.familyId, Some(u.lineage.value.parentId), u.userId, u.clientId, u.resource,
              u.scopes, u.lineage.value.expiresAt, at, None, None)
    else
      Refresh(f.refreshId, f.familyId, None, u.userId, u.clientId, u.resource, u.scopes, at + rt.refreshTtl, at, None,
        None)
  }

  function IssuePair(rt: Runtime, s: Store, u: Subject, at: int, f: Fresh): Store {
    Store(s.codes, s.access[f.accessSecret := NewAccess(rt, u, at, f)],
      s.refresh[f.refreshSecret := NewRefresh(rt, u, at, f)])
  }

  datatype CodeRequest = CodeRequest(
    userId: string, clientId: string, redirectUri: string, resource: string, scopes: seq<string>, challenge: string)

  function IssueCode(rt: Runtime, s: Store, secret: string, id: string, q: CodeRequest, now: int): Store {
    s.(codes := s.codes[secret :=
      Code(id, q.userId, q.clientId, q.redirectUri, q.resource, q.scopes, q.challenge, now + rt.codeTtl, None)])
  }

  datatype CodeExchange = CodeExchange(code: string, clientId: string, redirectUri: string, resource: string,
    verifier: string)

  predicate VerifierChar(c: char) {
    'A' <= c <= 'Z' || 'a' <= c <= 'z' || '0' <= c <= '9' || c in "._~-"
  }

  /** Section 4.1 of RFC 7636. */
  predicate Verifier(v: string) { 43 <= |v| <= 128 && forall c :: c in v ==> VerifierChar(c) }

  predicate Redeemable(rt: Runtime, s: Store, q: CodeExchange, now: int) {
    q.code in s.codes && s.codes[q.code].consumedAt.None? && now < s.codes[q.code].expiresAt &&
    s.codes[q.code].clientId == q.clientId && s.codes[q.code].redirectUri == q.redirectUri &&
    s.codes[q.code].resource == q.resource && s.codes[q.code].challenge == rt.sha256(q.verifier)
  }

  function FirstSubject(c: Code): Subject { Subject(c.userId, c.clientId, c.resource, c.scopes, None) }

  function Redeem(rt: Runtime, s: Store, q: CodeExchange, t: Clock, f: Fresh): Store {
    if Verifier(q.verifier) && Redeemable(rt, s, q, t.check) then
      IssuePair(rt, s.(codes := s.codes[q.code := s.codes[q.code].(consumedAt := Some(t.consume))]),
                FirstSubject(s.codes[q.code]), t.issue, f)
    else s
  }

  datatype RefreshExchange = RefreshExchange(
    token: string, clientId: string, resource: Option<string>, scope: Option<seq<string>>, allowed: bool)

  /** Why a refresh is refused, in the order of the checks; None when it is granted. */
  function Judge(rt: Runtime, s: Store, q: RefreshExchange, now: int): Option<Refusal> {
    if !q.allowed then Some(RateLimited)
    else if q.token !in s.refresh then Some(UnknownGrant)
    else
      var r := s.refresh[q.token];
      if r.consumedAt.Some? then Some(ReuseDetected)
      else if r.revokedAt.Some? then Some(RevokedGrant)
      else if r.expiresAt <= now then Some(ExpiredGrant)
      else if r.clientId != q.clientId then Some(ClientMismatch)
      else if r.resource != rt.resource || (q.resource.Some? && r.resource != q.resource.value) then
        Some(ResourceMismatch)
      else if ReducedScopes(q.scope, r.scopes).None? then Some(InvalidScope)
      else None
  }

  function NextSubject(r: Refresh, scopes: seq<string>): Subject {
    Subject(r.userId, r.clientId, r.resource, scopes, Some(Lineage(r.familyId, r.id, r.expiresAt)))
  }

  function Consumed(s: Store, token: string, at: int): Store
    requires token in s.refresh
  {
    s.(refresh := s.refresh[token := s.refresh[token].(consumedAt := Some(at))])
  }

  function Rotate(rt: Runtime, s: Store, q: RefreshExchange, t: Clock, f: Fresh): Store {
    match Judge(rt, s, q, t.check)
    case None =>
      var r := s.refresh[q.token];
      IssuePair(rt, Consumed(s, q.token, t.consume), NextSubject(r, ReducedScopes(q.scope, r.scopes).value), t.issue, f)
    case Some(ReuseDetected) => RevokeFamily(s, s.refresh[q.token].familyId, t.check)
    case Some(_) => s
  }

  function Revoke(s: Store, secret: string, clientId: string, now: int): Store {
    if secret in s.refresh then
      if s.refresh[secret].clientId == clientId then RevokeFamily(s, s.refresh[secret].familyId, now) else s
    else if secret in s.access && s.access[secret].clientId == clientId then
      s.(access := s.access[secret := s.access[secret].(revokedAt := Coalesce(s.access[secret].revokedAt, now))])
    else s
  }

  /** verifyAccessToken's acceptance; users are the ids that the join finds. */
  predicate Accepts(s: Store, secret: string, resource: string, scopes: seq<string>, users: set<string>, now: int) {
    "spo_" <= secret && |secret| <= 512 && secret in s.access && s.access[secret].userId in users &&
    s.access[secret].revokedAt.None? && now < s.access[secret].expiresAt && s.access[secret].resource == resource &&
    forall x :: x in scopes ==> x in s.access[secret].scopes
  }

  /** The random source repeats nothing: secrets and ids are new, and differ from each other. */
  ghost predicate IsFresh(s: Store, f: Fresh) {
    && f.accessSecret !in s.access && f.refreshSecret !in s.refresh
    && f.refreshSecret !in s.access && f.accessSecret !in s.refresh && f.accessSecret != f.refreshSecret
    && (forall k :: k in s.refresh ==> s.refresh[k].id != f.refreshId && s.refresh[k].familyId != f.familyId)
    && (forall k :: k in s.access ==> s.access[k].id != f.accessId && s.access[k].familyId != f.familyId)
  }

  // ---- What is issued ---------------------------------------------------------------------------

  /** The access token of a new pair is accepted for its own user, resource and scopes until
      its lifetime is over, and for nothing else. */
  lemma IssuedAccessWorks(rt: Runtime, s: Store, u: Subject, at: int, f: Fresh, resource: string,
      scopes: seq<string>, users: set<string>, now: int)
    ensures Accepts(IssuePair(rt, s, u, at, f), f.accessSecret, resource, scopes, users, now) <==>
      ("spo_" <= f.accessSecret && |f.accessSecret| <= 512 && u.userId in users &&
       now < at + rt.accessTtl && resource == u.resource && forall x :: x in scopes ==> x in u.scopes)
  {
  }

  /** Its refresh token can be exchanged, once, by its own client until the family expires. */
  lemma IssuedRefreshWorks(rt: Runtime, s: Store, u: Subject, at: int, f: Fresh, q: RefreshExchange, t: Clock, g: Fresh)
    requires q.token == f.refreshSecret && IsFresh(IssuePair(rt, s, u, at, f), g)
    ensures var s' := IssuePair(rt, s, u, at, f);
      && (Judge(rt, s', q, t.check).None? <==>
            (q.allowed && t.check < (if u.lineage == None then at + rt.refreshTtl else u.lineage.value.expiresAt) &&
             q.clientId == u.clientId && u.resource == rt.resource &&
             (q.resource == None || q.resource.value == u.resource) && Grantable(q.scope, u.scopes)))
      && (Judge(rt, s', q, t.check).None? ==>
            forall q': RefreshExchange, now: int :: q'.token == q.token ==>
              Judge(rt, Rotate(rt, s', q, t, g), q', now).Some?)
  {
    ReducedScopesExactly(q.scope, u.scopes);
  }

  /** The access token of a rotation is accepted for what was asked for, or the whole grant. */
  lemma RotatedAccessWorks(rt: Runtime, s: Store, q: RefreshExchange, t: Clock, f: Fresh, resource: string,
      scopes: seq<string>, users: set<string>, now: int)
    requires Judge(rt, s, q, t.check) == None
    ensures q.token in s.refresh
    ensures var r := s.refresh[q.token];
      Accepts(Rotate(rt, s, q, t, f), f.accessSecret, resource, scopes, users, now) <==>
        ("spo_" <= f.accessSecret && |f.accessSecret| <= 512 && r.userId in users &&
         now < t.issue + rt.accessTtl && resource == r.resource &&
         forall x :: x in scopes ==> if q.scope == None then x in r.scopes else x in q.scope.value && x != "")
  {
    var r := s.refresh[q.token];
    ReducedScopesExactly(q.scope, r.scopes);
    ReducedScopesShrink(q.scope, r.scopes);
    IssuedAccessWorks(rt, Consumed(s, q.token, t.consume), NextSubject(r, ReducedScopes(q.scope, r.scopes).value),
      t.issue, f, resource, scopes, users, now);
  }

  /** Every token of the family is revoked, those revoked before as of then; nothing else changes. */
  ghost predicate FamilyRevoked(before: Store, after: Store, family: string, at: int) {
    && after.codes == before.codes
    && after.access.Keys == before.access.Keys && after.refresh.Keys == before.refresh.Keys
    && (forall k :: k in before.access ==>
      after.access[k] == if before.access[k].familyId == family && before.access[k].revokedAt == None
        then before.access[k].(revokedAt := Some(at)) else before.access[k])
    && (forall k :: k in before.refresh ==>
      after.refresh[k] == if before.refresh[k].familyId == family && before.refresh[k].revokedAt == None
        then before.refresh[k].(revokedAt := Some(at)) else before.refresh[k])
  }

  /** Revoking a family spares every other family, and every code. */
  lemma RevocationSpares(s: Store, family: string, at: int)
    ensures FamilyRevoked(s, RevokeFamily(s, family, at), family, at)
  {
  }

  /** A new code can be redeemed, once, by its own client and verifier until it expires. */
  lemma IssuedCodeWorks(rt: Runtime, s: Store, secret: string, id: string, r: CodeRequest, at: int, q: CodeExchange,
      t: Clock, f: Fresh)
    requires q.code == secret
    ensures var s' := IssueCode(rt, s, secret, id, r, at);
      && (Redeemable(rt, s', q, t.check) <==>
            (t.check < at + rt.codeTtl && q.clientId == r.clientId && q.redirectUri == r.redirectUri &&
             q.resource == r.resource && rt.sha256(q.verifier) == r.challenge))
      && (Verifier(q.verifier) && Redeemable(rt, s', q, t.check) ==>
            forall q': CodeExchange, now: int :: q'.code == secret ==>
              !Redeemable(rt, Redeem(rt, s', q, t, f), q', now))
  {
  }

  // ---- The operations, statement by statement -----------------------------------------------

  class TokenTables {
    var codes: map<string, Code>
    var access: map<string, Access>
    var refresh: map<string, Refresh>

    function Contents(): Store
      reads this
    {
      Store(codes, access, refresh)
    }

    constructor ()
      ensures Contents() == Store(map[], map[], map[])
    {
      codes, access, refresh := map[], map[], map[];
    }

    method IssueTokenPair(rt: Runtime, u: Subject, at: int, f: Fresh) returns (r: Reply)
      modifies this`access, this`refresh
      ensures Contents() == IssuePair(rt, old(Contents()), u, at, f)
      ensures r == Issued(f.accessSecret, f.refreshSecret, u.scopes)
      ensures access.Keys == old(access).Keys + {f.accessSecret} &&
        refresh.Keys == old(refresh).Keys + {f.refreshSecret}
      ensures forall k :: k in old(access) && k != f.accessSecret ==> access[k] == old(access)[k]
      ensures forall k :: k in old(refresh) && k != f.refreshSecret ==> refresh[k] == old(refresh)[k]
      ensures access[f.accessSecret].familyId == refresh[f.refreshSecret].familyId
    {
      access := access[f.accessSecret := NewAccess(rt, u, at, f)];
      refresh := refresh[f.refreshSecret := NewRefresh(rt, u, at, f)];
      r := Issued(f.accessSecret, f.refreshSecret, u.scopes);
    }

    method IssueAuthorizationCode(rt: Runtime, secret: string, id: string, q: CodeRequest, now: int)
      modifies this`codes
      ensures Contents() == IssueCode(rt, old(Contents()), secret, id, q, now)
      ensures codes.Keys == old(codes).Keys + {secret} && codes[secret].consumedAt.None?
      ensures codes == old(codes)[secret := Code(id, q.userId, q.clientId, q.redirectUri, q.resource, q.scopes,
        q.challenge, now + rt.codeTtl, None)]
    {
      codes := codes[secret := Code(id, q.userId, q.clientId, q.redirectUri, q.resource, q.scopes, q.challenge,
                                    now + rt.codeTtl, None)];
    }

    method ExchangeAuthorizationCode(rt: Runtime, q: CodeExchange, t: Clock, f: Fresh) returns (r: Reply)
      modifies this
      ensures Contents() == Redeem(rt, old(Contents()), q, t, f)
      ensures r.Issued? <==>
        43 <= |q.verifier| <= 128 && q.code in old(codes) &&
        (forall c :: c in q.verifier ==>
          'A' <= c <= 'Z' || 'a' <= c <= 'z' || '0' <= c <= '9' || c == '.' || c == '_' || c == '~' || c == '-') &&
        var k := old(codes)[q.code];
        k.consumedAt == None && t.check < k.expiresAt && k.clientId == q.clientId && k.redirectUri == q.redirectUri &&
        k.resource == q.resource && k.challenge == rt.sha256(q.verifier)
      ensures r.Issued? ==>
        var k := old(codes)[q.code];
        && r == Issued(f.accessSecret, f.refreshSecret, k.scopes)
        && codes == old(codes)[q.code := k.(consumedAt := Some(t.consume))]
        && access == old(access)[f.accessSecret := Access(f.accessId, f.familyId, k.userId, k.clientId, k.resource,
             k.scopes, t.issue + rt.accessTtl, t.issue, None)]
        && refresh == old(refresh)[f.refreshSecret := Refresh(f.refreshId, f.familyId, None, k.userId, k.clientId,
             k.resource, k.scopes, t.issue + rt.refreshTtl, t.issue, None, None)]
      ensures r.Refused? ==> Contents() == old(Contents())
    {
      if !Verifier(q.verifier) {
        return Refused(InvalidVerifier);
      }
      var challenge := rt.sha256(q.verifier);
      if q.code !in codes || codes[q.code].consumedAt.Some? || codes[q.code].expiresAt <= t.check ||
         codes[q.code].clientId != q.clientId || codes[q.code].redirectUri != q.redirectUri ||
         codes[q.code].resource != q.resource || codes[q.code].challenge != challenge {
        return Refused(InvalidCode);
      }
      var code := codes[q.code];
      codes := codes[q.code := code.(consumedAt := Some(t.consume))];
      r := IssueTokenPair(rt, FirstSubject(code), t.issue, f);
    }

    method RevokeTokenFamily(family: string, at: int)
      modifies this`access, this`refresh
      ensures Contents() == RevokeFamily(old(Contents()), family, at)
      ensures FamilyRevoked(old(Contents()), Contents(), family, at)
    {
      RevocationSpares(Contents(), family, at);
      refresh := map k | k in refresh :: if refresh[k].familyId == family
        then refresh[k].(revokedAt := Coalesce(refresh[k].revokedAt, at)) else refresh[k];
      access := map k | k in access :: if access[k].familyId == family
        then access[k].(revokedAt := Coalesce(access[k].revokedAt, at)) else access[k];
    }

    method PerformRefresh(rt: Runtime, q: RefreshExchange, t: Clock, f: Fresh) returns (r: Reply)
      modifies this
      ensures Contents() == Rotate(rt, old(Contents()), q, t, f)
      ensures Judge(rt, old(Contents()), q, t.check).Some? ==>
        r == Refused(Judge(rt, old(Contents()), q, t.check).value)
      ensures r.Issued? <==>
        q.allowed && q.token in old(refresh) &&
        var k := old(refresh)[q.token];
        k.consumedAt == None && k.revokedAt == None && t.check < k.expiresAt && k.clientId == q.clientId &&
        k.resource == rt.resource && (q.resource == None || q.resource.value == k.resource) &&
        Grantable(q.scope, k.scopes)
      ensures r.Issued? ==>
        var k := old(refresh)[q.token];
        && r.accessSecret == f.accessSecret && r.refreshSecret == f.refreshSecret
        && (q.scope == None ==> r.scopes == k.scopes)
        && (q.scope != None ==> NoDup(r.scopes) && forall x :: x in r.scopes <==> x in q.scope.value && x != "")
        && codes == old(codes)
        && access == old(access)[f.accessSecret := Access(f.accessId, k.familyId, k.userId, k.clientId, k.resource,
             r.scopes, t.issue + rt.accessTtl, t.issue, None)]
        && refresh == old(refresh)[q.token := k.(consumedAt := Some(t.consume))]
             [f.refreshSecret := Refresh(f.refreshId, k.familyId, Some(k.id), k.userId, k.clientId, k.resource,
             r.scopes, k.expiresAt, t.issue, None, None)]
      ensures r == Refused(ReuseDetected) <==>
        q.allowed && q.token in old(refresh) && old(refresh)[q.token].consumedAt != None
      ensures r == Refused(ReuseDetected) ==>
        FamilyRevoked(old(Contents()), Contents(), old(refresh)[q.token].familyId, t.check)
      ensures r.Refused? && r.why != ReuseDetected ==> Contents() == old(Contents())
    {
      if !q.allowed {
        return Refused(RateLimited);
      }
      if q.token !in refresh {
        return Refused(UnknownGrant);
      }
      var token := refresh[q.token];
      if token.consumedAt.Some? {
        RevokeTokenFamily(token.familyId, t.check);
        return Refused(ReuseDetected);
      }
      if token.revokedAt.Some? {
        return Refused(RevokedGrant);
      }
      if token.expiresAt <= t.check {
        return Refused(ExpiredGrant);
      }
      if token.clientId != q.clientId {
        return Refused(ClientMismatch);
      }
      if token.resource != rt.resource || (q.resource.Some? && token.resource != q.resource.value) {
        return Refused(ResourceMismatch);
      }
      ReducedScopesExactly(q.scope, token.scopes);
      ReducedScopesShrink(q.scope, token.scopes);
      var scopes := ReducedScopes(q.scope, token.scopes);
      if scopes.None? {
        return Refused(InvalidScope);
      }
      refresh := refresh[q.token := token.(consumedAt := Some(t.consume))];
      r := IssueTokenPair(rt, NextSubject(token, scopes.value), t.issue, f);
    }

    method RevokeToken(secret: string, clientId: string, now: int)
      modifies this`access, this`refresh
      ensures Contents() == Revoke(old(Contents()), secret, clientId, now)
      ensures secret in old(refresh) && old(refresh)[secret].clientId == clientId ==>
        FamilyRevoked(old(Contents()), Contents(), old(refresh)[secret].familyId, now)
      ensures secret !in old(refresh) && secret in old(access) && old(access)[secret].clientId == clientId ==>
        && refresh == old(refresh) && access.Keys == old(access).Keys && access[secret].revokedAt != None
        && (old(access)[secret].revokedAt == None ==>
              access == old(access)[secret := old(access)[secret].(revokedAt := Some(now))])
        && (old(access)[secret].revokedAt != None ==> access == old(access))
      ensures (if secret in old(refresh) then old(refresh)[secret].clientId != clientId
               else secret in old(access) ==> old(access)[secret].clientId != clientId) ==>
        Contents() == old(Contents())
    {
      if secret in refresh {
        if refresh[secret].clientId == clientId {
          RevokeTokenFamily(refresh[secret].familyId, now);
        }
      } else if secret in access && access[secret].clientId == clientId {
        access := access[secret := access[secret].(revokedAt := Coalesce(access[secret].revokedAt, now))];
      }
    }
  }
}
