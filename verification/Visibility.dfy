/** The global projection of published skills: which versions are visible after any
    sequence of deliveries. Each SQL statement is one step. */
module Visibility {

  datatype Skill = Skill(workspaceId: string, skillId: string)

  datatype Event =
    | Publish(skill: Skill, version: string, current: string, sequence: int, document: string)
    | Unpublish(skill: Skill, version: string, sequence: int)

  datatype Head = Head(current: string, published: bool, sequence: int)
  datatype Projection = Projection(published: bool, sequence: int, document: string)
  datatype Key = Key(skill: Skill, version: string)

  /** The tables of the control plane; withdrawn is lifecycle.withdrawn_sequence. */
  datatype Directory = Directory(
    heads: map<Skill, Head>, projections: map<Key, Projection>, withdrawn: map<string, int>, revoked: set<string>)

  // ---- One delivery -------------------------------------------------------------------------

  /** The guard of the upsert into public_skill_projection_heads. */
  predicate Accepts(d: Directory, e: Event) {
    e.skill in d.heads ==> d.heads[e.skill].sequence <= e.sequence
  }

  function AfterPublish(d: Directory, e: Event): Directory
    requires e.Publish?
  {
    var key := Key(e.skill, e.version);
    if !Accepts(d, e) then d
    else
      var heads := d.heads[e.skill := Head(e.current, true, e.sequence)];
      if key in d.projections && d.projections[key].sequence > e.sequence then d.(heads := heads)
      else d.(heads := heads, projections := d.projections[key := Projection(true, e.sequence, e.document)])
  }

  function Withdrawals(d: Directory, e: Event): map<string, int> {
    map v | v in (set k | k in d.projections && k.skill == e.skill :: k.version) ::
      if v in d.withdrawn && d.withdrawn[v] > e.sequence then d.withdrawn[v] else e.sequence
  }

  function AfterUnpublish(d: Directory, e: Event): Directory
    requires e.Unpublish?
  {
    if !Accepts(d, e) then d
    else Directory(
      d.heads[e.skill := Head(e.version, false, e.sequence)],
      map k | k in d.projections :: Hidden(d.projections[k], k, e),
      d.withdrawn + Withdrawals(d, e),
      d.revoked)
  }

  function Hidden(p: Projection, k: Key, e: Event): Projection {
    if k.skill == e.skill && p.published && p.sequence <= e.sequence
    then p.(published := false, sequence := e.sequence) else p
  }

  function Deliver(d: Directory, e: Event): Directory {
    if e.Publish? then AfterPublish(d, e) else AfterUnpublish(d, e)
  }

  /** The read predicate of the public hosts. */
  predicate Visible(d: Directory, skill: Skill, version: string) {
    && skill in d.heads && d.heads[skill].published
    && Key(skill, version) in d.projections && d.projections[Key(skill, version)].published
    && version !in d.revoked
    && !(version in d.withdrawn && d.heads[skill].sequence <= d.withdrawn[version])
  }

  // ---- What the deliveries mean --------------------------------------------------------------

  /** No earlier delivery about the skill had a greater sequence. */
  ghost predicate Accepted(log: seq<Event>, i: nat)
    requires i < |log|
  {
    forall j :: 0 <= j < i && log[j].skill == log[i].skill ==> log[j].sequence <= log[i].sequence
  }

  ghost predicate PublishedAt(log: seq<Event>, i: nat, skill: Skill, version: string)
    requires i < |log|
  {
    Accepted(log, i) && log[i].Publish? && log[i].skill == skill && log[i].version == version
  }

  ghost predicate UnpublishedAt(log: seq<Event>, i: nat, skill: Skill)
    requires i < |log|
  {
    Accepted(log, i) && log[i].Unpublish? && log[i].skill == skill
  }

  /** Some accepted publish of the version is later, by sequence, than every accepted
      unpublish of the skill. */
  ghost predicate Live(log: seq<Event>, skill: Skill, version: string) {
    exists i :: 0 <= i < |log| && PublishedAt(log, i, skill, version) && Outlasts(log, log[i].sequence, skill)
  }

  ghost predicate Outlasts(log: seq<Event>, sequence: int, skill: Skill) {
    forall j :: 0 <= j < |log| && UnpublishedAt(log, j, skill) ==> log[j].sequence < sequence
  }

  /** Deliveries about one skill with one sequence are deliveries of one event. */
  ghost predicate DistinctSequences(log: seq<Event>) {
    forall i, j :: 0 <= i < |log| && 0 <= j < |log| && log[i].skill == log[j].skill &&
      log[i].sequence == log[j].sequence
      ==> log[i] == log[j]
  }

  /** A version belongs to one skill. */
  ghost predicate OneHome(log: seq<Event>) {
    forall i, j :: 0 <= i < |log| && 0 <= j < |log| && log[i].Publish? && log[j].Publish? &&
      log[i].version == log[j].version
      ==> log[i].skill == log[j].skill
  }

  function DeliverAll(d: Directory, log: seq<Event>): Directory
    decreases |log|
  {
    if log == [] then d else Deliver(DeliverAll(d, log[..|log| - 1]), log[|log| - 1])
  }

  /** No delivery yet; some versions may be revoked. */
  function Initial(revoked: set<string>): Directory { Directory(map[], map[], map[], revoked) }

  // ---- The invariant ----------------------------------------------------------------------------

  /** The head of a skill records its delivery with the greatest sequence. */
  ghost predicate HeadOk(d: Directory, log: seq<Event>, skill: Skill) {
    && (skill in d.heads ==> exists i :: 0 <= i < |log| && IsHead(log, i, skill, d.heads[skill]))
    && (forall i :: 0 <= i < |log| && log[i].skill == skill ==>
      skill in d.heads && log[i].sequence <= d.heads[skill].sequence)
  }

  ghost predicate IsHead(log: seq<Event>, i: nat, skill: Skill, h: Head)
    requires i < |log|
  {
    log[i].skill == skill && log[i].sequence == h.sequence && (h.published <==> log[i].Publish?) &&
    h.current == if log[i].Publish? then log[i].current else log[i].version
  }

  ghost predicate ProjectionOk(d: Directory, log: seq<Event>, k: Key) {
    && (k in d.projections ==> k.skill in d.heads && d.projections[k].sequence <= d.heads[k.skill].sequence)
    && (k in d.projections ==> exists i :: 0 <= i < |log| && PublishedAt(log, i, k.skill, k.version))
    && (k in d.projections && d.projections[k].published <==> Live(log, k.skill, k.version))
  }

  /** No accepted publish of the version has a greater sequence than this one. */
  ghost predicate LatestPublish(log: seq<Event>, i: nat, k: Key)
    requires i < |log|
  {
    PublishedAt(log, i, k.skill, k.version) &&
    forall j {:trigger log[j]} :: 0 <= j < |log| && PublishedAt(log, j, k.skill, k.version) ==>
      log[j].sequence <= log[i].sequence
  }

  ghost predicate ShownBy(log: seq<Event>, i: nat, k: Key, p: Projection)
    requires i < |log|
  {
    LatestPublish(log, i, k) && p.document == log[i].document && (p.published ==> p.sequence == log[i].sequence)
  }

  /** What was ever published has a projection, with the document of its latest publish. */
  ghost predicate DocumentOk(d: Directory, log: seq<Event>, k: Key) {
    && ((exists i :: 0 <= i < |log| && PublishedAt(log, i, k.skill, k.version)) ==> k in d.projections)
    && (k in d.projections ==> exists i :: 0 <= i < |log| && ShownBy(log, i, k, d.projections[k]))
  }

  ghost predicate WithdrawnOk(d: Directory, log: seq<Event>, v: string)
    requires v in d.withdrawn
  {
    exists i, j :: 0 <= i < |log| && 0 <= j < |log| && log[i].Unpublish? && log[i].sequence == d.withdrawn[v] &&
      PublishedAt(log, j, log[i].skill, v)
  }

  ghost predicate Faithful(d: Directory, log: seq<Event>) {
    && (forall s {:trigger HeadOk(d, log, s)} :: HeadOk(d, log, s))
    && (forall k {:trigger ProjectionOk(d, log, k)} :: ProjectionOk(d, log, k))
    && (forall k {:trigger DocumentOk(d, log, k)} :: DocumentOk(d, log, k))
    && (forall v {:trigger WithdrawnOk(d, log, v)} :: v in d.withdrawn ==> WithdrawnOk(d, log, v))
  }

  lemma AcceptedStable(log: seq<Event>, e: Event, i: nat)
    requires i < |log|
    ensures Accepted(log + [e], i) <==> Accepted(log, i)
  {
    var more := log + [e];
    assert forall j :: 0 <= j <= i ==> more[j] == log[j];
  }

  /** The guard of the head decides acceptance. */
  lemma AcceptedIffGuard(d: Directory, log: seq<Event>, e: Event)
    requires HeadOk(d, log, e.skill)
    ensures Accepts(d, e) <==> Accepted(log + [e], |log|)
  {
    var more := log + [e];
    if !Accepts(d, e) {
      var i :| 0 <= i < |log| && IsHead(log, i, e.skill, d.heads[e.skill]);
      assert more[i].skill == e.skill && more[i].sequence > e.sequence;
    } else {
      forall j | 0 <= j < |log| && more[j].skill == e.skill ensures more[j].sequence <= e.sequence {
        assert more[j] == log[j];
      }
    }
  }

  lemma PublishedStable(log: seq<Event>, e: Event, skill: Skill, version: string, i: nat)
    requires i < |log|
    ensures PublishedAt(log + [e], i, skill, version) <==> PublishedAt(log, i, skill, version)
    ensures UnpublishedAt(log + [e], i, skill) <==> UnpublishedAt(log, i, skill)
  {
    AcceptedStable(log, e, i);
  }

  /** A delivery that is not an accepted event about the skill leaves what is live alone. */
  lemma LiveStable(log: seq<Event>, e: Event, skill: Skill, version: string)
    requires !UnpublishedAt(log + [e], |log|, skill) && !PublishedAt(log + [e], |log|, skill, version)
    ensures Live(log + [e], skill, version) <==> Live(log, skill, version)
  {
    var more := log + [e];
    forall i | 0 <= i < |log|
      ensures (PublishedAt(more, i, skill, version) <==> PublishedAt(log, i, skill, version))
      ensures (UnpublishedAt(more, i, skill) <==> UnpublishedAt(log, i, skill)) && more[i] == log[i]
    {
      PublishedStable(log, e, skill, version, i);
    }
    if Live(log, skill, version) {
      var i :| 0 <= i < |log| && PublishedAt(log, i, skill, version) && Outlasts(log, log[i].sequence, skill);
      assert PublishedAt(more, i, skill, version) && Outlasts(more, more[i].sequence, skill);
    }
    if Live(more, skill, version) {
      var i :| 0 <= i < |more| && PublishedAt(more, i, skill, version) && Outlasts(more, more[i].sequence, skill);
      assert PublishedAt(log, i, skill, version);
      forall j | 0 <= j < |log| && UnpublishedAt(log, j, skill) ensures log[j].sequence < log[i].sequence {
        assert UnpublishedAt(more, j, skill);
      }
    }
  }

  /** An accepted publish is live: it is later than every unpublish accepted before. */
  lemma PublishIsLive(log: seq<Event>, e: Event)
    requires e.Publish? && Accepted(log + [e], |log|) && DistinctSequences(log + [e])
    ensures Live(log + [e], e.skill, e.version)
  {
    var more := log + [e];
    assert more[|log|] == e && PublishedAt(more, |log|, e.skill, e.version);
    forall j | 0 <= j < |more| && UnpublishedAt(more, j, e.skill) ensures more[j].sequence < e.sequence {
      assert more[j].sequence <= e.sequence;
      assert more[j] != more[|log|];
    }
  }

  lemma HeadStep(d: Directory, log: seq<Event>, e: Event, s: Skill)
    requires HeadOk(d, log, s) && HeadOk(d, log, e.skill)
    ensures HeadOk(Deliver(d, e), log + [e], s)
  {
    var d', more := Deliver(d, e), log + [e];
    assert more[|log|] == e;
    assert forall i :: 0 <= i < |log| ==> more[i] == log[i];
    if s == e.skill && Accepts(d, e) {
      assert IsHead(more, |log|, s, d'.heads[s]);
      assert forall i :: 0 <= i < |more| && more[i].skill == s ==> more[i].sequence <= e.sequence;
    } else {
      assert s in d'.heads ==> s in d.heads && d'.heads[s] == d.heads[s];
      if s in d.heads {
        var i :| 0 <= i < |log| && IsHead(log, i, s, d.heads[s]);
        assert IsHead(more, i, s, d'.heads[s]);
      }
    }
  }

  lemma StillPublished(log: seq<Event>, e: Event, k: Key)
    requires exists i :: 0 <= i < |log| && PublishedAt(log, i, k.skill, k.version)
    ensures exists i :: 0 <= i < |log + [e]| && PublishedAt(log + [e], i, k.skill, k.version)
  {
    var i :| 0 <= i < |log| && PublishedAt(log, i, k.skill, k.version);
    PublishedStable(log, e, k.skill, k.version, i);
  }

  lemma ProjectionStep(d: Directory, log: seq<Event>, e: Event, k: Key)
    requires HeadOk(d, log, e.skill) && ProjectionOk(d, log, k) && DistinctSequences(log + [e])
    ensures ProjectionOk(Deliver(d, e), log + [e], k)
  {
    var d', more := Deliver(d, e), log + [e];
    AcceptedIffGuard(d, log, e);
    assert more[|log|] == e;
    if k in d.projections {
      StillPublished(log, e, k);
    }
    if !Accepts(d, e) || k.skill != e.skill {
      LiveStable(log, e, k.skill, k.version);
    } else if e.Unpublish? {
    } else if k.version == e.version {
      PublishIsLive(log, e);
      assert PublishedAt(more, |log|, k.skill, k.version);
    } else {
      LiveStable(log, e, k.skill, k.version);
    }
  }

  lemma LatestStable(log: seq<Event>, e: Event, k: Key, i: nat)
    requires i < |log| && LatestPublish(log, i, k) && !PublishedAt(log + [e], |log|, k.skill, k.version)
    ensures LatestPublish(log + [e], i, k)
  {
    var more := log + [e];
    PublishedStable(log, e, k.skill, k.version, i);
    forall j | 0 <= j < |more| && PublishedAt(more, j, k.skill, k.version)
      ensures more[j].sequence <= more[i].sequence
    {
      PublishedStable(log, e, k.skill, k.version, j);
      assert more[j] == log[j];
    }
  }

  /** An accepted publish is the latest one. */
  lemma AcceptedIsLatest(log: seq<Event>, e: Event)
    requires e.Publish? && Accepted(log + [e], |log|)
    ensures LatestPublish(log + [e], |log|, Key(e.skill, e.version))
  {
    assert (log + [e])[|log|] == e;
  }

  lemma DocumentStep(d: Directory, log: seq<Event>, e: Event, k: Key)
    requires HeadOk(d, log, e.skill) && ProjectionOk(d, log, k) && DocumentOk(d, log, k)
    ensures DocumentOk(Deliver(d, e), log + [e], k)
  {
    var d', more := Deliver(d, e), log + [e];
    AcceptedIffGuard(d, log, e);
    assert more[|log|] == e;
    if e.Publish? && Accepts(d, e) && k == Key(e.skill, e.version) {
      AcceptedIsLatest(log, e);
      assert ShownBy(more, |log|, k, d'.projections[k]);
    } else {
      assert !PublishedAt(more, |log|, k.skill, k.version);
      if i :| 0 <= i < |more| && PublishedAt(more, i, k.skill, k.version) {
        PublishedStable(log, e, k.skill, k.version, i);
      }
      if k in d.projections {
        var i :| 0 <= i < |log| && ShownBy(log, i, k, d.projections[k]);
        LatestStable(log, e, k, i);
        assert more[i] == log[i] && ShownBy(more, i, k, d'.projections[k]);
      }
    }
  }

  lemma WithdrawnStep(d: Directory, log: seq<Event>, e: Event, v: string)
    requires Faithful(d, log) && v in Deliver(d, e).withdrawn
    ensures WithdrawnOk(Deliver(d, e), log + [e], v)
  {
    var d', more := Deliver(d, e), log + [e];
    assert more[|log|] == e;
    if v in d.withdrawn && d'.withdrawn[v] == d.withdrawn[v] {
      assert WithdrawnOk(d, log, v);
      var i, j :| 0 <= i < |log| && 0 <= j < |log| && log[i].Unpublish? && log[i].sequence == d.withdrawn[v] &&
        PublishedAt(log, j, log[i].skill, v);
      PublishedStable(log, e, log[i].skill, v, j);
      assert more[i] == log[i] && PublishedAt(more, j, more[i].skill, v);
    } else {
      assert v in Withdrawals(d, e) && d'.withdrawn[v] == e.sequence;
      var k :| k in d.projections && k.skill == e.skill && k.version == v;
      assert ProjectionOk(d, log, k);
      StillPublished(log, e, k);
      var j :| 0 <= j < |more| && PublishedAt(more, j, e.skill, v);
      assert more[|log|].Unpublish? && PublishedAt(more, j, more[|log|].skill, v);
    }
  }

  /** Every delivery keeps the tables faithful to the deliveries so far. */
  lemma DeliverFaithful(d: Directory, log: seq<Event>, e: Event)
    requires Faithful(d, log) && DistinctSequences(log + [e])
    ensures Faithful(Deliver(d, e), log + [e])
  {
    forall s ensures HeadOk(Deliver(d, e), log + [e], s) {
      assert HeadOk(d, log, s) && HeadOk(d, log, e.skill);
      HeadStep(d, log, e, s);
    }
    forall k ensures ProjectionOk(Deliver(d, e), log + [e], k) {
      assert HeadOk(d, log, e.skill) && ProjectionOk(d, log, k);
      ProjectionStep(d, log, e, k);
    }
    forall k ensures DocumentOk(Deliver(d, e), log + [e], k) {
      assert HeadOk(d, log, e.skill) && ProjectionOk(d, log, k) && DocumentOk(d, log, k);
      DocumentStep(d, log, e, k);
    }
    forall v | v in Deliver(d, e).withdrawn ensures WithdrawnOk(Deliver(d, e), log + [e], v) {
      WithdrawnStep(d, log, e, v);
    }
  }

  lemma {:induction false} AllFaithful(revoked: set<string>, log: seq<Event>)
    requires DistinctSequences(log)
    ensures Faithful(DeliverAll(Initial(revoked), log), log) && DeliverAll(Initial(revoked), log).revoked == revoked
    decreases |log|
  {
    if log != [] {
      var init := log[..|log| - 1];
      assert log == init + [log[|log| - 1]];
      AllFaithful(revoked, init);
      DeliverFaithful(DeliverAll(Initial(revoked), init), init, log[|log| - 1]);
    }
  }

  // ---- The theorems --------------------------------------------------------------------------------

  lemma WithdrawnBelowHead(d: Directory, log: seq<Event>, skill: Skill, v: string)
    requires Faithful(d, log) && DistinctSequences(log) && OneHome(log)
    requires skill in d.heads && d.heads[skill].published && v in d.withdrawn && Key(skill, v) in d.projections
    ensures d.withdrawn[v] < d.heads[skill].sequence
  {
    assert WithdrawnOk(d, log, v) && ProjectionOk(d, log, Key(skill, v)) && HeadOk(d, log, skill);
    var i, j :| 0 <= i < |log| && 0 <= j < |log| && log[i].Unpublish? && log[i].sequence == d.withdrawn[v] &&
      PublishedAt(log, j, log[i].skill, v);
    var m :| 0 <= m < |log| && PublishedAt(log, m, skill, v);
    assert log[i].skill == skill;
    var h :| 0 <= h < |log| && IsHead(log, h, skill, d.heads[skill]);
    assert log[h] != log[i];
  }

  lemma UnpublishBefore(log: seq<Event>, sequence: int, skill: Skill, j: nat)
    requires Outlasts(log, sequence, skill) && j < |log| && Accepted(log, j) && log[j].Unpublish? &&
      log[j].skill == skill
    ensures log[j].sequence < sequence
  {
    assert UnpublishedAt(log, j, skill);
  }

  /** A live version implies that the head of its skill is published. */
  lemma LiveHead(d: Directory, log: seq<Event>, skill: Skill, v: string)
    requires Faithful(d, log) && Live(log, skill, v)
    ensures skill in d.heads && d.heads[skill].published
  {
    assert HeadOk(d, log, skill);
    var i :| 0 <= i < |log| && PublishedAt(log, i, skill, v) && Outlasts(log, log[i].sequence, skill);
    var h :| 0 <= h < |log| && IsHead(log, h, skill, d.heads[skill]);
    assert Accepted(log, h);
    if log[h].Unpublish? { UnpublishBefore(log, log[i].sequence, skill, h); }
  }

  /** Under any delivery order with duplicates, a version is visible exactly when it is not
      revoked and some accepted publish of it is later than every accepted unpublish of its skill. */
  lemma VisibleExactlyWhenLive(revoked: set<string>, log: seq<Event>, skill: Skill, version: string)
    requires DistinctSequences(log) && OneHome(log)
    ensures Visible(DeliverAll(Initial(revoked), log), skill, version) <==>
      version !in revoked && Live(log, skill, version)
  {
    var d := DeliverAll(Initial(revoked), log);
    AllFaithful(revoked, log);
    assert ProjectionOk(d, log, Key(skill, version));
    if Live(log, skill, version) {
      LiveHead(d, log, skill, version);
      if version in d.withdrawn {
        WithdrawnBelowHead(d, log, skill, version);
      }
    }
  }

  /** A visible version shows the document of its latest accepted publish, and the head names the
      current version of the skill's latest delivery. */
  lemma LatestIsShown(revoked: set<string>, log: seq<Event>, skill: Skill, version: string) returns (i: nat, h: nat)
    requires DistinctSequences(log) && Visible(DeliverAll(Initial(revoked), log), skill, version)
    ensures var d := DeliverAll(Initial(revoked), log);
      && skill in d.heads && Key(skill, version) in d.projections && i < |log| && h < |log|
      && LatestPublish(log, i, Key(skill, version)) && d.projections[Key(skill, version)].document == log[i].document
      && log[h].Publish? && log[h].skill == skill && d.heads[skill].current == log[h].current
      && forall j :: 0 <= j < |log| && log[j].skill == skill ==> log[j].sequence <= log[h].sequence
  {
    var d, k := DeliverAll(Initial(revoked), log), Key(skill, version);
    AllFaithful(revoked, log);
    assert DocumentOk(d, log, k) && HeadOk(d, log, skill);
    i :| i < |log| && ShownBy(log, i, k, d.projections[k]);
    h :| h < |log| && IsHead(log, h, skill, d.heads[skill]);
  }

  /** An accepted unpublish withdraws every version of the skill that was ever projected. */
  lemma UnpublishWithdraws(d: Directory, e: Event, k: Key)
    requires e.Unpublish? && k in d.projections
    requires e.skill in d.heads ==> d.heads[e.skill].sequence <= e.sequence
    ensures var d' := Deliver(d, e); k in d'.projections && d'.projections[k].document == d.projections[k].document
    ensures e.skill in Deliver(d, e).heads && Deliver(d, e).heads[e.skill] == Head(e.version, false, e.sequence)
    ensures k.skill == e.skill ==>
      k.version in Deliver(d, e).withdrawn &&
      Deliver(d, e).withdrawn[k.version] ==
        if k.version in d.withdrawn && e.sequence < d.withdrawn[k.version] then d.withdrawn[k.version] else e.sequence
    ensures Deliver(d, e).projections[k] ==
      if k.skill == e.skill && d.projections[k].published && d.projections[k].sequence <= e.sequence
      then d.projections[k].(published := false, sequence := e.sequence)
      else d.projections[k]
  {
    if k.skill == e.skill { assert k.version in Withdrawals(d, e); }
  }

  /** Whatever the projections say, a withdrawn or revoked version is hidden until a later event of
      its skill is the head, and so is every version of a skill whose head is unpublished. */
  lemma HiddenAnyway(d: Directory, skill: Skill, version: string)
    requires skill !in d.heads || !d.heads[skill].published || version in d.revoked ||
      (version in d.withdrawn && d.heads[skill].sequence <= d.withdrawn[version])
    ensures !Visible(d, skill, version)
  {
  }

  /** A projection is never ahead of its head, in any reachable state. */
  lemma ProjectionBehindHead(revoked: set<string>, log: seq<Event>, k: Key)
    requires DistinctSequences(log)
    ensures var d := DeliverAll(Initial(revoked), log);
      k in d.projections ==> k.skill in d.heads && d.projections[k].sequence <= d.heads[k.skill].sequence
  {
    AllFaithful(revoked, log);
    assert ProjectionOk(DeliverAll(Initial(revoked), log), log, k);
  }

  /** Heads never go back, and a stale delivery changes nothing. */
  lemma DeliveryMonotone(d: Directory, e: Event, skill: Skill)
    requires forall k :: k in d.projections ==>
      k.skill in d.heads && d.projections[k].sequence <= d.heads[k.skill].sequence
    ensures skill in d.heads ==>
      skill in Deliver(d, e).heads && d.heads[skill].sequence <= Deliver(d, e).heads[skill].sequence
    ensures e.skill in d.heads && e.sequence < d.heads[e.skill].sequence ==> Deliver(d, e) == d
  {
  }

  lemma UnpublishTwice(d: Directory, e: Event)
    requires e.Unpublish? && Accepts(d, e)
    ensures AfterUnpublish(AfterUnpublish(d, e), e) == AfterUnpublish(d, e)
  {
    var d' := AfterUnpublish(d, e);
    forall k | k in d'.projections ensures Hidden(d'.projections[k], k, e) == d'.projections[k] {
      assert d'.projections[k] == Hidden(d.projections[k], k, e);
    }
    assert AfterUnpublish(d', e).projections == d'.projections;
    forall v | v in Withdrawals(d', e) ensures v in d'.withdrawn && d'.withdrawn[v] == Withdrawals(d', e)[v] {
      var k :| k in d'.projections && k.skill == e.skill && k.version == v;
      assert v in Withdrawals(d, e);
    }
    assert d'.withdrawn + Withdrawals(d', e) == d'.withdrawn;
  }

  /** A repeated delivery adds nothing. */
  lemma DeliveryIdempotent(d: Directory, e: Event)
    ensures Deliver(Deliver(d, e), e) == Deliver(d, e)
  {
    if e.Unpublish? && Accepts(d, e) { UnpublishTwice(d, e); }
  }

  // ---- The class -------------------------------------------------------------------------------------

  class PublicProjectionDirectory {
    var heads: map<Skill, Head>
    var projections: map<Key, Projection>
    var withdrawn: map<string, int>
    var revoked: set<string>

    function Contents(): Directory
      reads this
    {
      Directory(heads, projections, withdrawn, revoked)
    }

    constructor (revoked: set<string>)
      ensures Contents() == Initial(revoked)
    {
      heads, projections, withdrawn, this.revoked := map[], map[], map[], revoked;
    }

    method PublishVersion(e: Event)
      requires e.Publish?
      modifies this`heads, this`projections
      ensures Contents() == Deliver(old(Contents()), e)
    {
      if e.skill in heads && heads[e.skill].sequence > e.sequence {
        return;
      }
      heads := heads[e.skill := Head(e.current, true, e.sequence)];
      var key := Key(e.skill, e.version);
      if key !in projections || projections[key].sequence <= e.sequence {
        projections := projections[key := Projection(true, e.sequence, e.document)];
      }
    }

    method UnpublishSkill(e: Event)
      requires e.Unpublish?
      modifies this`heads, this`projections, this`withdrawn
      ensures Contents() == Deliver(old(Contents()), e)
    {
      if e.skill in heads && heads[e.skill].sequence > e.sequence {
        return;
      }
      withdrawn := withdrawn + Withdrawals(Contents(), e);
      heads := heads[e.skill := Head(e.version, false, e.sequence)];
      projections := map k | k in projections :: Hidden(projections[k], k, e);
    }
  }
}
