/**
 * What is recorded of every contact: the attempt a webhook or a voice reply is matched
 * with later. Identifiers are fresh, as drawn at random; nothing else is assumed.
 */
module NotificationRecords {
  import opened Basics
  import opened AttemptStatus
  import opened NotificationWorld
  import opened NotificationRuns

  // ----- Attempts -----

  ghost predicate UniqueIds(attempts: seq<Attempt>) {
    forall i, j :: 0 <= i < j < |attempts| ==> attempts[i].id != attempts[j].id
  }

  predicate HasId(attempts: seq<Attempt>, id: string) {
    exists i :: 0 <= i < |attempts| && attempts[i].id == id
  }

  predicate HasRequest(attempts: seq<Attempt>, requestId: string) {
    exists i :: 0 <= i < |attempts| && attempts[i].requestId == Some(requestId)
  }

  /** Identifiers drawn for claims still to come are new, and different claims draw different ones. */
  ghost predicate FreshIds(w: World, env: Env) {
    Injective(env) && forall k :: k !in w.keys ==> !HasId(w.attempts, env.newId(k))
  }

  /** Every attempt stays in its place, and only its status may change. */
  ghost predicate SameCalls(a: seq<Attempt>, b: seq<Attempt>) {
    |a| <= |b| && forall i :: 0 <= i < |a| ==> b[i] == a[i].(status := b[i].status)
  }

  /** The attempt recorded of a claimed contact, once the provider has answered. */
  predicate CallOf(env: Env, k: Key, a: Attempt) {
    && a.id == env.newId(k)
    && (match k
        case DirectKey(incidentId, recipientId, channel) =>
          a.incidentId == incidentId && a.recipientId == recipientId && a.channel == channel
        case EndUserKey(incidentId, contactId, _, _) =>
          a.incidentId == incidentId && a.recipientId == contactId && a.channel == Sms && a.source == EndUser
        case _ => false)
    && match env.provider(k)
       case Accepted(requestId, status) => a.requestId == Some(requestId) && a.status == status
       case Rejected => a.requestId == None && a.status == Failed
  }

  ghost predicate RecordedIn(env: Env, k: Key, attempts: seq<Attempt>, start: nat) {
    exists i :: start <= i < |attempts| && CallOf(env, k, attempts[i])
  }

  ghost predicate ComesFrom(w: World, env: Env, r: World, a: Attempt) {
    exists k :: k in r.keys && k !in w.keys && CallOf(env, k, a)
  }

  predicate IsContact(k: Key) {
    k.DirectKey? || k.EndUserKey?
  }

  /** What the audit trail says of a claimed contact; a refused message to an end user is not mentioned. */
  predicate Noted(env: Env, k: Key, r: World) {
    && (k.DirectKey? && env.provider(k).Rejected? ==>
          AuditRecord(k.incidentId, CallFailed(env.newId(k))) in r.audit)
    && (IsContact(k) && env.provider(k).Accepted? ==>
          AuditRecord(k.incidentId, ProviderRequested(env.newId(k))) in r.audit)
  }

  /** A handler appends exactly one attempt for every contact it claims, and notes the contact. */
  ghost predicate Records(w: World, env: Env, r: World) {
    && w.audit <= r.audit && (forall k :: k in r.keys && k !in w.keys ==> Noted(env, k, r))
    && w.keys <= r.keys && w.attempts <= r.attempts
    && (forall k :: k in r.keys && k !in w.keys && IsContact(k) ==> RecordedIn(env, k, r.attempts, |w.attempts|))
    && (forall i :: |w.attempts| <= i < |r.attempts| ==> ComesFrom(w, env, r, r.attempts[i]))
    && UniqueIds(r.attempts[|w.attempts|..])
  }

  ghost predicate Injective(env: Env) {
    forall k, l :: env.newId(k) == env.newId(l) ==> k == l
  }

  lemma SavedNew(attempts: seq<Attempt>, a: Attempt)
    requires !HasId(attempts, a.id)
    ensures Saved(attempts, a) == attempts + [a]
  {
    SavedAt(attempts, a, |attempts|);
  }

  /** Saving an attempt a second time replaces it. */
  lemma SavedTwice(attempts: seq<Attempt>, a: Attempt, b: Attempt)
    requires !HasId(attempts, a.id) && b.id == a.id
    ensures Saved(Saved(attempts, a), b) == attempts + [b]
  {
    hide Saved;
    SavedNew(attempts, a);
    SavedAt(attempts + [a], b, |attempts|);
    assert (attempts + [a])[|attempts| := b] == attempts + [b];
  }

  /** Nothing is claimed and nothing recorded. */
  lemma QuietRecords(w: World, env: Env, r: World)
    requires r.attempts == w.attempts && w.keys <= r.keys && w.audit <= r.audit
    requires forall k :: k in r.keys && k !in w.keys ==> !IsContact(k)
    ensures Records(w, env, r)
  {
  }

  lemma OneRecord(w: World, env: Env, r: World, k: Key, a: Attempt)
    requires k !in w.keys && r.keys == w.keys + {k} && r.attempts == w.attempts + [a] && CallOf(env, k, a)
    requires w.audit <= r.audit && Noted(env, k, r)
    ensures Records(w, env, r)
  {
    assert r.attempts[|w.attempts|] == a;
    assert ComesFrom(w, env, r, a);
    assert RecordedIn(env, k, r.attempts, |w.attempts|);
  }

  /** Attempts recorded of different claims have different identifiers. */
  lemma NewIdsApart(a: World, env: Env, b: World, c: World)
    requires Records(a, env, b) && Records(b, env, c) && Injective(env)
    ensures UniqueIds(c.attempts[|a.attempts|..])
  {
    hide ComesFrom, CallOf, Noted, RecordedIn, Injective;
    var n, m := |a.attempts|, |b.attempts|;
    forall i, j | n <= i < j < |c.attempts|
      ensures c.attempts[i].id != c.attempts[j].id
    {
      if j < m {
        assert b.attempts[n..][i - n] == c.attempts[i] && b.attempts[n..][j - n] == c.attempts[j];
      } else if m <= i {
        assert c.attempts[m..][i - m] == c.attempts[i] && c.attempts[m..][j - m] == c.attempts[j];
      } else {
        assert c.attempts[i] == b.attempts[i] && ComesFrom(a, env, b, b.attempts[i]);
        assert ComesFrom(b, env, c, c.attempts[j]);
        FromDifferentClaims(a, env, b, c, b.attempts[i], c.attempts[j]);
      }
    }
  }

  lemma FromDifferentClaims(a: World, env: Env, b: World, c: World, x: Attempt, y: Attempt)
    requires ComesFrom(a, env, b, x) && ComesFrom(b, env, c, y) && Injective(env)
    ensures x.id != y.id
  {
    var k :| k in b.keys && k !in a.keys && CallOf(env, k, x);
    var l :| l in c.keys && l !in b.keys && CallOf(env, l, y);
  }

  lemma RecordsTransitive(a: World, env: Env, b: World, c: World)
    requires Records(a, env, b) && Records(b, env, c) && Injective(env)
    ensures Records(a, env, c)
  {
    NewIdsApart(a, env, b, c);
    hide CallOf, UniqueIds;
    forall k | k in c.keys && k !in a.keys && IsContact(k)
      ensures RecordedIn(env, k, c.attempts, |a.attempts|)
    {
      if k in b.keys {
        assert RecordedIn(env, k, b.attempts, |a.attempts|);
        var i :| |a.attempts| <= i < |b.attempts| && CallOf(env, k, b.attempts[i]);
        assert c.attempts[i] == b.attempts[i];
      } else {
        assert RecordedIn(env, k, c.attempts, |b.attempts|);
      }
    }
    forall i | |a.attempts| <= i < |c.attempts|
      ensures ComesFrom(a, env, c, c.attempts[i])
    {
      if i < |b.attempts| {
        assert c.attempts[i] == b.attempts[i] && ComesFrom(a, env, b, b.attempts[i]);
      } else {
        assert ComesFrom(b, env, c, c.attempts[i]);
      }
    }
  }

  /** What a handler records leaves the identifiers of later claims fresh. */
  lemma RecordsKeepFresh(w: World, env: Env, r: World)
    requires Records(w, env, r) && FreshIds(w, env)
    ensures FreshIds(r, env)
  {
    forall k | k !in r.keys
      ensures !HasId(r.attempts, env.newId(k))
    {
      forall i | 0 <= i < |r.attempts|
        ensures r.attempts[i].id != env.newId(k)
      {
        if i < |w.attempts| {
          assert r.attempts[i] == w.attempts[i];
        } else {
          assert ComesFrom(w, env, r, r.attempts[i]);
        }
      }
    }
  }

  // ----- Every handler records what it claims -----

  /** A refused or accepted contact is recorded once, with all that identifies it. */
  lemma SendRecordsOne(w: World, env: Env, incidentId: string, target: Target, channel: Channel)
    requires FreshIds(w, env)
    requires var key := DirectKey(incidentId, target.id, channel); key !in w.keys && env.provider(key).Accepted?
    ensures var key := DirectKey(incidentId, target.id, channel);
            var answer := env.provider(key);
            var a := Attempt(env.newId(key), incidentId, target.id, target.source, channel,
                             Some(answer.requestId), answer.status);
            Send(w, env, incidentId, target, channel).attempts == w.attempts + [a]
  {
    hide Saved, Fallback, HasId;
    var key := DirectKey(incidentId, target.id, channel);
    var answer := env.provider(key);
    var a := Attempt(env.newId(key), incidentId, target.id, target.source, channel, None, Pending);
    SavedTwice(w.attempts, a, a.(requestId := Some(answer.requestId), status := answer.status));
  }

  lemma SendRecords(w: World, env: Env, incidentId: string, target: Target, channel: Channel)
    requires FreshIds(w, env)
    ensures Records(w, env, Send(w, env, incidentId, target, channel))
    decreases FallbacksLeft(w, incidentId), 1, 0
  {
    hide Saved, Unique, Records, Injective, HasId;
    var key := DirectKey(incidentId, target.id, channel);
    var r := Send(w, env, incidentId, target, channel);
    if key in w.keys {
      QuietRecords(w, env, w);
    } else {
      var a := Attempt(env.newId(key), incidentId, target.id, target.source, channel, None, Pending);
      FreshId(w, env, key);
      match env.provider(key)
      case Accepted(requestId, status) =>
        var b := a.(requestId := Some(requestId), status := status);
        SavedTwice(w.attempts, a, b);
        OneRecord(w, env, r, key, b);
      case Rejected =>
        var b := a.(status := Failed);
        SavedTwice(w.attempts, a, b);
        var asked := w.(keys := w.keys + {key}, attempts := Saved(w.attempts, a), effects := w.effects + [key]);
        var failed := Logged(asked.(attempts := Saved(asked.attempts, b)), incidentId, CallFailed(a.id));
        OneRecord(w, env, failed, key, b);
        if channel == Voice && target.source == AssignedSre {
          RecordsKeepFresh(w, env, failed);
          FallbackRecords(failed, env, incidentId);
          RecordsTransitive(w, env, failed, r);
        }
    }
  }

  lemma FreshId(w: World, env: Env, k: Key)
    requires FreshIds(w, env) && k !in w.keys
    ensures !HasId(w.attempts, env.newId(k))
  {
  }

  /** Writes that touch neither attempts nor contact claims in between do not matter. */
  lemma AfterQuiet(w: World, env: Env, m: World, r: World)
    requires m.attempts == w.attempts && w.keys <= m.keys && w.audit <= m.audit
    requires forall k :: k in m.keys && k !in w.keys ==> !IsContact(k)
    requires Records(m, env, r) && Injective(env)
    ensures Records(w, env, r)
  {
    hide CallOf, UniqueIds;
    QuietRecords(w, env, m);
    RecordsTransitive(w, env, m, r);
  }

  lemma QuietKeepsFresh(w: World, env: Env, m: World)
    requires FreshIds(w, env) && m.attempts == w.attempts && w.keys <= m.keys
    ensures FreshIds(m, env)
  {
    hide HasId;
  }

  lemma SendChannelsRecords(w: World, env: Env, incidentId: string, target: Target, channels: seq<Channel>)
    requires FreshIds(w, env)
    ensures Records(w, env, SendChannels(w, env, incidentId, target, channels))
    decreases FallbacksLeft(w, incidentId), 2, |channels|
  {
    hide Records, Injective, HasId, Saved, Unique;
    if channels == [] {
      QuietRecords(w, env, w);
    } else {
      var sent := Send(w, env, incidentId, target, channels[0]);
      SendRecords(w, env, incidentId, target, channels[0]);
      RecordsKeepFresh(w, env, sent);
      SendChannelsRecords(sent, env, incidentId, target, channels[1..]);
      RecordsTransitive(w, env, sent, SendChannels(w, env, incidentId, target, channels));
    }
  }

  lemma DispatchRecords(w: World, env: Env, incidentId: string, targets: seq<Target>)
    requires FreshIds(w, env)
    ensures Records(w, env, Dispatch(w, env, incidentId, targets))
    decreases FallbacksLeft(w, incidentId), 3, |targets|
  {
    hide Records, Injective, HasId, Saved, Unique;
    if targets == [] {
      QuietRecords(w, env, w);
    } else {
      var resolved := Logged(w, incidentId, RecipientResolved(targets[0].id));
      var sent := SendChannels(resolved, env, incidentId, targets[0], targets[0].channels);
      QuietKeepsFresh(w, env, resolved);
      SendChannelsRecords(resolved, env, incidentId, targets[0], targets[0].channels);
      AfterQuiet(w, env, resolved, sent);
      RecordsKeepFresh(w, env, sent);
      DispatchRecords(sent, env, incidentId, targets[1..]);
      RecordsTransitive(w, env, sent, Dispatch(w, env, incidentId, targets));
    }
  }

  lemma FallbackRecords(w: World, env: Env, incidentId: string)
    requires FreshIds(w, env)
    ensures Records(w, env, Fallback(w, env, incidentId))
    decreases FallbacksLeft(w, incidentId), 0, 0
  {
    hide Records, Injective, HasId, Saved, Unique;
    var key := FallbackKey(incidentId);
    var r := Fallback(w, env, incidentId);
    if !IsActive(w, incidentId) || key in w.keys || incidentId !in w.incidents || w.incidents[incidentId].resolved {
      QuietRecords(w, env, r);
    } else {
      var state, admins := w.states[incidentId], env.admins(w.states[incidentId].organization);
      var widened := state.(recipients := Unique(state.recipients + Ids(admins)), fallbackUsed := true);
      var claimed := w.(keys := w.keys + {key}, effects := w.effects + [key]);
      var noted := Logged(claimed.(states := claimed.states[incidentId := widened]), incidentId, FallbackUsed);
      QuietKeepsFresh(w, env, noted);
      DispatchRecords(noted, env, incidentId, admins);
      AfterQuiet(w, env, noted, r);
    }
  }

  lemma HandleIncidentRecords(w: World, env: Env, highEnabled: bool, incidentId: string, incident: Incident,
                              organization: string, resolution: Resolved)
    requires FreshIds(w, env)
    ensures Records(w, env, HandleIncident(w, env, highEnabled, incidentId, incident, organization, resolution))
  {
    hide Records, Injective, HasId, Dispatch, Ids;
    var r := HandleIncident(w, env, highEnabled, incidentId, incident, organization, resolution);
    if incident.resolved || !ShouldNotify(incident, highEnabled) || Stopped(w, incidentId)
       || (incidentId in w.states && w.states[incidentId].recipients != []) {
      QuietRecords(w, env, r);
    } else {
      var state := State(organization, Ids(resolution.targets), resolution.fallbackUsed, Active);
      var started := Logged(w.(states := w.states[incidentId := state]), incidentId, NotificationStarted);
      var noted := if resolution.fallbackUsed then Logged(started, incidentId, FallbackUsed) else started;
      QuietKeepsFresh(w, env, noted);
      DispatchRecords(noted, env, incidentId, resolution.targets);
      AfterQuiet(w, env, noted, r);
    }
  }

  /** Likewise a message to an end user, claimed or not. */
  lemma EndUserRecords(w: World, env: Env, incidentId: string, contactId: string,
                       kind: CommunicationType, version: string)
    requires FreshIds(w, env)
    ensures var r := SendEndUserSms(w, env, incidentId, contactId, kind, version);
            Records(w, env, r) && EndUserKey(incidentId, contactId, kind, version) in r.keys
  {
    hide Saved, Records, FreshIds, HasId;
    var key := EndUserKey(incidentId, contactId, kind, version);
    var r := SendEndUserSms(w, env, incidentId, contactId, kind, version);
    if key in w.keys {
      QuietRecords(w, env, w);
    } else {
      var a := Attempt(env.newId(key), incidentId, contactId, EndUser, Sms, None, Pending);
      FreshId(w, env, key);
      match env.provider(key)
      case Accepted(requestId, status) =>
        var b := a.(requestId := Some(requestId), status := status);
        SavedTwice(w.attempts, a, b);
        OneRecord(w, env, r, key, b);
      case Rejected =>
        SavedTwice(w.attempts, a, a.(status := Failed));
        OneRecord(w, env, r, key, a.(status := Failed));
    }
  }

  /** An accepted message to an end user is recorded once, with all that identifies it. */
  lemma EndUserRecordsOne(w: World, env: Env, incidentId: string, contactId: string,
                          kind: CommunicationType, version: string)
    requires FreshIds(w, env)
    requires var key := EndUserKey(incidentId, contactId, kind, version);
             key !in w.keys && env.provider(key).Accepted?
    ensures var key := EndUserKey(incidentId, contactId, kind, version);
            var answer := env.provider(key);
            var a := Attempt(env.newId(key), incidentId, contactId, EndUser, Sms,
                             Some(answer.requestId), answer.status);
            SendEndUserSms(w, env, incidentId, contactId, kind, version).attempts == w.attempts + [a]
  {
    hide Saved, HasId;
    var key := EndUserKey(incidentId, contactId, kind, version);
    var answer := env.provider(key);
    var a := Attempt(env.newId(key), incidentId, contactId, EndUser, Sms, None, Pending);
    SavedTwice(w.attempts, a, a.(requestId := Some(answer.requestId), status := answer.status));
  }

  // ----- Finding an attempt again -----

  lemma {:induction false} FindByRequestFirst(attempts: seq<Attempt>, requestId: string, i: nat)
    requires i < |attempts| && attempts[i].requestId == Some(requestId)
    requires forall j :: 0 <= j < i ==> attempts[j].requestId != Some(requestId)
    ensures FindByRequest(attempts, requestId) == Some(attempts[i])
  {
    if i > 0 {
      FindByRequestFirst(attempts[1..], requestId, i - 1);
    }
  }

  lemma {:induction false} FindByRequestIndex(attempts: seq<Attempt>, requestId: string) returns (i: nat)
    requires FindByRequest(attempts, requestId).Some?
    ensures i < |attempts| && FindByRequest(attempts, requestId) == Some(attempts[i])
    ensures attempts[i].requestId == Some(requestId)
    ensures forall j :: 0 <= j < i ==> attempts[j].requestId != Some(requestId)
  {
    if attempts[0].requestId == Some(requestId) {
      i := 0;
    } else {
      var k := FindByRequestIndex(attempts[1..], requestId);
      i := k + 1;
    }
  }

  lemma FoundStaysFound(a: seq<Attempt>, b: seq<Attempt>, requestId: string)
    requires SameCalls(a, b) && FindByRequest(a, requestId).Some?
    ensures FindByRequest(b, requestId).Some?
    ensures var found, before := FindByRequest(b, requestId).value, FindByRequest(a, requestId).value;
            found == before.(status := found.status)
  {
    var i := FindByRequestIndex(a, requestId);
    FindByRequestFirst(b, requestId, i);
  }

  predicate SameRequest(a: Outcome, b: Outcome) {
    a.Accepted? && b.Accepted? && a.requestId == b.requestId
  }

  /** The provider never gives two contacts the same request identifier. */
  ghost predicate DistinctRequests(env: Env) {
    forall k, l :: SameRequest(env.provider(k), env.provider(l)) ==> k == l
  }

  /** So what a handler recorded of an accepted contact is found under its request. */
  lemma RecordedIsFound(w: World, env: Env, r: World, k: Key)
    requires Records(w, env, r) && DistinctRequests(env)
    requires k in r.keys && k !in w.keys && IsContact(k) && env.provider(k).Accepted?
    requires !HasRequest(w.attempts, env.provider(k).requestId)
    ensures var found := FindByRequest(r.attempts, env.provider(k).requestId);
            found.Some? && CallOf(env, k, found.value)
  {
    var requestId := env.provider(k).requestId;
    assert RecordedIn(env, k, r.attempts, |w.attempts|);
    var i :| |w.attempts| <= i < |r.attempts| && CallOf(env, k, r.attempts[i]);
    NotFoundMeans(r.attempts, requestId, i);
    var j := FindByRequestIndex(r.attempts, requestId);
    NoneInPrefix(w.attempts, r.attempts, requestId, j);
    hide FindByRequest, UniqueIds, Noted;
    assert ComesFrom(w, env, r, r.attempts[j]);
    var l :| l in r.keys && l !in w.keys && CallOf(env, l, r.attempts[j]);
    assert SameRequest(env.provider(l), env.provider(k));
    assert l == k;
  }

  lemma NoneInPrefix(front: seq<Attempt>, attempts: seq<Attempt>, requestId: string, j: nat)
    requires front <= attempts && !HasRequest(front, requestId)
    requires j < |attempts| && attempts[j].requestId == Some(requestId)
    ensures j >= |front|
  {
  }

  lemma {:induction false} NotFoundMeans(attempts: seq<Attempt>, requestId: string, i: nat)
    requires i < |attempts|
    ensures FindByRequest(attempts, requestId).None? ==> attempts[i].requestId != Some(requestId)
  {
    if i > 0 {
      NotFoundMeans(attempts[1..], requestId, i - 1);
    }
  }

  /**
   * A first notification can be followed up: every contact the provider accepted is found
   * under its request, with its incident, recipient, channel and status.
   */
  lemma NotifiedCallsAreFound(w: World, env: Env, highEnabled: bool, incidentId: string, incident: Incident,
                              organization: string, resolution: Resolved, t: Target, c: Channel)
    requires FreshIds(w, env) && DistinctRequests(env)
    requires incidentId !in w.states && ShouldNotify(incident, highEnabled)
    requires t in resolution.targets && c in t.channels
    requires var k := DirectKey(incidentId, t.id, c);
             k !in w.keys && env.provider(k).Accepted? && !HasRequest(w.attempts, env.provider(k).requestId)
    ensures var k := DirectKey(incidentId, t.id, c);
            var r := HandleIncident(w, env, highEnabled, incidentId, incident, organization, resolution);
            var found := FindByRequest(r.attempts, env.provider(k).requestId);
            found.Some? && CallOf(env, k, found.value)
  {
    hide Dispatch, Records, FreshIds, DistinctRequests, Ids, CallOf, HasRequest;
    var r := HandleIncident(w, env, highEnabled, incidentId, incident, organization, resolution);
    var state := State(organization, Ids(resolution.targets), resolution.fallbackUsed, Active);
    var started := Logged(w.(states := w.states[incidentId := state]), incidentId, NotificationStarted);
    var noted := if resolution.fallbackUsed then Logged(started, incidentId, FallbackUsed) else started;
    DispatchClaims(noted, env, incidentId, resolution.targets);
    HandleIncidentRecords(w, env, highEnabled, incidentId, incident, organization, resolution);
    RecordedIsFound(w, env, r, DirectKey(incidentId, t.id, c));
  }

  // ----- Over runs -----

  lemma SameCallsTransitive(a: seq<Attempt>, b: seq<Attempt>, c: seq<Attempt>)
    requires SameCalls(a, b) && SameCalls(b, c)
    ensures SameCalls(a, c)
  {
  }

  lemma RecordsSameCalls(w: World, env: Env, r: World)
    requires Records(w, env, r) && UniqueIds(w.attempts) && FreshIds(w, env)
    ensures SameCalls(w.attempts, r.attempts) && UniqueIds(r.attempts)
  {
    hide CallOf;
    var n := |w.attempts|;
    forall i, j | 0 <= i < j < |r.attempts|
      ensures r.attempts[i].id != r.attempts[j].id
    {
      if j < n {
        assert r.attempts[i] == w.attempts[i] && r.attempts[j] == w.attempts[j];
      } else if i < n {
        assert r.attempts[i] == w.attempts[i];
        NewIdIsFresh(w, env, r, j);
      } else {
        assert r.attempts[n..][i - n] == r.attempts[i] && r.attempts[n..][j - n] == r.attempts[j];
      }
    }
  }

  lemma NewIdIsFresh(w: World, env: Env, r: World, j: nat)
    requires Records(w, env, r) && FreshIds(w, env) && |w.attempts| <= j < |r.attempts|
    ensures !HasId(w.attempts, r.attempts[j].id)
  {
    assert ComesFrom(w, env, r, r.attempts[j]);
  }

  lemma StatusSaved(attempts: seq<Attempt>, i: nat, status: Status)
    requires UniqueIds(attempts) && i < |attempts|
    ensures var r := Saved(attempts, attempts[i].(status := status));
            SameCalls(attempts, r) && UniqueIds(r) && |r| == |attempts|
  {
    SavedAt(attempts, attempts[i].(status := status), i);
  }

  /** No identifier drawn from here on is one of the stored attempts'. */
  lemma StatusKeepsFresh(w: World, env: Env, m: World)
    requires FreshIds(w, env) && SameCalls(w.attempts, m.attempts) && |m.attempts| == |w.attempts| && w.keys <= m.keys
    ensures FreshIds(m, env)
  {
  }

  lemma {:induction false} FindAttemptIndex(attempts: seq<Attempt>, id: string) returns (i: nat)
    requires FindAttempt(attempts, id).Some?
    ensures i < |attempts| && FindAttempt(attempts, id) == Some(attempts[i])
  {
    if attempts[0].id == id {
      i := 0;
    } else {
      var k := FindAttemptIndex(attempts[1..], id);
      i := k + 1;
    }
  }

  /** A handler that sets a status, writes elsewhere, and may fall back. */
  lemma FallbackKeepsCalls(w: World, env: Env, m: World, incidentId: string)
    requires UniqueIds(w.attempts) && FreshIds(w, env)
    requires SameCalls(w.attempts, m.attempts) && |m.attempts| == |w.attempts| && w.keys <= m.keys
    requires UniqueIds(m.attempts)
    ensures var r := Fallback(m, env, incidentId).attempts; SameCalls(w.attempts, r) && UniqueIds(r)
  {
    hide FreshIds, UniqueIds, Fallback, SameCalls;
    StatusKeepsFresh(w, env, m);
    FallbackRecords(m, env, incidentId);
    RecordsSameCalls(m, env, Fallback(m, env, incidentId));
    SameCallsTransitive(w.attempts, m.attempts, Fallback(m, env, incidentId).attempts);
  }

  lemma WebhookKeepsCalls(w: World, env: Env, requestId: string, status: Status)
    requires UniqueIds(w.attempts) && FreshIds(w, env)
    ensures var r := ProcessProviderEvent(w, env, requestId, status).attempts; SameCalls(w.attempts, r) && UniqueIds(r)
  {
    hide FreshIds, UniqueIds, Fallback, Saved, FindByRequest;
    if FindByRequest(w.attempts, requestId).Some? {
      var i := FindByRequestIndex(w.attempts, requestId);
      var current := w.attempts[i];
      var next := Updated(current.status, status);
      StatusSaved(w.attempts, i, next);
      var updated := w.(attempts := Saved(w.attempts, current.(status := next)));
      FallbackKeepsCalls(w, env, Logged(updated, current.incidentId, CallFailed(current.id)), current.incidentId);
    }
  }

  lemma VoiceKeepsCalls(w: World, env: Env, a: VoiceRequest)
    requires UniqueIds(w.attempts) && FreshIds(w, env)
    ensures var r := VoiceResponse(w, env, a).0.attempts; SameCalls(w.attempts, r) && UniqueIds(r)
  {
    hide FreshIds, UniqueIds, Fallback, Saved, FindAttempt, Repeated;
    if FindAttempt(w.attempts, a.attemptId).Some? {
      var i := FindAttemptIndex(w.attempts, a.attemptId);
      StatusSaved(w.attempts, i, Acknowledged);
      StatusSaved(w.attempts, i, Declined);
      var claimed := w.(keys := w.keys + {VoiceKey(a.incidentId, a.callId, a.action)});
      var saved := claimed.(attempts := Saved(claimed.attempts, w.attempts[i].(status := Declined)));
      FallbackKeepsCalls(w, env, Logged(saved, a.incidentId, IncidentDeclined(a.callId)), a.incidentId);
    }
  }

  /** The step draws fresh identifiers and purges nothing. */
  ghost predicate DrawsFresh(w: World, s: Step) {
    match s
    case IncidentMessage(env, _, _, _, _, _) => FreshIds(w, env)
    case ProviderWebhook(env, _, _) => FreshIds(w, env)
    case FallbackCall(env, _) => FreshIds(w, env)
    case VoiceTool(env, _) => FreshIds(w, env)
    case VoiceWebhook(env, _, _, _) => FreshIds(w, env)
    case EndUserMessage(env, _, _, _, _) => FreshIds(w, env)
    case RecordsPurged(_, _) => false
    case _ => true
  }

  lemma StepKeepsCalls(w: World, s: Step)
    requires UniqueIds(w.attempts) && DrawsFresh(w, s)
    ensures SameCalls(w.attempts, Next(w, s).attempts) && UniqueIds(Next(w, s).attempts)
  {
    hide FreshIds, UniqueIds, Records, HandleIncident, ProcessProviderEvent, Fallback, VoiceResponse,
         SendEndUserSms, FindByRequest;
    match s
    case IncidentMessage(env, high, id, incident, organization, resolution) =>
      HandleIncidentRecords(w, env, high, id, incident, organization, resolution);
      RecordsSameCalls(w, env, Next(w, s));
    case ProviderWebhook(env, requestId, status) => WebhookKeepsCalls(w, env, requestId, status);
    case FallbackCall(env, id) =>
      FallbackRecords(w, env, id);
      RecordsSameCalls(w, env, Next(w, s));
    case VoiceTool(env, request) => VoiceKeepsCalls(w, env, request);
    case VoiceWebhook(env, requestId, action, at) =>
      match FindByRequest(w.attempts, requestId) {
        case None =>
        case Some(attempt) =>
          VoiceKeepsCalls(w, env, VoiceRequest(attempt.incidentId, attempt.id, attempt.recipientId,
                                               requestId, action, at));
      }
    case EndUserMessage(env, id, contactId, kind, version) =>
      EndUserRecords(w, env, id, contactId, kind, version);
      RecordsSameCalls(w, env, Next(w, s));
    case SlackSignal(_, _, _, _, _, _) =>
    case ApiCall(_, _, _, _) =>
    case IncidentWritten(_, _) =>
  }

  ghost predicate RunDrawsFresh(w: World, steps: seq<Step>)
    decreases |steps|
  {
    steps == [] || (DrawsFresh(w, steps[0]) && RunDrawsFresh(Next(w, steps[0]), steps[1..]))
  }

  /** Over every run without a purge attempts stay in place, with all that identifies them. */
  lemma {:induction false} RunKeepsCalls(w: World, steps: seq<Step>)
    requires UniqueIds(w.attempts) && RunDrawsFresh(w, steps)
    ensures SameCalls(w.attempts, Run(w, steps).attempts) && UniqueIds(Run(w, steps).attempts)
    decreases |steps|
  {
    hide Next, UniqueIds, DrawsFresh;
    if steps != [] {
      hide SameCalls;
      StepKeepsCalls(w, steps[0]);
      RunKeepsCalls(Next(w, steps[0]), steps[1..]);
      SameCallsTransitive(w.attempts, Next(w, steps[0]).attempts, Run(w, steps).attempts);
    }
  }

  /** A contact that is sent now: unclaimed, accepted by the provider, under a new request. */
  ghost predicate SentNow(w: World, env: Env, k: Key) {
    && UniqueIds(w.attempts) && FreshIds(w, env) && k !in w.keys
    && env.provider(k).Accepted? && !HasRequest(w.attempts, env.provider(k).requestId)
  }

  /**
   * A sent contact is found under its request on every continuation without a purge, as
   * it was recorded but for its status.
   */
  lemma SentCallStaysFound(w: World, env: Env, incidentId: string, target: Target, channel: Channel, steps: seq<Step>)
    requires SentNow(w, env, DirectKey(incidentId, target.id, channel))
    requires RunDrawsFresh(Send(w, env, incidentId, target, channel), steps)
    ensures var key := DirectKey(incidentId, target.id, channel);
            var requestId := env.provider(key).requestId;
            var found := FindByRequest(Run(Send(w, env, incidentId, target, channel), steps).attempts, requestId);
            && found.Some?
            && found.value == Attempt(env.newId(key), incidentId, target.id, target.source, channel,
                                      Some(requestId), found.value.status)
  {
    hide Send, Run, FreshIds, RunDrawsFresh, UniqueIds, Records, FindByRequest;
    var key := DirectKey(incidentId, target.id, channel);
    var requestId := env.provider(key).requestId;
    var r := Send(w, env, incidentId, target, channel);
    SendRecordsOne(w, env, incidentId, target, channel);
    SendRecords(w, env, incidentId, target, channel);
    RecordsSameCalls(w, env, r);
    FindByRequestFirst(r.attempts, requestId, |w.attempts|);
    RunKeepsCalls(r, steps);
    FoundStaysFound(r.attempts, Run(r, steps).attempts, requestId);
  }

  /** So is a message to an end user. */
  lemma SentMessageStaysFound(w: World, env: Env, incidentId: string, contactId: string,
                              kind: CommunicationType, version: string, steps: seq<Step>)
    requires SentNow(w, env, EndUserKey(incidentId, contactId, kind, version))
    requires RunDrawsFresh(SendEndUserSms(w, env, incidentId, contactId, kind, version), steps)
    ensures var key := EndUserKey(incidentId, contactId, kind, version);
            var requestId := env.provider(key).requestId;
            var sent := SendEndUserSms(w, env, incidentId, contactId, kind, version);
            var found := FindByRequest(Run(sent, steps).attempts, requestId);
            && found.Some?
            && found.value == Attempt(env.newId(key), incidentId, contactId, EndUser, Sms,
                                      Some(requestId), found.value.status)
  {
    hide SendEndUserSms, Run, FreshIds, RunDrawsFresh, UniqueIds, Records, FindByRequest;
    var key := EndUserKey(incidentId, contactId, kind, version);
    var requestId := env.provider(key).requestId;
    var r := SendEndUserSms(w, env, incidentId, contactId, kind, version);
    EndUserRecordsOne(w, env, incidentId, contactId, kind, version);
    EndUserRecords(w, env, incidentId, contactId, kind, version);
    RecordsSameCalls(w, env, r);
    FindByRequestFirst(r.attempts, requestId, |w.attempts|);
    RunKeepsCalls(r, steps);
    FoundStaysFound(r.attempts, Run(r, steps).attempts, requestId);
  }

  /**
   * So an engineer's call escalates: once sent, whenever its provider reports that it
   * ended unanswered while the incident is still ACTIVE and open and the call not yet
   * over, the administrators are reached on every channel.
   */
  lemma SentCallEscalates(w: World, env: Env, incidentId: string, target: Target, steps: seq<Step>,
                          later: Env, status: Status)
    requires Ledger(w) && IsActive(w, incidentId) && target.source == AssignedSre && CallEnded(status)
    requires SentNow(w, env, DirectKey(incidentId, target.id, Voice))
    requires RunDrawsFresh(Send(w, env, incidentId, target, Voice), steps)
    requires var v := Run(Send(w, env, incidentId, target, Voice), steps);
             var found := FindByRequest(v.attempts, env.provider(DirectKey(incidentId, target.id, Voice)).requestId);
             CanEscalate(v, incidentId) && (found.Some? ==> !Terminal(found.value.status))
    ensures var requestId := env.provider(DirectKey(incidentId, target.id, Voice)).requestId;
            var v := Run(Send(w, env, incidentId, target, Voice), steps);
            Escalated(v, later, incidentId, ProcessProviderEvent(v, later, requestId, status))
  {
    hide Send, Run, RunDrawsFresh, FreshIds, UniqueIds, HasRequest, FindByRequest, ProcessProviderEvent,
         Ledger, Advances, Escalated;
    var sent := Send(w, env, incidentId, target, Voice);
    SentCallStaysFound(w, env, incidentId, target, Voice, steps);
    SendAdvances(w, env, incidentId, target, Voice);
    LedgerKept(w, sent);
    RunAdvances(sent, steps);
    LedgerKept(sent, Run(sent, steps));
    var requestId := env.provider(DirectKey(incidentId, target.id, Voice)).requestId;
    EndedCallEscalates(Run(sent, steps), later, requestId, status);
  }

  // ----- Whose acknowledgement -----

  /** The step acknowledges the incident, in these words. */
  predicate AcknowledgesAs(w: World, s: Step, i: string, ack: Acknowledgement) {
    match s
    case SlackSignal(eventId, user, at, ticket, _, _) =>
      ticket == Some(i) && ack == Acknowledgement(user, at, BySlack(eventId))
    case ApiCall(id, user, at, _) => id == i && ack == Acknowledgement(user, at, ByApi)
    case VoiceTool(_, a) => a.incidentId == i && a.action == AcknowledgeIncident && ack == AckBy(a)
    case VoiceWebhook(_, requestId, action, at) =>
      && action == AcknowledgeIncident && FindByRequest(w.attempts, requestId).Some?
      && var call := FindByRequest(w.attempts, requestId).value;
         call.incidentId == i && ack == Acknowledgement(call.recipientId, at, ByCall(call.id, requestId))
    case _ => false
  }

  lemma VoiceAcknowledges(w: World, env: Env, a: VoiceRequest, i: string)
    requires i !in w.acks && i in VoiceResponse(w, env, a).0.acks
    ensures a.incidentId == i && a.action == AcknowledgeIncident && VoiceResponse(w, env, a).0.acks[i] == AckBy(a)
  {
    VoiceReplyIsTruthful(w, env, a);
    hide Saved, Fallback, FindAttempt, Repeated;
  }

  lemma SlackAcknowledges(w: World, s: Step, i: string)
    requires s.SlackSignal? && i !in w.acks && i in Next(w, s).acks
    ensures AcknowledgesAs(w, s, i, Next(w, s).acks[i])
  {
  }

  lemma ApiAcknowledges(w: World, s: Step, i: string)
    requires s.ApiCall? && i !in w.acks && i in Next(w, s).acks
    ensures AcknowledgesAs(w, s, i, Next(w, s).acks[i])
  {
  }

  /** The steps that acknowledge nothing. */
  lemma OthersKeepAcks(w: World, s: Step)
    requires !s.VoiceTool? && !s.VoiceWebhook? && !s.SlackSignal? && !s.ApiCall?
    ensures Next(w, s).acks == w.acks
  {
    hide Dispatch, Saved, Fallback, FindByRequest, Updated;
  }

  lemma WebhookAcknowledges(w: World, s: Step, i: string)
    requires s.VoiceWebhook? && i !in w.acks && i in Next(w, s).acks
    ensures AcknowledgesAs(w, s, i, Next(w, s).acks[i])
  {
    hide VoiceResponse, FindByRequest;
    if FindByRequest(w.attempts, s.requestId).Some? {
      var call := FindByRequest(w.attempts, s.requestId).value;
      var request := VoiceRequest(call.incidentId, call.id, call.recipientId, s.requestId, s.action, s.at);
      if i in VoiceResponse(w, s.env, request).0.acks {
        VoiceAcknowledges(w, s.env, request, i);
      }
    }
  }

  lemma StepAcknowledges(w: World, s: Step, i: string)
    requires i !in w.acks && i in Next(w, s).acks
    ensures AcknowledgesAs(w, s, i, Next(w, s).acks[i])
  {
    hide VoiceResponse, HandleIncident, ProcessProviderEvent, Fallback, FindByRequest, SlackAcknowledge,
         ApiAcknowledge, SendEndUserSms;
    match s
    case VoiceTool(env, a) => VoiceAcknowledges(w, env, a, i);
    case VoiceWebhook(_, _, _, _) => WebhookAcknowledges(w, s, i);
    case SlackSignal(_, _, _, _, _, _) => SlackAcknowledges(w, s, i);
    case ApiCall(_, _, _, _) => ApiAcknowledges(w, s, i);
    case _ => OthersKeepAcks(w, s);
  }

  ghost predicate AcknowledgedAt(w: World, steps: seq<Step>, i: string, k: nat) {
    k < |steps| && i !in Run(w, steps[..k]).acks && i in Run(w, steps).acks
    && AcknowledgesAs(Run(w, steps[..k]), steps[k], i, Run(w, steps).acks[i])
  }

  /** Over every run the stored acknowledgement is that of the first step that stored one. */
  lemma {:induction false} AcknowledgementIsOfTheFirst(w: World, steps: seq<Step>, i: string) returns (k: nat)
    requires i !in w.acks && i in Run(w, steps).acks
    ensures AcknowledgedAt(w, steps, i, k)
    decreases |steps|
  {
    hide Next, AcknowledgesAs;
    var next, rest := Next(w, steps[0]), steps[1..];
    if i in next.acks {
      k := 0;
      StepAcknowledges(w, steps[0], i);
      FirstAcknowledgementStands(next, rest, i);
      assert steps[..0] == [];
    } else {
      var l := AcknowledgementIsOfTheFirst(next, rest, i);
      k := l + 1;
      assert steps[..k][1..] == rest[..l];
    }
  }
}
