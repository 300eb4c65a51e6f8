/**
 * What the handlers answer and what they leave in the stores: notification states, the
 * audit trail, attempts and replies, stated by the fields that later steps look at.
 */
module NotificationTrail {
  import opened Basics
  import opened AttemptStatus
  import opened NotificationWorld
  import opened NotificationRuns
  import opened NotificationRecords

  predicate Said(w: World, incidentId: string, event: AuditEvent) {
    AuditRecord(incidentId, event) in w.audit
  }

  // ----- Contacts leave states and the trail alone -----

  /** More recipients and a used fallback at most. */
  predicate Widened(was: State, now: State) {
    && now.organization == was.organization && now.stage == was.stage
    && (was.fallbackUsed ==> now.fallbackUsed)
    && (forall id :: id in was.recipients ==> id in now.recipients)
  }

  /** Nothing said is taken back, and no state changes but the incident's, which may widen. */
  ghost predicate Widens(w: World, r: World, i: string) {
    && w.audit <= r.audit && r.states.Keys == w.states.Keys
    && (forall j :: j in w.states && j != i ==> r.states[j] == w.states[j])
    && (i in w.states ==> Widened(w.states[i], r.states[i]))
    && (FallbackKey(i) in w.keys ==> r.states == w.states)
    && w.keys <= r.keys
  }

  lemma WidensTransitive(a: World, b: World, c: World, i: string)
    requires Widens(a, b, i) && Widens(b, c, i)
    ensures Widens(a, c, i)
  {
  }

  lemma QuietWidens(w: World, r: World, i: string)
    requires r.states == w.states && w.audit <= r.audit && w.keys <= r.keys
    ensures Widens(w, r, i)
  {
  }

  lemma {:induction false} UniqueMeaning(s: seq<string>)
    ensures forall x :: x in Unique(s) <==> x in s
    ensures forall i, j :: 0 <= i < j < |Unique(s)| ==> Unique(s)[i] != Unique(s)[j]
  {
    if s != [] {
      UniqueMeaning(s[..|s| - 1]);
      assert s == s[..|s| - 1] + [s[|s| - 1]];
    }
  }

  /** Those listed first stay first, in their order. */
  lemma {:induction false} UniqueKeepsFront(a: seq<string>, b: seq<string>)
    ensures Unique(a) <= Unique(a + b)
  {
    if b == [] {
      assert a + b == a;
    } else {
      UniqueKeepsFront(a, b[..|b| - 1]);
      assert (a + b)[..|a + b| - 1] == a + b[..|b| - 1];
    }
  }

  lemma SendWidens(w: World, env: Env, incidentId: string, target: Target, channel: Channel)
    ensures Widens(w, Send(w, env, incidentId, target, channel), incidentId)
    decreases FallbacksLeft(w, incidentId), 1, 0
  {
    hide Saved, Unique, Widens;
    var key := DirectKey(incidentId, target.id, channel);
    var r := Send(w, env, incidentId, target, channel);
    if key in w.keys || env.provider(key).Accepted? || channel != Voice || target.source != AssignedSre {
      QuietWidens(w, r, incidentId);
    } else {
      var attempt := Attempt(env.newId(key), incidentId, target.id, target.source, channel, None, Pending);
      var asked := w.(keys := w.keys + {key}, attempts := Saved(w.attempts, attempt), effects := w.effects + [key]);
      var failed := Logged(asked.(attempts := Saved(asked.attempts, attempt.(status := Failed))),
                           incidentId, CallFailed(attempt.id));
      QuietWidens(w, failed, incidentId);
      FallbackWidens(failed, env, incidentId);
      WidensTransitive(w, failed, r, incidentId);
    }
  }

  lemma SendChannelsWidens(w: World, env: Env, incidentId: string, target: Target, channels: seq<Channel>)
    ensures Widens(w, SendChannels(w, env, incidentId, target, channels), incidentId)
    decreases FallbacksLeft(w, incidentId), 2, |channels|
  {
    hide Saved, Unique, Widens;
    if channels == [] {
      QuietWidens(w, w, incidentId);
    } else {
      var sent := Send(w, env, incidentId, target, channels[0]);
      SendWidens(w, env, incidentId, target, channels[0]);
      SendChannelsWidens(sent, env, incidentId, target, channels[1..]);
      WidensTransitive(w, sent, SendChannels(w, env, incidentId, target, channels), incidentId);
    }
  }

  lemma DispatchWidens(w: World, env: Env, incidentId: string, targets: seq<Target>)
    ensures var r := Dispatch(w, env, incidentId, targets);
            Widens(w, r, incidentId) && forall t :: t in targets ==> Said(r, incidentId, RecipientResolved(t.id))
    decreases FallbacksLeft(w, incidentId), 3, |targets|
  {
    hide Saved, Unique, Widens;
    if targets == [] {
      QuietWidens(w, w, incidentId);
    } else {
      var resolved := Logged(w, incidentId, RecipientResolved(targets[0].id));
      var sent := SendChannels(resolved, env, incidentId, targets[0], targets[0].channels);
      var r := Dispatch(sent, env, incidentId, targets[1..]);
      QuietWidens(w, resolved, incidentId);
      SendChannelsWidens(resolved, env, incidentId, targets[0], targets[0].channels);
      WidensTransitive(w, resolved, sent, incidentId);
      DispatchWidens(sent, env, incidentId, targets[1..]);
      WidensTransitive(w, sent, r, incidentId);
      TrailGrows(resolved, sent, incidentId);
      TrailGrows(sent, r, incidentId);
    }
  }

  lemma TrailGrows(w: World, r: World, i: string)
    requires Widens(w, r, i)
    ensures w.audit <= r.audit && forall x :: x in w.audit ==> x in r.audit
  {
  }

  lemma FallbackWidens(w: World, env: Env, incidentId: string)
    ensures Widens(w, Fallback(w, env, incidentId), incidentId)
    decreases FallbacksLeft(w, incidentId), 0, 0
  {
    hide Saved, Unique, Widens;
    var key := FallbackKey(incidentId);
    var r := Fallback(w, env, incidentId);
    if !IsActive(w, incidentId) || key in w.keys || incidentId !in w.incidents || w.incidents[incidentId].resolved {
      QuietWidens(w, r, incidentId);
    } else {
      var state, admins := w.states[incidentId], env.admins(w.states[incidentId].organization);
      var widened := state.(recipients := Unique(state.recipients + Ids(admins)), fallbackUsed := true);
      var claimed := w.(keys := w.keys + {key}, effects := w.effects + [key]);
      var noted := Logged(claimed.(states := claimed.states[incidentId := widened]), incidentId, FallbackUsed);
      DispatchWidens(noted, env, incidentId, admins);
      UniqueMeaning(state.recipients + Ids(admins));
      WidenedOnce(w, noted, incidentId);
      WidensTransitive(w, noted, r, incidentId);
    }
  }

  lemma WidenedOnce(w: World, r: World, i: string)
    requires i in w.states && i in r.states && r.states == w.states[i := r.states[i]]
    requires Widened(w.states[i], r.states[i]) && w.audit <= r.audit && w.keys <= r.keys && FallbackKey(i) !in w.keys
    ensures Widens(w, r, i)
  {
  }

  // ----- Escalation -----

  /** An escalation adds the administrators to the recipients, behind the present ones, and says so. */
  lemma EscalationMeaning(w: World, env: Env, incidentId: string)
    requires CanEscalate(w, incidentId)
    ensures var r := Fallback(w, env, incidentId);
            var was, admins := w.states[incidentId], AdminsOf(w, env, incidentId);
            && incidentId in r.states && r.states == w.states[incidentId := r.states[incidentId]]
            && var now := r.states[incidentId];
               && now == was.(recipients := now.recipients, fallbackUsed := true)
               && Unique(was.recipients) <= now.recipients
               && (forall id :: id in now.recipients <==> id in was.recipients || exists t :: t in admins && t.id == id)
               && (forall a, b :: 0 <= a < b < |now.recipients| ==> now.recipients[a] != now.recipients[b])
               && Said(r, incidentId, FallbackUsed)
               && forall t :: t in admins ==> Said(r, incidentId, RecipientResolved(t.id))
  {
    hide Saved, Unique, Dispatch, Ids;
    var key := FallbackKey(incidentId);
    var state, admins := w.states[incidentId], AdminsOf(w, env, incidentId);
    var listed := state.recipients + Ids(admins);
    var widened := state.(recipients := Unique(listed), fallbackUsed := true);
    var claimed := w.(keys := w.keys + {key}, effects := w.effects + [key]);
    var noted := Logged(claimed.(states := claimed.states[incidentId := widened]), incidentId, FallbackUsed);
    DispatchWidens(noted, env, incidentId, admins);
    UniqueMeaning(listed);
    UniqueKeepsFront(state.recipients, Ids(admins));
    IdsMeaning(admins);
    var r := Fallback(w, env, incidentId);
    assert r.states == noted.states;
    assert AuditRecord(incidentId, FallbackUsed) in noted.audit;
    TrailGrows(noted, r, incidentId);
  }

  lemma IdsMeaning(targets: seq<Target>)
    ensures forall id :: id in Ids(targets) <==> exists t :: t in targets && t.id == id
  {
    var ids := Ids(targets);
    forall id
      ensures id in ids <==> exists t :: t in targets && t.id == id
    {
      if id in ids {
        var k :| 0 <= k < |ids| && ids[k] == id;
        assert targets[k] in targets && targets[k].id == id;
      }
      if t :| t in targets && t.id == id {
        var k :| 0 <= k < |targets| && targets[k] == t;
        assert ids[k] == id;
      }
    }
  }

  // ----- Incident messages -----

  /** Which incidents begin to be notified, and the state and trail that leaves. */
  lemma NotificationMeaning(w: World, env: Env, highEnabled: bool, incidentId: string, incident: Incident,
                            organization: string, resolution: Resolved)
    requires incidentId !in w.states
    ensures var r := HandleIncident(w, env, highEnabled, incidentId, incident, organization, resolution);
            var due := !incident.resolved
                       && (incident.severity == Critical || (incident.severity == High && highEnabled));
            && (incidentId in r.states <==> due) && (!due ==> r == w)
            && (due ==>
                  && r.states[incidentId].organization == organization && r.states[incidentId].stage == Active
                  && (resolution.fallbackUsed ==>
                        r.states[incidentId].fallbackUsed && Said(r, incidentId, FallbackUsed))
                  && Said(r, incidentId, NotificationStarted)
                  && forall t :: t in resolution.targets ==>
                       t.id in r.states[incidentId].recipients && Said(r, incidentId, RecipientResolved(t.id)))
  {
    hide Dispatch, Ids;
    if ShouldNotify(incident, highEnabled) {
      var state := State(organization, Ids(resolution.targets), resolution.fallbackUsed, Active);
      var started := Logged(w.(states := w.states[incidentId := state]), incidentId, NotificationStarted);
      var noted := if resolution.fallbackUsed then Logged(started, incidentId, FallbackUsed) else started;
      DispatchWidens(noted, env, incidentId, resolution.targets);
      IdsMeaning(resolution.targets);
      assert AuditRecord(incidentId, NotificationStarted) in started.audit;
      assert resolution.fallbackUsed ==> AuditRecord(incidentId, FallbackUsed) in noted.audit;
      TrailGrows(noted, Dispatch(noted, env, incidentId, resolution.targets), incidentId);
    }
  }

  /** A later message is ignored unless it ends the incident, or nobody was resolved the first time. */
  lemma RepeatedMessageMeaning(w: World, env: Env, highEnabled: bool, incidentId: string, incident: Incident,
                               organization: string, resolution: Resolved)
    requires incidentId in w.states
    ensures var r := HandleIncident(w, env, highEnabled, incidentId, incident, organization, resolution);
            var was := w.states[incidentId];
            && (incident.resolved && was.stage == Closed ==> r == w)
            && (incident.resolved && was.stage != Closed ==>
                  && r.states == w.states[incidentId := was.(stage := Closed)]
                  && r.audit == w.audit + [AuditRecord(incidentId, IncidentResolved)]
                  && r.keys == w.keys && r.attempts == w.attempts && r.acks == w.acks && r.effects == w.effects)
            && (!incident.resolved && (was.stage != Active || was.recipients != []) ==> r == w)
  {
  }

  // ----- Provider webhooks -----

  /** What a webhook changes: the status of the attempt found, and what is said about it. */
  lemma WebhookMeaning(w: World, env: Env, requestId: string, status: Status)
    requires UniqueIds(w.attempts) && FreshIds(w, env)
    ensures var r := ProcessProviderEvent(w, env, requestId, status);
            var found := FindByRequest(w.attempts, requestId);
            if found.None? || Updated(found.value.status, status) == found.value.status then r == w
            else
              var a := found.value;
              && FindByRequest(r.attempts, requestId) == Some(a.(status := Updated(a.status, status)))
              && (status == Answered ==>
                    Said(r, a.incidentId, CallAnswered(a.id)) && Said(r, a.incidentId, AcknowledgementRequested(a.id)))
              && (status in {Failed, NoAnswer, Cancelled, Declined} ==> Said(r, a.incidentId, CallFailed(a.id)))
              && (a.channel != Voice || a.source != AssignedSre
                  || status !in {Failed, NoAnswer, Cancelled, Declined} ==>
                    r.effects == w.effects && r.keys == w.keys && r.states == w.states && r.acks == w.acks)
  {
    hide Fallback, Saved, FindByRequest, Updated, FreshIds, UniqueIds, SameCalls;
    var found := FindByRequest(w.attempts, requestId);
    if found.Some? && Updated(found.value.status, status) != found.value.status {
      var a := found.value;
      var next := Updated(a.status, status);
      var i := FindByRequestIndex(w.attempts, requestId);
      StatusSaved(w.attempts, i, next);
      SavedStatusIsFound(w.attempts, i, next, requestId);
      var updated := w.(attempts := Saved(w.attempts, a.(status := next)));
      StatusKeepsFresh(w, env, updated);
      FoundStaysEqual(updated, env, a.incidentId, requestId);
      var answered :=
        if status != Answered then updated
        else Logged(Logged(updated, a.incidentId, CallAnswered(a.id)), a.incidentId, AcknowledgementRequested(a.id));
      var ended := Logged(answered, a.incidentId, CallFailed(a.id));
      assert Said(ended, a.incidentId, CallFailed(a.id));
      QuietKeepsFresh(updated, env, ended);
      FoundStaysEqual(ended, env, a.incidentId, requestId);
      FallbackWidens(ended, env, a.incidentId);
      TrailGrows(ended, Fallback(ended, env, a.incidentId), a.incidentId);
    }
  }

  lemma SavedStatusIsFound(attempts: seq<Attempt>, i: nat, status: Status, requestId: string)
    requires UniqueIds(attempts) && i < |attempts| && attempts[i].requestId == Some(requestId)
    requires forall j :: 0 <= j < i ==> attempts[j].requestId != Some(requestId)
    ensures FindByRequest(Saved(attempts, attempts[i].(status := status)), requestId)
         == Some(attempts[i].(status := status))
  {
    SavedAt(attempts, attempts[i].(status := status), i);
    FindByRequestFirst(attempts[i := attempts[i].(status := status)], requestId, i);
  }

  /** A fallback changes nothing about attempts recorded before. */
  lemma FoundStaysEqual(w: World, env: Env, incidentId: string, requestId: string)
    requires FreshIds(w, env) && FindByRequest(w.attempts, requestId).Some?
    ensures FindByRequest(Fallback(w, env, incidentId).attempts, requestId) == FindByRequest(w.attempts, requestId)
  {
    hide Fallback, FindByRequest, FreshIds;
    FallbackRecords(w, env, incidentId);
    var i := FindByRequestIndex(w.attempts, requestId);
    FindByRequestFirst(Fallback(w, env, incidentId).attempts, requestId, i);
  }

  // ----- Voice replies -----

  /** The request names the call of a stored attempt, its recipient and its incident. */
  predicate Matches(w: World, a: VoiceRequest, attempt: Attempt) {
    && attempt.id == a.attemptId && attempt.incidentId == a.incidentId && attempt.channel == Voice
    && attempt.recipientId == a.recipientId && attempt.requestId == Some(a.callId)
  }

  lemma {:induction false} FindAttemptMeaning(attempts: seq<Attempt>, i: nat)
    requires UniqueIds(attempts) && i < |attempts|
    ensures FindAttempt(attempts, attempts[i].id) == Some(attempts[i])
    decreases attempts
  {
    if i > 0 {
      assert attempts[0].id != attempts[i].id;
      assert forall j, k :: 0 <= j < k < |attempts[1..]| ==> attempts[1..][j].id != attempts[1..][k].id;
      FindAttemptMeaning(attempts[1..], i - 1);
    }
  }

  /** The voice request could decide the incident, were it not for claims, actions and repeats. */
  predicate Undecided(w: World, i: string) {
    && i in w.incidents && !w.incidents[i].resolved && i in w.states && w.states[i].stage == Active && i !in w.acks
  }

  /** A voice acknowledgement that counts. */
  lemma VoiceCanAcknowledge(w: World, env: Env, a: VoiceRequest, k: nat)
    requires UniqueIds(w.attempts) && k < |w.attempts| && Matches(w, a, w.attempts[k]) && Undecided(w, a.incidentId)
    requires a.action == AcknowledgeIncident && env.commits
    requires VoiceKey(a.incidentId, a.callId, AcknowledgeIncident) !in w.keys
    requires !Said(w, a.incidentId, IncidentAcknowledged(Some(a.callId)))
    ensures var (r, reply) := VoiceResponse(w, env, a);
            && reply == NowAcknowledged
            && r.states == w.states[a.incidentId := w.states[a.incidentId].(stage := Acked)]
            && r.acks == w.acks[a.incidentId := AckBy(a)]
            && r.attempts == w.attempts[k := w.attempts[k].(status := Acknowledged)]
            && r.audit == w.audit + [AuditRecord(a.incidentId, IncidentAcknowledged(Some(a.callId))),
                                     AuditRecord(a.incidentId, NotificationStopped)]
            && r.effects == w.effects && VoiceResponse(r, env, a) == (r, AlreadyAcknowledged)
  {
    hide Saved, FindAttempt;
    FindAttemptMeaning(w.attempts, k);
    var saved := w.attempts[k].(status := Acknowledged);
    SavedAt(w.attempts, saved, k);
    var r := VoiceResponse(w, env, a).0;
    assert UniqueIds(r.attempts) && r.attempts[k] == saved;
    FindAttemptMeaning(r.attempts, k);
    assert AuditRecord(a.incidentId, IncidentAcknowledged(Some(a.callId))) in r.audit;
  }

  /** A decline that counts: it is recorded, and its repetition changes nothing. */
  lemma VoiceCanDecline(w: World, env: Env, a: VoiceRequest, k: nat)
    requires UniqueIds(w.attempts) && FreshIds(w, env)
    requires k < |w.attempts| && Matches(w, a, w.attempts[k]) && Undecided(w, a.incidentId)
    requires a.action == DeclineIncident && VoiceKey(a.incidentId, a.callId, DeclineIncident) !in w.keys
    requires !Said(w, a.incidentId, IncidentDeclined(a.callId))
    ensures var (r, reply) := VoiceResponse(w, env, a);
            && reply == NowDeclined && Said(r, a.incidentId, IncidentDeclined(a.callId))
            && k < |r.attempts| && r.attempts[k] == w.attempts[k].(status := Declined)
            && VoiceResponse(r, env, a) == (r, AlreadyDeclined)
  {
    hide Saved, FindAttempt, Fallback, FreshIds;
    FindAttemptMeaning(w.attempts, k);
    var saved := w.attempts[k].(status := Declined);
    SavedAt(w.attempts, saved, k);
    StatusSaved(w.attempts, k, Declined);
    var claimed := w.(keys := w.keys + {VoiceKey(a.incidentId, a.callId, a.action)});
    var updated := claimed.(attempts := Saved(claimed.attempts, saved));
    var declined := Logged(updated, a.incidentId, IncidentDeclined(a.callId));
    assert Said(declined, a.incidentId, IncidentDeclined(a.callId));
    StatusKeepsFresh(w, env, declined);
    FallbackRecords(declined, env, a.incidentId);
    RecordsSameCalls(declined, env, Fallback(declined, env, a.incidentId));
    FallbackWidens(declined, env, a.incidentId);
    TrailGrows(declined, Fallback(declined, env, a.incidentId), a.incidentId);
    var r := VoiceResponse(w, env, a).0;
    assert r == Fallback(declined, env, a.incidentId);
    assert r.attempts[k] == saved;
    FindAttemptMeaning(r.attempts, k);
  }

  predicate Matched(w: World, a: VoiceRequest) {
    exists k :: 0 <= k < |w.attempts| && Matches(w, a, w.attempts[k])
  }

  /** The audit trail says that this call has acknowledged or declined already. */
  predicate SaidBefore(w: World, a: VoiceRequest) {
    || (a.action == AcknowledgeIncident && Said(w, a.incidentId, IncidentAcknowledged(Some(a.callId))))
    || (a.action == DeclineIncident && Said(w, a.incidentId, IncidentDeclined(a.callId)))
  }

  lemma DecideReplies(w: World, env: Env, a: VoiceRequest, attempt: Attempt)
    requires a.incidentId in w.states
    ensures Decide(w, env, a, attempt).1
         in {AlreadyAcknowledged, AlreadyDeclined, VoiceFailed, NowAcknowledged, NowDeclined}
  {
    hide Saved, Fallback;
  }

  /** Which voice requests are refused, with which reply: they change nothing. */
  lemma VoiceRefusals(w: World, env: Env, a: VoiceRequest)
    requires UniqueIds(w.attempts)
    ensures var (r, reply) := VoiceResponse(w, env, a);
            var known, matched := a.incidentId in w.incidents, Matched(w, a);
            && (reply == NotFound <==> !known) && (reply == BadRequest <==> known && !matched)
            && (known && matched && SaidBefore(w, a) ==>
                  reply == if a.action == AcknowledgeIncident then AlreadyAcknowledged else AlreadyDeclined)
            && (reply == Conflict <==> known && matched && !SaidBefore(w, a) && a.incidentId !in w.states)
            && (!known || !matched || SaidBefore(w, a) || a.incidentId !in w.states ==> r == w)
  {
    MatchedIsFound(w, a);
    hide Decide, FindAttempt, UniqueIds, Matched;
    assert Repeated(w, a) == SaidBefore(w, a);
    FoundAttempt(w.attempts, a.attemptId);
    match FindAttempt(w.attempts, a.attemptId)
    case None =>
      assert VoiceResponse(w, env, a) == (w, if a.incidentId in w.incidents then BadRequest else NotFound);
    case Some(attempt) =>
      hide Repeated, SaidBefore;
      if a.incidentId in w.states {
        DecideReplies(w, env, a, attempt);
      }
  }

  /** Which requests about a begun incident leave it as it is, with which reply. */
  lemma VoiceSettled(w: World, env: Env, a: VoiceRequest)
    requires UniqueIds(w.attempts)
    requires a.incidentId in w.incidents && Matched(w, a) && !SaidBefore(w, a) && a.incidentId in w.states
    ensures var (r, reply) := VoiceResponse(w, env, a);
            var i := a.incidentId;
            var ended := w.incidents[i].resolved || w.states[i].stage == Closed;
            var acked := !ended && (w.states[i].stage == Acked || i in w.acks);
            && (reply == NoLongerRequired <==> ended) && (acked ==> reply == AlreadyAcknowledged && r == w)
            && (reply == NotUnderstood <==> !ended && !acked && a.action == UnknownAction)
            && (ended || reply == NotUnderstood ==>
                  r == w.(audit := w.audit + [AuditRecord(i, AcknowledgementRejected(a.callId))]))
  {
    MatchedIsFound(w, a);
    DecideReplies(w, env, a, FindAttempt(w.attempts, a.attemptId).value);
    hide Decide, FindAttempt, UniqueIds, Matched;
  }

  lemma MatchedIsFound(w: World, a: VoiceRequest)
    requires UniqueIds(w.attempts)
    ensures Matched(w, a)
       <==> FindAttempt(w.attempts, a.attemptId).Some? && Matches(w, a, FindAttempt(w.attempts, a.attemptId).value)
  {
    if k :| 0 <= k < |w.attempts| && Matches(w, a, w.attempts[k]) {
      FindAttemptMeaning(w.attempts, k);
    }
    FoundAttempt(w.attempts, a.attemptId);
    if FindAttempt(w.attempts, a.attemptId).Some? {
      var k := FindAttemptIndex(w.attempts, a.attemptId);
    }
  }

  /** A sent call can acknowledge: by its webhook as well, the request being rebuilt from the attempt. */
  lemma SentCallCanAcknowledge(w: World, env: Env, incidentId: string, target: Target, steps: seq<Step>,
                               later: Env, at: int)
    requires SentNow(w, env, DirectKey(incidentId, target.id, Voice)) && later.commits
    requires RunDrawsFresh(Send(w, env, incidentId, target, Voice), steps)
    requires var v := Run(Send(w, env, incidentId, target, Voice), steps);
             var callId := env.provider(DirectKey(incidentId, target.id, Voice)).requestId;
             && Undecided(v, incidentId) && VoiceKey(incidentId, callId, AcknowledgeIncident) !in v.keys
             && !Said(v, incidentId, IncidentAcknowledged(Some(callId)))
    ensures var key := DirectKey(incidentId, target.id, Voice);
            var callId := env.provider(key).requestId;
            var v := Run(Send(w, env, incidentId, target, Voice), steps);
            var (r, reply) := ProviderResponse(v, later, callId, AcknowledgeIncident, at);
            && reply == Some(NowAcknowledged) && Stopped(r, incidentId) && incidentId in r.acks
            && r.acks[incidentId] == Acknowledgement(target.id, at, ByCall(env.newId(key), callId))
  {
    hide Send, Run, RunDrawsFresh, FreshIds, HasRequest, FindByRequest, VoiceResponse, UniqueIds, Records, Said;
    var key := DirectKey(incidentId, target.id, Voice);
    var callId := env.provider(key).requestId;
    var sent := Send(w, env, incidentId, target, Voice);
    var v := Run(sent, steps);
    SentCallStaysFound(w, env, incidentId, target, Voice, steps);
    SendRecords(w, env, incidentId, target, Voice);
    RecordsSameCalls(w, env, sent);
    RunKeepsCalls(sent, steps);
    var k := FindByRequestIndex(v.attempts, callId);
    var request := VoiceRequest(incidentId, env.newId(key), target.id, callId, AcknowledgeIncident, at);
    VoiceCanAcknowledge(v, later, request, k);
  }

  /** A webhook reply for no known call, or for a message, is ignored. */
  lemma WebhookReplyMeaning(w: World, env: Env, callId: string, action: VoiceAction, at: int)
    ensures var found := FindByRequest(w.attempts, callId);
            if found.None? || found.value.channel == Sms then ProviderResponse(w, env, callId, action, at) == (w, None)
            else
              var a := found.value;
              var request := VoiceRequest(a.incidentId, a.id, a.recipientId, callId, action, at);
              var (r, reply) := VoiceResponse(w, env, request);
              ProviderResponse(w, env, callId, action, at) == (r, Some(reply))
  {
    hide VoiceResponse, FindByRequest;
  }

  // ----- Slack and API replies -----

  /** What a Slack acknowledgement answers and stores; its claim is kept unless a failure releases it. */
  lemma SlackMeaning(w: World, eventId: string, user: string, at: int, ticket: Option<string>,
                     fault: StoreFault, released: bool)
    ensures var (r, reply) := SlackAcknowledge(w, eventId, user, at, ticket, fault, released);
            var key := SlackKey(eventId);
            var begun := key !in w.keys && fault != AtLookup;
            var open := begun && ticket.Some? && ticket.value in w.incidents && !w.incidents[ticket.value].resolved;
            var stores := open && ticket.value !in w.acks;
            && (reply == Duplicate <==> key in w.keys) && (reply == Duplicate ==> r == w)
            && (reply == TicketNotFound <==> begun && ticket == None)
            && (reply == SlackResolved <==> begun && ticket.Some? && !open)
            && (reply == SlackAlready <==> open && !stores)
            && (r.keys == if reply == SlackFailed && released then w.keys - {key} else w.keys + {key})
            && r.effects == w.effects && r.attempts == w.attempts
            && (!stores ==> r.acks == w.acks && r.states == w.states && r.audit == w.audit)
            && (stores ==>
                  var i, active := ticket.value, IsActive(w, ticket.value);
                  && r.acks == w.acks[i := Acknowledgement(user, at, BySlack(eventId))]
                  && r.states == (if active && fault != AtState then w.states[i := w.states[i].(stage := Acked)]
                                  else w.states)
                  && (fault in {AtState, AtAudit} ==> r.audit == w.audit && reply == SlackFailed)
                  && (fault !in {AtState, AtAudit} && !active ==>
                        r.audit == w.audit + [AuditRecord(i, IncidentAcknowledged(None))] && reply == SlackAcknowledged)
                  && (fault == AtLastAudit && active ==>
                        r.audit == w.audit + [AuditRecord(i, IncidentAcknowledged(None))] && reply == SlackFailed)
                  && (fault == NoFault && active ==>
                        && r.audit == w.audit + [AuditRecord(i, IncidentAcknowledged(None)),
                                                 AuditRecord(i, NotificationStopped)]
                        && reply == SlackAcknowledged))
  {
  }

  /** What an API acknowledgement answers and stores. */
  lemma ApiMeaning(w: World, incidentId: string, who: string, at: int, fault: StoreFault)
    ensures var (r, reply) := ApiAcknowledge(w, incidentId, who, at, fault);
            var stores := incidentId in w.incidents && fault != AtLookup;
            && (reply == ApiNotFound <==> incidentId !in w.incidents && fault != AtLookup)
            && (!stores ==> r == w)
            && (stores ==> r.acks == if incidentId in w.acks then w.acks
                                     else w.acks[incidentId := Acknowledgement(who, at, ByApi)])
            && (reply.ApiStored? <==> stores && fault == NoFault)
            && (reply.ApiStored? ==> incidentId in r.acks && reply.ack == r.acks[incidentId])
            && r.states == (if stores && fault != AtState && IsActive(w, incidentId)
                            then w.states[incidentId := w.states[incidentId].(stage := Acked)] else w.states)
            && r.audit == (if stores && fault !in {AtState, AtAudit}
                           then w.audit + [AuditRecord(incidentId, IncidentAcknowledged(None))] else w.audit)
            && r.keys == w.keys && r.effects == w.effects && r.attempts == w.attempts
  {
  }
}
