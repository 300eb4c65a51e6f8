/**
 * Laws of whole runs of the notification protocol, with handlers as atomic steps:
 * redelivered messages, repeated webhooks and late acknowledgements in any order.
 */
module NotificationRuns {
  import opened Basics
  import opened AttemptStatus
  import opened NotificationWorld

  // ----- What a step may do -----

  function StageRank(stage: Stage): nat {
    match stage
    case Active => 0
    case Acked => 1
    case Closed => 2
  }

  /** The notification of the incident has started and has left the ACTIVE state. */
  predicate Stopped(w: World, incidentId: string) {
    incidentId in w.states && w.states[incidentId].stage != Active
  }

  /** The effects that contact the on-call engineers or the administrator. */
  predicate Directed(k: Key) {
    k.DirectKey? || k.FallbackKey?
  }

  predicate IsEffect(k: Key) {
    k.DirectKey? || k.FallbackKey? || k.EndUserKey?
  }

  ghost predicate StagesAdvance(w: World, r: World) {
    forall i :: i in w.states ==>
      i in r.states && StageRank(w.states[i].stage) <= StageRank(r.states[i].stage)
  }

  ghost predicate SameStages(w: World, r: World) {
    && r.states.Keys == w.states.Keys
    && forall i :: i in w.states ==> r.states[i].stage == w.states[i].stage
  }

  ghost predicate AcksStand(w: World, r: World) {
    forall i :: i in w.acks ==> i in r.acks && r.acks[i] == w.acks[i]
  }

  ghost predicate Distinct(s: seq<Key>) {
    forall i, j :: 0 <= i < j < |s| ==> s[i] != s[j]
  }

  /** `more` was appended under fresh claims, and not for a stopped incident. */
  ghost predicate Fresh(w: World, r: World, more: seq<Key>) {
    && r.effects == w.effects + more
    && Distinct(more)
    && (forall k :: k in more ==>
          k !in w.keys && k in r.keys && IsEffect(k) && !(Directed(k) && Stopped(w, k.incidentId)))
    && (forall k :: k in r.keys && k !in w.keys && IsEffect(k) ==> k in more)
  }

  ghost predicate Advances(w: World, r: World) {
    && w.keys <= r.keys
    && StagesAdvance(w, r)
    && AcksStand(w, r)
    && |w.effects| <= |r.effects|
    && Fresh(w, r, r.effects[|w.effects|..])
  }

  lemma DistinctConcat(a: seq<Key>, b: seq<Key>)
    requires Distinct(a) && Distinct(b) && forall k :: k in a ==> k !in b
    ensures Distinct(a + b)
  {
    forall i, j | 0 <= i < j < |a + b|
      ensures (a + b)[i] != (a + b)[j]
    {
      if i < |a| <= j {
        assert a[i] in a && b[j - |a|] in b;
      }
    }
  }

  lemma FreshTransitive(a: World, b: World, c: World, ab: seq<Key>, bc: seq<Key>)
    requires a.keys <= b.keys <= c.keys && StagesAdvance(a, b)
    requires Fresh(a, b, ab) && Fresh(b, c, bc)
    ensures Fresh(a, c, ab + bc)
  {
    assert a.effects + ab + bc == a.effects + (ab + bc);
    DistinctConcat(ab, bc);
    forall k | k in ab + bc
      ensures k !in a.keys && k in c.keys && IsEffect(k) && !(Directed(k) && Stopped(a, k.incidentId))
    {
      assert k in ab || k in bc;
    }
    forall k | k in c.keys && k !in a.keys && IsEffect(k)
      ensures k in ab + bc
    {
      assert k in b.keys ==> k in ab;
    }
  }

  lemma AdvancesTransitive(a: World, b: World, c: World)
    requires Advances(a, b) && Advances(b, c)
    ensures Advances(a, c)
  {
    var ab, bc := b.effects[|a.effects|..], c.effects[|b.effects|..];
    FreshTransitive(a, b, c, ab, bc);
    assert c.effects[|a.effects|..] == ab + bc;
  }

  /** A step that touches no key or effect. */
  lemma QuietAdvances(w: World, r: World)
    requires r.keys == w.keys && r.effects == w.effects
    requires StagesAdvance(w, r) && AcksStand(w, r)
    ensures Advances(w, r)
  {
    assert r.effects[|w.effects|..] == [];
  }

  lemma ClaimAdvances(w: World, r: World, key: Key)
    requires r.keys == w.keys + {key} && !IsEffect(key)
    requires r.effects == w.effects && StagesAdvance(w, r) && AcksStand(w, r)
    ensures Advances(w, r)
  {
    assert r.effects[|w.effects|..] == [];
  }

  lemma EffectAdvances(w: World, r: World, key: Key)
    requires key !in w.keys && IsEffect(key)
    requires r.keys == w.keys + {key} && r.effects == w.effects + [key]
    requires r.acks == w.acks && StagesAdvance(w, r)
    requires !(Directed(key) && Stopped(w, key.incidentId))
    ensures Advances(w, r)
  {
    assert r.effects[|w.effects|..] == [key];
  }

  // ----- Every handler advances -----

  lemma SendAdvances(w: World, env: Env, incidentId: string, target: Target, channel: Channel)
    requires IsActive(w, incidentId)
    ensures var r := Send(w, env, incidentId, target, channel); Advances(w, r) && SameStages(w, r)
    decreases FallbacksLeft(w, incidentId), 1, 0
  {
    hide Advances, Fresh, Saved, Unique;
    var key := DirectKey(incidentId, target.id, channel);
    var r := Send(w, env, incidentId, target, channel);
    if key in w.keys {
      QuietAdvances(w, w);
    } else if env.provider(key).Rejected? && channel == Voice && target.source == AssignedSre {
      var attempt := Attempt(env.newId(key), incidentId, target.id, target.source, channel, None, Pending);
      var asked := w.(keys := w.keys + {key}, attempts := Saved(w.attempts, attempt),
                      effects := w.effects + [key]);
      var failed := Logged(asked.(attempts := Saved(asked.attempts, attempt.(status := Failed))),
                           incidentId, CallFailed(attempt.id));
      EffectAdvances(w, failed, key);
      FallbackAdvances(failed, env, incidentId);
      AdvancesTransitive(w, failed, r);
    } else {
      EffectAdvances(w, r, key);
    }
  }

  lemma SendChannelsAdvances(w: World, env: Env, incidentId: string, target: Target, channels: seq<Channel>)
    requires IsActive(w, incidentId)
    ensures var r := SendChannels(w, env, incidentId, target, channels); Advances(w, r) && SameStages(w, r)
    decreases FallbacksLeft(w, incidentId), 2, |channels|
  {
    hide Advances, Fresh, Saved, Unique;
    if channels == [] {
      QuietAdvances(w, w);
    } else {
      var sent := Send(w, env, incidentId, target, channels[0]);
      SendAdvances(w, env, incidentId, target, channels[0]);
      SendChannelsAdvances(sent, env, incidentId, target, channels[1..]);
      AdvancesTransitive(w, sent, SendChannels(w, env, incidentId, target, channels));
    }
  }

  lemma DispatchAdvances(w: World, env: Env, incidentId: string, targets: seq<Target>)
    requires IsActive(w, incidentId)
    ensures var r := Dispatch(w, env, incidentId, targets); Advances(w, r) && SameStages(w, r)
    decreases FallbacksLeft(w, incidentId), 3, |targets|
  {
    hide Advances, Fresh, Saved, Unique;
    if targets == [] {
      QuietAdvances(w, w);
    } else {
      var resolved := Logged(w, incidentId, RecipientResolved(targets[0].id));
      var sent := SendChannels(resolved, env, incidentId, targets[0], targets[0].channels);
      QuietAdvances(w, resolved);
      SendChannelsAdvances(resolved, env, incidentId, targets[0], targets[0].channels);
      AdvancesTransitive(w, resolved, sent);
      DispatchAdvances(sent, env, incidentId, targets[1..]);
      AdvancesTransitive(w, sent, Dispatch(w, env, incidentId, targets));
    }
  }

  lemma FallbackAdvances(w: World, env: Env, incidentId: string)
    ensures var r := Fallback(w, env, incidentId); Advances(w, r) && SameStages(w, r)
    decreases FallbacksLeft(w, incidentId), 0, 0
  {
    hide Advances, Fresh, Saved, Unique;
    var key := FallbackKey(incidentId);
    var r := Fallback(w, env, incidentId);
    if !IsActive(w, incidentId) || key in w.keys {
      QuietAdvances(w, w);
    } else if incidentId !in w.incidents || w.incidents[incidentId].resolved {
      EffectAdvances(w, r, key);
    } else {
      var state, admins := w.states[incidentId], env.admins(w.states[incidentId].organization);
      var widened := state.(recipients := Unique(state.recipients + Ids(admins)), fallbackUsed := true);
      var claimed := w.(keys := w.keys + {key}, effects := w.effects + [key]);
      var noted := Logged(claimed.(states := claimed.states[incidentId := widened]), incidentId, FallbackUsed);
      EffectAdvances(w, noted, key);
      DispatchAdvances(noted, env, incidentId, admins);
      AdvancesTransitive(w, noted, r);
    }
  }

  lemma HandleIncidentAdvances(w: World, env: Env, highEnabled: bool, incidentId: string, incident: Incident,
                               organization: string, resolution: Resolved)
    ensures Advances(w, HandleIncident(w, env, highEnabled, incidentId, incident, organization, resolution))
  {
    hide Advances, Fresh, Dispatch;
    var r := HandleIncident(w, env, highEnabled, incidentId, incident, organization, resolution);
    if incident.resolved || !ShouldNotify(incident, highEnabled) || Stopped(w, incidentId)
       || (incidentId in w.states && w.states[incidentId].recipients != []) {
      QuietAdvances(w, r);
    } else {
      var state := State(organization, Ids(resolution.targets), resolution.fallbackUsed, Active);
      var started := Logged(w.(states := w.states[incidentId := state]), incidentId, NotificationStarted);
      var noted := if resolution.fallbackUsed then Logged(started, incidentId, FallbackUsed) else started;
      QuietAdvances(w, noted);
      DispatchAdvances(noted, env, incidentId, resolution.targets);
      AdvancesTransitive(w, noted, r);
    }
  }

  lemma ProviderEventAdvances(w: World, env: Env, requestId: string, status: Status)
    ensures Advances(w, ProcessProviderEvent(w, env, requestId, status))
  {
    hide Advances, Fresh, Saved, Fallback, FindByRequest;
    var r := ProcessProviderEvent(w, env, requestId, status);
    match FindByRequest(w.attempts, requestId) {
      case None => QuietAdvances(w, w);
      case Some(current) =>
        var next := Updated(current.status, status);
        if next == current.status || !CallEnded(status)
           || current.channel != Voice || current.source != AssignedSre {
          QuietAdvances(w, r);
        } else {
          var updated := w.(attempts := Saved(w.attempts, current.(status := next)));
          var ended := Logged(updated, current.incidentId, CallFailed(current.id));
          QuietAdvances(w, ended);
          FallbackAdvances(ended, env, current.incidentId);
          AdvancesTransitive(w, ended, r);
        }
    }
  }

  lemma DecideAdvances(w: World, env: Env, a: VoiceRequest, attempt: Attempt)
    requires IsActive(w, a.incidentId) && a.incidentId !in w.acks
    ensures Advances(w, Decide(w, env, a, attempt).0)
  {
    hide Advances, Fresh, Saved, Fallback;
    var key := VoiceKey(a.incidentId, a.callId, a.action);
    var r := Decide(w, env, a, attempt).0;
    if key in w.keys {
      QuietAdvances(w, r);
    } else if a.action == AcknowledgeIncident {
      assert env.commits || r == w.(keys := w.keys + {key});
      ClaimAdvances(w, r, key);
    } else {
      var claimed := w.(keys := w.keys + {key});
      var saved := claimed.(attempts := Saved(claimed.attempts, attempt.(status := Declined)));
      var declined := Logged(saved, a.incidentId, IncidentDeclined(a.callId));
      ClaimAdvances(w, declined, key);
      FallbackAdvances(declined, env, a.incidentId);
      AdvancesTransitive(w, declined, r);
    }
  }

  lemma VoiceResponseAdvances(w: World, env: Env, a: VoiceRequest)
    ensures Advances(w, VoiceResponse(w, env, a).0)
  {
    hide Advances, Fresh, Decide, FindAttempt, Repeated;
    var r := VoiceResponse(w, env, a).0;
    if IsActive(w, a.incidentId) && a.incidentId !in w.acks && FindAttempt(w.attempts, a.attemptId).Some? {
      DecideAdvances(w, env, a, FindAttempt(w.attempts, a.attemptId).value);
    }
    if r.keys == w.keys && r.acks == w.acks && r.effects == w.effects && r.states == w.states {
      QuietAdvances(w, r);
    }
  }

  lemma SlackAdvances(w: World, eventId: string, user: string, at: int, ticket: Option<string>,
                      fault: StoreFault, released: bool)
    ensures Advances(w, SlackAcknowledge(w, eventId, user, at, ticket, fault, released).0)
  {
    hide Advances, Fresh;
    var (r, reply) := SlackAcknowledge(w, eventId, user, at, ticket, fault, released);
    if reply == SlackFailed && released && SlackKey(eventId) !in w.keys {
      assert r.keys == w.keys;
      QuietAdvances(w, r);
    } else if SlackKey(eventId) in w.keys {
      QuietAdvances(w, r);
    } else {
      ClaimAdvances(w, r, SlackKey(eventId));
    }
  }

  lemma ApiAdvances(w: World, incidentId: string, who: string, at: int, fault: StoreFault)
    ensures Advances(w, ApiAcknowledge(w, incidentId, who, at, fault).0)
  {
    var r := ApiAcknowledge(w, incidentId, who, at, fault).0;
    assert r.effects[|w.effects|..] == [];
  }

  lemma EndUserAdvances(w: World, env: Env, incidentId: string, contactId: string,
                        kind: CommunicationType, version: string)
    ensures Advances(w, SendEndUserSms(w, env, incidentId, contactId, kind, version))
  {
    hide Advances, Fresh, Saved;
    var key := EndUserKey(incidentId, contactId, kind, version);
    var r := SendEndUserSms(w, env, incidentId, contactId, kind, version);
    if key in w.keys {
      QuietAdvances(w, r);
    } else {
      EffectAdvances(w, r, key);
    }
  }

  // ----- Runs -----

  /** One handler invocation, or a write by the services outside this protocol. */
  datatype Step =
    | IncidentMessage(env: Env, highEnabled: bool, id: string, incident: Incident,
                      organization: string, resolution: Resolved)
    | ProviderWebhook(env: Env, requestId: string, status: Status)
    | FallbackCall(env: Env, id: string)
    | VoiceTool(env: Env, request: VoiceRequest)
    | VoiceWebhook(env: Env, requestId: string, action: VoiceAction, at: int)
    | SlackSignal(eventId: string, user: string, at: int, ticket: Option<string>, fault: StoreFault, released: bool)
    | ApiCall(id: string, user: string, at: int, fault: StoreFault)
    | EndUserMessage(env: Env, id: string, contactId: string, kind: CommunicationType, version: string)
    | IncidentWritten(id: string, incident: Incident)
    | RecordsPurged(attempts: seq<Attempt>, audit: seq<AuditRecord>)

  function Next(w: World, s: Step): World {
    match s
    case IncidentMessage(env, high, id, incident, organization, resolution) =>
      HandleIncident(w, env, high, id, incident, organization, resolution)
    case ProviderWebhook(env, requestId, status) => ProcessProviderEvent(w, env, requestId, status)
    case FallbackCall(env, id) => Fallback(w, env, id)
    case VoiceTool(env, request) => VoiceResponse(w, env, request).0
    case VoiceWebhook(env, requestId, action, at) => ProviderResponse(w, env, requestId, action, at).0
    case SlackSignal(eventId, user, at, ticket, fault, released) =>
      SlackAcknowledge(w, eventId, user, at, ticket, fault, released).0
    case ApiCall(id, user, at, fault) => ApiAcknowledge(w, id, user, at, fault).0
    case EndUserMessage(env, id, contactId, kind, version) => SendEndUserSms(w, env, id, contactId, kind, version)
    case IncidentWritten(id, incident) => w.(incidents := w.incidents[id := incident])
    case RecordsPurged(attempts, audit) => w.(attempts := attempts, audit := audit)
  }

  function Run(w: World, steps: seq<Step>): World
    decreases |steps|
  {
    if steps == [] then w else Run(Next(w, steps[0]), steps[1..])
  }

  lemma NextAdvances(w: World, s: Step)
    ensures Advances(w, Next(w, s))
  {
    hide Advances, Fresh, HandleIncident, ProcessProviderEvent, Fallback, VoiceResponse,
         SlackAcknowledge, ApiAcknowledge, SendEndUserSms, FindByRequest;
    match s
    case IncidentMessage(env, high, id, incident, organization, resolution) =>
      HandleIncidentAdvances(w, env, high, id, incident, organization, resolution);
    case ProviderWebhook(env, requestId, status) => ProviderEventAdvances(w, env, requestId, status);
    case FallbackCall(env, id) => FallbackAdvances(w, env, id);
    case VoiceTool(env, request) => VoiceResponseAdvances(w, env, request);
    case VoiceWebhook(env, requestId, action, at) =>
      QuietAdvances(w, w);
      match FindByRequest(w.attempts, requestId) {
        case None =>
        case Some(attempt) =>
          VoiceResponseAdvances(w, env, VoiceRequest(attempt.incidentId, attempt.id, attempt.recipientId,
                                                     requestId, action, at));
      }
    case SlackSignal(eventId, user, at, ticket, fault, released) =>
      SlackAdvances(w, eventId, user, at, ticket, fault, released);
    case ApiCall(id, user, at, fault) => ApiAdvances(w, id, user, at, fault);
    case EndUserMessage(env, id, contactId, kind, version) => EndUserAdvances(w, env, id, contactId, kind, version);
    case IncidentWritten(id, incident) => QuietAdvances(w, Next(w, s));
    case RecordsPurged(attempts, audit) => QuietAdvances(w, Next(w, s));
  }

  lemma {:induction false} RunAdvances(w: World, steps: seq<Step>)
    ensures Advances(w, Run(w, steps))
    decreases |steps|
  {
    hide Advances, Next;
    if steps == [] {
      QuietAdvances(w, w);
    } else {
      NextAdvances(w, steps[0]);
      RunAdvances(Next(w, steps[0]), steps[1..]);
      AdvancesTransitive(w, Next(w, steps[0]), Run(w, steps));
    }
  }

  /** ACTIVE, ACKNOWLEDGED, RESOLVED: no run moves an incident backwards or forgets it. */
  lemma StateOnlyMovesForward(w: World, steps: seq<Step>, incidentId: string)
    requires incidentId in w.states
    ensures var r := Run(w, steps);
            && incidentId in r.states
            && StageRank(w.states[incidentId].stage) <= StageRank(r.states[incidentId].stage)
  {
    RunAdvances(w, steps);
  }

  /** Whoever acknowledges later, the first stored acknowledgement stays. */
  lemma FirstAcknowledgementStands(w: World, steps: seq<Step>, incidentId: string)
    requires incidentId in w.acks
    ensures var r := Run(w, steps); incidentId in r.acks && r.acks[incidentId] == w.acks[incidentId]
  {
    RunAdvances(w, steps);
  }

  /** Calls, messages and fallbacks aimed at the responders of one incident. */
  function DirectedAt(effects: seq<Key>, incidentId: string): seq<Key> {
    Filter((k: Key) => Directed(k) && k.incidentId == incidentId, effects)
  }

  /**
   * Once an incident has left the ACTIVE state, no continuation of the run calls or
   * messages its responders or starts the admin fallback.
   */
  lemma SilentOnceStopped(w: World, steps: seq<Step>, incidentId: string)
    requires Stopped(w, incidentId)
    ensures DirectedAt(Run(w, steps).effects, incidentId) == DirectedAt(w.effects, incidentId)
  {
    hide StagesAdvance, AcksStand, Distinct, Filter;
    RunAdvances(w, steps);
    var r := Run(w, steps);
    var more := r.effects[|w.effects|..];
    var aimed := (k: Key) => Directed(k) && k.incidentId == incidentId;
    assert r.effects == w.effects + more;
    FilterConcat(aimed, w.effects, more);
    FilterNone(aimed, more);
  }

  /** Effects and claims match: an effect happened exactly when its key was claimed. */
  ghost predicate Ledger(w: World) {
    && Distinct(w.effects)
    && forall k :: IsEffect(k) ==> (k in w.keys <==> k in w.effects)
  }

  lemma LedgerKept(w: World, r: World)
    requires Ledger(w) && Advances(w, r)
    ensures Ledger(r)
  {
    var more := r.effects[|w.effects|..];
    forall k | k in more
      ensures IsEffect(k) && k in r.keys && k !in w.effects
    {
    }
    DistinctConcat(w.effects, more);
  }

  function Occurrences(s: seq<Key>, k: Key): nat {
    multiset(s)[k]
  }

  lemma {:induction false} DistinctOccurrences(s: seq<Key>, k: Key)
    requires Distinct(s)
    ensures Occurrences(s, k) == if k in s then 1 else 0
  {
    if s != [] {
      var init := s[..|s| - 1];
      DistinctOccurrences(init, k);
      assert s == init + [s[|s| - 1]];
    }
  }

  /**
   * In every run from empty stores the provider is asked exactly once for each claimed
   * (incident, recipient, channel) and each claimed end-user message, and the fallback
   * of an incident begins exactly once if it was ever claimed; unclaimed ones never.
   */
  lemma EffectsHappenOnce(steps: seq<Step>, k: Key)
    requires IsEffect(k)
    ensures var r := Run(EMPTY, steps); Occurrences(r.effects, k) == if k in r.keys then 1 else 0
  {
    hide Advances;
    RunAdvances(EMPTY, steps);
    LedgerKept(EMPTY, Run(EMPTY, steps));
    DistinctOccurrences(Run(EMPTY, steps).effects, k);
  }

  // ----- What a step achieves -----

  lemma SendClaims(w: World, env: Env, incidentId: string, target: Target, channel: Channel)
    ensures DirectKey(incidentId, target.id, channel) in Send(w, env, incidentId, target, channel).keys
  {
    hide Saved;
  }

  lemma {:induction false} SendChannelsClaims(w: World, env: Env, incidentId: string, target: Target,
                                               channels: seq<Channel>)
    ensures forall c :: c in channels ==>
              DirectKey(incidentId, target.id, c) in SendChannels(w, env, incidentId, target, channels).keys
    decreases |channels|
  {
    hide Send;
    if channels != [] {
      SendClaims(w, env, incidentId, target, channels[0]);
      SendChannelsClaims(Send(w, env, incidentId, target, channels[0]), env, incidentId, target, channels[1..]);
    }
  }

  lemma {:induction false} DispatchClaims(w: World, env: Env, incidentId: string, targets: seq<Target>)
    ensures forall t, c :: t in targets && c in t.channels ==>
              DirectKey(incidentId, t.id, c) in Dispatch(w, env, incidentId, targets).keys
    decreases |targets|
  {
    hide SendChannels;
    if targets != [] {
      var resolved := Logged(w, incidentId, RecipientResolved(targets[0].id));
      var sent := SendChannels(resolved, env, incidentId, targets[0], targets[0].channels);
      SendChannelsClaims(resolved, env, incidentId, targets[0], targets[0].channels);
      DispatchClaims(sent, env, incidentId, targets[1..]);
    }
  }

  /** The provider was asked to contact every target on every channel. */
  ghost predicate AllContacted(r: World, incidentId: string, targets: seq<Target>) {
    forall t, c :: t in targets && c in t.channels ==> DirectKey(incidentId, t.id, c) in r.effects
  }

  ghost predicate AllClaimed(r: World, incidentId: string, targets: seq<Target>) {
    forall t, c :: t in targets && c in t.channels ==> DirectKey(incidentId, t.id, c) in r.keys
  }

  /** Where effects and claims match, a claimed contact was made. */
  lemma ClaimedIsContacted(w: World, r: World, incidentId: string, targets: seq<Target>)
    requires Ledger(w) && Advances(w, r) && AllClaimed(r, incidentId, targets)
    ensures AllContacted(r, incidentId, targets)
  {
    hide Advances;
    LedgerKept(w, r);
  }

  /** A first notification contacts every resolved recipient on every enabled channel. */
  lemma EveryoneIsNotified(w: World, env: Env, highEnabled: bool, incidentId: string, incident: Incident,
                           organization: string, resolution: Resolved)
    requires Ledger(w) && incidentId !in w.states && ShouldNotify(incident, highEnabled)
    ensures var r := HandleIncident(w, env, highEnabled, incidentId, incident, organization, resolution);
            IsActive(r, incidentId) && AllContacted(r, incidentId, resolution.targets)
  {
    hide Dispatch, Advances, Ledger, AllContacted;
    var r := HandleIncident(w, env, highEnabled, incidentId, incident, organization, resolution);
    var state := State(organization, Ids(resolution.targets), resolution.fallbackUsed, Active);
    var started := Logged(w.(states := w.states[incidentId := state]), incidentId, NotificationStarted);
    var noted := if resolution.fallbackUsed then Logged(started, incidentId, FallbackUsed) else started;
    DispatchClaims(noted, env, incidentId, resolution.targets);
    DispatchAdvances(noted, env, incidentId, resolution.targets);
    HandleIncidentAdvances(w, env, highEnabled, incidentId, incident, organization, resolution);
    ClaimedIsContacted(w, r, incidentId, resolution.targets);
  }

  /** The incident is ACTIVE, its fallback unused, and it is still open. */
  predicate CanEscalate(w: World, incidentId: string) {
    && IsActive(w, incidentId) && FallbackKey(incidentId) !in w.keys
    && incidentId in w.incidents && !w.incidents[incidentId].resolved
  }

  function AdminsOf(w: World, env: Env, incidentId: string): seq<Target>
    requires incidentId in w.states
  {
    env.admins(w.states[incidentId].organization)
  }

  /** Escalation: the fallback begins and reaches the administrators on every channel. */
  ghost predicate Escalated(w: World, env: Env, incidentId: string, r: World)
    requires incidentId in w.states
  {
    FallbackKey(incidentId) in r.effects && AllContacted(r, incidentId, AdminsOf(w, env, incidentId))
  }

  lemma FallbackClaims(w: World, env: Env, incidentId: string)
    requires CanEscalate(w, incidentId)
    ensures var r := Fallback(w, env, incidentId);
            FallbackKey(incidentId) in r.keys && AllClaimed(r, incidentId, AdminsOf(w, env, incidentId))
  {
    hide Dispatch;
    var key := FallbackKey(incidentId);
    var state, admins := w.states[incidentId], AdminsOf(w, env, incidentId);
    var claimed := w.(keys := w.keys + {key}, effects := w.effects + [key]);
    var widened := state.(recipients := Unique(state.recipients + Ids(admins)), fallbackUsed := true);
    var noted := Logged(claimed.(states := claimed.states[incidentId := widened]), incidentId, FallbackUsed);
    DispatchClaims(noted, env, incidentId, admins);
    assert Fallback(w, env, incidentId) == Dispatch(noted, env, incidentId, admins);
  }

  /** A handler that falls back from a state like the one it started in escalates. */
  lemma FallbackEscalates(w: World, before: World, env: Env, incidentId: string)
    requires Ledger(w) && CanEscalate(w, incidentId)
    requires CanEscalate(before, incidentId) && AdminsOf(before, env, incidentId) == AdminsOf(w, env, incidentId)
    requires Advances(w, Fallback(before, env, incidentId))
    ensures Escalated(w, env, incidentId, Fallback(before, env, incidentId))
  {
    hide Advances, AllContacted, AllClaimed, Fallback;
    var r := Fallback(before, env, incidentId);
    FallbackClaims(before, env, incidentId);
    LedgerKept(w, r);
    ClaimedIsContacted(w, r, incidentId, AdminsOf(w, env, incidentId));
  }

  /**
   * A call to an assigned engineer that the provider reports as ended unanswered, while
   * the incident is still ACTIVE and open, reaches the administrators on every channel.
   */
  lemma EndedCallEscalates(w: World, env: Env, requestId: string, status: Status)
    requires Ledger(w) && FindByRequest(w.attempts, requestId).Some? && CallEnded(status)
    requires var a := FindByRequest(w.attempts, requestId).value;
             a.channel == Voice && a.source == AssignedSre && !Terminal(a.status) && CanEscalate(w, a.incidentId)
    ensures var a := FindByRequest(w.attempts, requestId).value;
            Escalated(w, env, a.incidentId, ProcessProviderEvent(w, env, requestId, status))
  {
    hide Fallback, Saved, FindByRequest, Advances, Ledger, Escalated;
    var a := FindByRequest(w.attempts, requestId).value;
    assert Updated(a.status, status) == status;
    var updated := w.(attempts := Saved(w.attempts, a.(status := status)));
    var ended := Logged(updated, a.incidentId, CallFailed(a.id));
    ProviderEventAdvances(w, env, requestId, status);
    FallbackEscalates(w, ended, env, a.incidentId);
  }

  /** So does a call to an assigned engineer that the provider refuses to place. */
  lemma RefusedCallEscalates(w: World, env: Env, incidentId: string, target: Target)
    requires Ledger(w) && CanEscalate(w, incidentId) && target.source == AssignedSre
    requires var key := DirectKey(incidentId, target.id, Voice); key !in w.keys && env.provider(key).Rejected?
    ensures Escalated(w, env, incidentId, Send(w, env, incidentId, target, Voice))
  {
    hide Fallback, Saved, Advances, Ledger, Escalated;
    var key := DirectKey(incidentId, target.id, Voice);
    var attempt := Attempt(env.newId(key), incidentId, target.id, target.source, Voice, None, Pending);
    var asked := w.(keys := w.keys + {key}, attempts := Saved(w.attempts, attempt), effects := w.effects + [key]);
    var failed := Logged(asked.(attempts := Saved(asked.attempts, attempt.(status := Failed))),
                         incidentId, CallFailed(attempt.id));
    SendAdvances(w, env, incidentId, target, Voice);
    FallbackEscalates(w, failed, env, incidentId);
  }

  /** So does a decline that counts. */
  lemma DeclineEscalates(w: World, env: Env, a: VoiceRequest)
    requires Ledger(w) && CanEscalate(w, a.incidentId) && VoiceResponse(w, env, a).1 == NowDeclined
    ensures Escalated(w, env, a.incidentId, VoiceResponse(w, env, a).0)
  {
    hide Fallback, Saved, Advances, Ledger, Escalated, Repeated, FindAttempt;
    var attempt := FindAttempt(w.attempts, a.attemptId).value;
    var claimed := w.(keys := w.keys + {VoiceKey(a.incidentId, a.callId, a.action)});
    var saved := claimed.(attempts := Saved(claimed.attempts, attempt.(status := Declined)));
    var declined := Logged(saved, a.incidentId, IncidentDeclined(a.callId));
    VoiceResponseAdvances(w, env, a);
    FallbackEscalates(w, declined, env, a.incidentId);
  }

  /** The acknowledgement a voice request stores. */
  function AckBy(a: VoiceRequest): Acknowledgement {
    Acknowledgement(a.recipientId, a.at, ByCall(a.attemptId, a.callId))
  }

  /** What the reply says about the stores. */
  ghost predicate Truthful(w: World, a: VoiceRequest, r: World, reply: Reply) {
    && (reply == NowAcknowledged ==>
          && IsActive(w, a.incidentId) && a.incidentId !in w.acks
          && r.states == w.states[a.incidentId := w.states[a.incidentId].(stage := Acked)]
          && r.acks == w.acks[a.incidentId := AckBy(a)])
    && (reply != NowAcknowledged ==> r.acks == w.acks && SameStages(w, r))
  }

  lemma DecisionIsTruthful(w: World, env: Env, a: VoiceRequest, attempt: Attempt)
    requires IsActive(w, a.incidentId) && a.incidentId !in w.acks
    requires attempt.recipientId == a.recipientId && attempt.id == a.attemptId
    ensures var (r, reply) := Decide(w, env, a, attempt); Truthful(w, a, r, reply)
  {
    hide Saved, Fallback, Advances;
    var claimed := w.(keys := w.keys + {VoiceKey(a.incidentId, a.callId, a.action)});
    var saved := claimed.(attempts := Saved(claimed.attempts, attempt.(status := Declined)));
    FallbackAdvances(Logged(saved, a.incidentId, IncidentDeclined(a.callId)), env, a.incidentId);
  }

  /** Only the reply NowAcknowledged stores an acknowledgement, and it stops the incident. */
  lemma VoiceReplyIsTruthful(w: World, env: Env, a: VoiceRequest)
    ensures var (r, reply) := VoiceResponse(w, env, a); Truthful(w, a, r, reply)
  {
    hide Decide, Repeated, FindAttempt;
    FoundAttempt(w.attempts, a.attemptId);
    match FindAttempt(w.attempts, a.attemptId)
    case None =>
    case Some(attempt) =>
      if IsActive(w, a.incidentId) && a.incidentId !in w.acks && attempt.recipientId == a.recipientId {
        DecisionIsTruthful(w, env, a, attempt);
      }
  }

  lemma {:induction false} FoundAttempt(attempts: seq<Attempt>, id: string)
    ensures FindAttempt(attempts, id).Some? ==> FindAttempt(attempts, id).value.id == id
  {
    if attempts != [] && attempts[0].id != id {
      FoundAttempt(attempts[1..], id);
    }
  }

  // ----- When an acknowledgement silences an incident -----

  /** A stored acknowledgement of an incident being notified has stopped it. */
  predicate Heeded(w: World, incidentId: string) {
    incidentId in w.acks && incidentId in w.states ==> Stopped(w, incidentId)
  }

  /** The step is a message that begins the notification of the incident. */
  predicate Begins(w: World, s: Step, i: string) {
    i !in w.states && s.IncidentMessage? && s.id == i && ShouldNotify(s.incident, s.highEnabled)
  }

  /**
   * The step is the first acknowledgement of the incident, from Slack or the API, and its
   * store fails on the state once the acknowledgement is stored.
   */
  predicate Stalls(w: World, s: Step, i: string) {
    && FailsOnState(s, i) && i in w.incidents && i !in w.acks && IsActive(w, i)
    && (s.SlackSignal? ==> SlackKey(s.eventId) !in w.keys && !w.incidents[i].resolved)
  }

  /** An acknowledging step for the incident whose state store throws. */
  predicate FailsOnState(s: Step, i: string) {
    || (s.SlackSignal? && s.ticket == Some(i) && s.fault == AtState)
    || (s.ApiCall? && s.id == i && s.fault == AtState)
  }

  /** What a step can do to the state and the acknowledgement of one incident, where it had none. */
  ghost predicate EntriesSound(w: World, r: World, i: string, begins: bool, stalls: bool) {
    && (i !in w.states ==> (i in r.states <==> begins) && (i in r.states ==> IsActive(r, i)))
    && (i !in w.acks && i in r.acks && i in w.states ==> Stopped(r, i) != stalls)
    && (i !in w.acks && i in r.acks ==> i in r.states ==> i in w.states)
    && (stalls ==> i in r.acks && IsActive(r, i))
  }

  lemma HandleIncidentEntries(w: World, env: Env, highEnabled: bool, incidentId: string, incident: Incident,
                              organization: string, resolution: Resolved, i: string)
    ensures var r := HandleIncident(w, env, highEnabled, incidentId, incident, organization, resolution);
            EntriesSound(w, r, i, i !in w.states && incidentId == i && ShouldNotify(incident, highEnabled), false)
  {
    hide Dispatch, Advances, Fresh, Ids;
    var state := State(organization, Ids(resolution.targets), resolution.fallbackUsed, Active);
    var started := Logged(w.(states := w.states[incidentId := state]), incidentId, NotificationStarted);
    var noted := if resolution.fallbackUsed then Logged(started, incidentId, FallbackUsed) else started;
    DispatchAdvances(noted, env, incidentId, resolution.targets);
  }

  /** A step that keeps every stage and stores no acknowledgement. */
  lemma QuietEntries(w: World, r: World, i: string)
    requires SameStages(w, r) && r.acks == w.acks
    ensures EntriesSound(w, r, i, false, false)
  {
  }

  lemma ProviderEventEntries(w: World, env: Env, requestId: string, status: Status, i: string)
    ensures EntriesSound(w, ProcessProviderEvent(w, env, requestId, status), i, false, false)
  {
    hide Fallback, Advances, Fresh, Saved, FindByRequest, EntriesSound;
    match FindByRequest(w.attempts, requestId)
    case None =>
      QuietEntries(w, w, i);
    case Some(a) =>
      var updated := w.(attempts := Saved(w.attempts, a.(status := status)));
      FallbackAdvances(Logged(updated, a.incidentId, CallFailed(a.id)), env, a.incidentId);
      QuietEntries(w, ProcessProviderEvent(w, env, requestId, status), i);
  }

  lemma VoiceEntries(w: World, env: Env, a: VoiceRequest, i: string)
    ensures EntriesSound(w, VoiceResponse(w, env, a).0, i, false, false)
  {
    hide VoiceResponse;
    VoiceReplyIsTruthful(w, env, a);
  }

  lemma SlackEntries(w: World, eventId: string, user: string, at: int, ticket: Option<string>,
                     fault: StoreFault, released: bool, i: string)
    ensures var s := SlackSignal(eventId, user, at, ticket, fault, released);
            EntriesSound(w, Next(w, s), i, false, Stalls(w, s, i))
  {
  }

  lemma NextEntries(w: World, s: Step, i: string)
    ensures EntriesSound(w, Next(w, s), i, Begins(w, s, i), Stalls(w, s, i))
  {
    hide Advances, Fresh, HandleIncident, ProcessProviderEvent, Fallback, VoiceResponse,
         SlackAcknowledge, SendEndUserSms, FindByRequest, EntriesSound;
    match s
    case IncidentMessage(env, high, id, incident, organization, resolution) =>
      HandleIncidentEntries(w, env, high, id, incident, organization, resolution, i);
    case ProviderWebhook(env, requestId, status) => ProviderEventEntries(w, env, requestId, status, i);
    case FallbackCall(env, id) =>
      FallbackAdvances(w, env, id);
      QuietEntries(w, Next(w, s), i);
    case VoiceTool(env, request) => VoiceEntries(w, env, request, i);
    case VoiceWebhook(env, requestId, action, at) =>
      match FindByRequest(w.attempts, requestId) {
        case None =>
          QuietEntries(w, w, i);
        case Some(attempt) =>
          QuietEntries(w, w, i);
          VoiceEntries(w, env, VoiceRequest(attempt.incidentId, attempt.id, attempt.recipientId,
                                            requestId, action, at), i);
      }
    case SlackSignal(eventId, user, at, ticket, fault, released) =>
      SlackEntries(w, eventId, user, at, ticket, fault, released, i);
    case ApiCall(id, user, at, fault) => ApiEntries(w, id, user, at, fault, i);
    case EndUserMessage(env, id, contactId, kind, version) =>
      EndUserEntries(w, env, id, contactId, kind, version);
      QuietEntries(w, Next(w, s), i);
    case IncidentWritten(id, incident) => QuietEntries(w, Next(w, s), i);
    case RecordsPurged(attempts, audit) => QuietEntries(w, Next(w, s), i);
  }

  lemma ApiEntries(w: World, incidentId: string, who: string, at: int, fault: StoreFault, i: string)
    ensures var s := ApiCall(incidentId, who, at, fault); EntriesSound(w, Next(w, s), i, false, Stalls(w, s, i))
  {
  }

  lemma EndUserEntries(w: World, env: Env, incidentId: string, contactId: string,
                       kind: CommunicationType, version: string)
    ensures var r := SendEndUserSms(w, env, incidentId, contactId, kind, version);
            r.states == w.states && r.acks == w.acks
  {
  }

  /**
   * The two ways an acknowledgement is not heeded: it was stored before any notification
   * state existed and this step begins the notification all the same, or this step is a
   * Slack or API acknowledgement that fails between storing it and stopping the incident.
   */
  lemma HeededExactly(w: World, s: Step, i: string)
    requires Heeded(w, i)
    ensures Heeded(Next(w, s), i) <==> !(i in w.acks && Begins(w, s, i)) && !Stalls(w, s, i)
  {
    hide Next;
    NextAdvances(w, s);
    NextEntries(w, s, i);
  }

  /**
   * Once notification has begun, every acknowledgement on any path stops it for good, as
   * long as none fails on the state.
   */
  lemma {:induction false} StartedIncidentsHeedAcknowledgements(w: World, steps: seq<Step>, i: string)
    requires i in w.states && Heeded(w, i)
    requires forall k :: 0 <= k < |steps| ==> !FailsOnState(steps[k], i)
    ensures i in Run(w, steps).acks ==> Stopped(Run(w, steps), i)
    decreases |steps|
  {
    hide Next, FailsOnState;
    if steps != [] {
      assert !FailsOnState(steps[0], i);
      NextAdvances(w, steps[0]);
      NoStall(w, steps[0], i);
      HeededExactly(w, steps[0], i);
      StartedIncidentsHeedAcknowledgements(Next(w, steps[0]), steps[1..], i);
    }
  }

  lemma NoStall(w: World, s: Step, i: string)
    requires !FailsOnState(s, i)
    ensures !Stalls(w, s, i)
  {
  }

  // ----- An unheeded acknowledgement -----

  /** The steps that stop an incident with an unheeded acknowledgement: its end, or another API call. */
  predicate Halts(w: World, s: Step, i: string) {
    || (s.IncidentMessage? && s.id == i && s.incident.resolved)
    || (s.ApiCall? && s.id == i && i in w.incidents && s.fault != AtLookup && s.fault != AtState)
  }

  /** The step may stop such an incident, whatever the state. */
  predicate MayHalt(s: Step, i: string) {
    (s.IncidentMessage? && s.id == i && s.incident.resolved) || (s.ApiCall? && s.id == i)
  }

  lemma HandleIncidentStage(w: World, env: Env, highEnabled: bool, incidentId: string, incident: Incident,
                            organization: string, resolution: Resolved, i: string)
    requires IsActive(w, i)
    ensures var r := HandleIncident(w, env, highEnabled, incidentId, incident, organization, resolution);
            IsActive(r, i) <==> !(incidentId == i && incident.resolved)
  {
    hide Dispatch, Advances, Fresh, Ids;
    var state := State(organization, Ids(resolution.targets), resolution.fallbackUsed, Active);
    var started := Logged(w.(states := w.states[incidentId := state]), incidentId, NotificationStarted);
    var noted := if resolution.fallbackUsed then Logged(started, incidentId, FallbackUsed) else started;
    DispatchAdvances(noted, env, incidentId, resolution.targets);
  }

  lemma ProviderEventStages(w: World, env: Env, requestId: string, status: Status)
    ensures SameStages(w, ProcessProviderEvent(w, env, requestId, status))
  {
    hide Fallback, Advances, Fresh, Saved, FindByRequest;
    match FindByRequest(w.attempts, requestId)
    case None =>
    case Some(a) =>
      var updated := w.(attempts := Saved(w.attempts, a.(status := status)));
      FallbackAdvances(Logged(updated, a.incidentId, CallFailed(a.id)), env, a.incidentId);
  }

  /** Exactly an incident's end and a repeated API call stop an incident once it was left unheeded. */
  lemma UnheededExactly(w: World, s: Step, i: string)
    requires i in w.acks && IsActive(w, i)
    ensures IsActive(Next(w, s), i) <==> !Halts(w, s, i)
  {
    hide Advances, Fresh, HandleIncident, ProcessProviderEvent, Fallback, VoiceResponse, SendEndUserSms, FindByRequest;
    match s
    case IncidentMessage(env, high, id, incident, organization, resolution) =>
      HandleIncidentStage(w, env, high, id, incident, organization, resolution, i);
    case ProviderWebhook(env, requestId, status) => ProviderEventStages(w, env, requestId, status);
    case FallbackCall(env, id) => FallbackAdvances(w, env, id);
    case VoiceTool(env, request) => VoiceReplyIsTruthful(w, env, request);
    case VoiceWebhook(env, requestId, action, at) =>
      match FindByRequest(w.attempts, requestId) {
        case None =>
        case Some(attempt) =>
          VoiceReplyIsTruthful(w, env, VoiceRequest(attempt.incidentId, attempt.id, attempt.recipientId,
                                                    requestId, action, at));
      }
    case SlackSignal(eventId, user, at, ticket, fault, released) =>
    case ApiCall(id, user, at, fault) =>
    case EndUserMessage(env, id, contactId, kind, version) =>
      EndUserEntries(w, env, id, contactId, kind, version);
    case IncidentWritten(id, incident) =>
    case RecordsPurged(attempts, audit) =>
  }

  /** So voice and Slack never stop it: only its end and API calls may, over any run. */
  lemma {:induction false} UnheededStaysActive(w: World, steps: seq<Step>, i: string)
    requires i in w.acks && IsActive(w, i)
    requires forall k :: 0 <= k < |steps| ==> !MayHalt(steps[k], i)
    ensures i in Run(w, steps).acks && IsActive(Run(w, steps), i)
    decreases |steps|
  {
    hide Next, MayHalt, Advances;
    if steps != [] {
      assert !MayHalt(steps[0], i);
      NoHalt(w, steps[0], i);
      UnheededExactly(w, steps[0], i);
      NextAdvances(w, steps[0]);
      AdvancesKeepsAck(w, Next(w, steps[0]), i);
      UnheededStaysActive(Next(w, steps[0]), steps[1..], i);
    }
  }

  lemma NoHalt(w: World, s: Step, i: string)
    requires !MayHalt(s, i)
    ensures !Halts(w, s, i)
  {
  }

  lemma AdvancesKeepsAck(w: World, r: World, i: string)
    requires Advances(w, r) && i in w.acks
    ensures i in r.acks
  {
  }

  /**
   * An acknowledgement stored too early is a dead letter: the next notifying message
   * contacts everyone, and the incident stays ACTIVE until its end or another API call.
   */
  lemma EarlyAcknowledgementIsIgnored(w: World, env: Env, highEnabled: bool, incidentId: string, incident: Incident,
                                      organization: string, resolution: Resolved, steps: seq<Step>)
    requires Ledger(w) && incidentId in w.acks && incidentId !in w.states && ShouldNotify(incident, highEnabled)
    requires forall k :: 0 <= k < |steps| ==> !MayHalt(steps[k], incidentId)
    ensures var r := HandleIncident(w, env, highEnabled, incidentId, incident, organization, resolution);
            && IsActive(r, incidentId) && AllContacted(r, incidentId, resolution.targets)
            && IsActive(Run(r, steps), incidentId)
  {
    hide HandleIncident, Next, Run, MayHalt, Advances, AllContacted, Ledger;
    var r := HandleIncident(w, env, highEnabled, incidentId, incident, organization, resolution);
    EveryoneIsNotified(w, env, highEnabled, incidentId, incident, organization, resolution);
    HandleIncidentAdvances(w, env, highEnabled, incidentId, incident, organization, resolution);
    AdvancesKeepsAck(w, r, incidentId);
    UnheededStaysActive(r, steps, incidentId);
  }

  /** Such an acknowledgement is two steps away: an incident is written and acknowledged by the API. */
  lemma EarlyAcknowledgementIsReachable(i: string, incident: Incident, who: string, at: int)
    ensures var w := Run(EMPTY, [IncidentWritten(i, incident), ApiCall(i, who, at, NoFault)]);
            Ledger(w) && i in w.acks && i !in w.states
  {
    var a, b := IncidentWritten(i, incident), ApiCall(i, who, at, NoFault);
    assert [a, b][1..] == [b] && [b][1..] == [];
    assert Run(EMPTY, [a, b]) == Run(Next(EMPTY, a), [b]) == Next(Next(EMPTY, a), b);
  }

  /** Nor is a stall far away: the incident is written and notified, and the API call fails on the state. */
  lemma StallIsReachable(env: Env, i: string, incident: Incident, organization: string, resolution: Resolved,
                         who: string, at: int)
    requires ShouldNotify(incident, true)
    ensures var message := IncidentMessage(env, true, i, incident, organization, resolution);
            var w := Run(EMPTY, [IncidentWritten(i, incident), message]);
            Ledger(w) && Stalls(w, ApiCall(i, who, at, AtState), i)
  {
    hide Dispatch, Advances, AllContacted;
    var a, b := IncidentWritten(i, incident), IncidentMessage(env, true, i, incident, organization, resolution);
    var w := Next(EMPTY, a);
    assert [a, b][1..] == [b] && [b][1..] == [];
    assert Run(EMPTY, [a, b]) == Run(w, [b]) == Next(w, b);
    EveryoneIsNotified(w, env, true, i, incident, organization, resolution);
    RunAdvances(EMPTY, [a, b]);
    LedgerKept(EMPTY, Run(EMPTY, [a, b]));
  }

  /**
   * A Slack acknowledgement that stalls is stored, yet the incident stays ACTIVE, and the
   * redelivered signal only answers that it was acknowledged already.
   */
  lemma StalledAcknowledgementIsIgnored(w: World, s: Step, i: string)
    requires Stalls(w, s, i) && s.SlackSignal? && s.released
    ensures var r := Next(w, s);
            && i in r.acks && IsActive(r, i)
            && SlackAcknowledge(r, s.eventId, s.user, s.at, s.ticket, NoFault, true).1 == SlackAlready
            && IsActive(Next(r, SlackSignal(s.eventId, s.user, s.at, s.ticket, NoFault, true)), i)
  {
  }

  /** An API call made again after a stall keeps the acknowledgement stored first and stops the incident. */
  lemma RepeatedApiCallHeals(w: World, s: Step, i: string, who: string, at: int)
    requires Stalls(w, s, i)
    ensures var r := Next(w, s);
            && i in r.acks && IsActive(r, i)
            && ApiAcknowledge(r, i, who, at, NoFault).1 == ApiStored(r.acks[i])
            && Stopped(Next(r, ApiCall(i, who, at, NoFault)), i)
  {
  }

  /**
   * A voice acknowledgement whose transaction fails stores nothing but its claim: on every
   * continuation the call can no longer acknowledge, and a repeated request is even told
   * that it was acknowledged already as long as the incident is not.
   */
  lemma RolledBackCallNeverAcknowledges(w: World, env: Env, a: VoiceRequest, steps: seq<Step>,
                                        other: Env, b: VoiceRequest)
    requires VoiceResponse(w, env, a).1 == VoiceFailed
    requires b.incidentId == a.incidentId && b.callId == a.callId && b.action == a.action
    ensures var r := VoiceResponse(w, env, a).0;
            && r.acks == w.acks && a.incidentId !in r.acks && IsActive(r, a.incidentId)
            && VoiceResponse(r, other, a) == (r, AlreadyAcknowledged)
            && VoiceResponse(Run(r, steps), other, b).1 != NowAcknowledged
  {
    hide Advances, Fresh, FindAttempt, Repeated, Run, Fallback, Saved;
    var r := VoiceResponse(w, env, a).0;
    RunAdvances(r, steps);
    AdvancesKeepsKeys(r, Run(r, steps));
  }

  lemma AdvancesKeepsKeys(w: World, r: World)
    requires Advances(w, r)
    ensures w.keys <= r.keys
  {
  }
}
