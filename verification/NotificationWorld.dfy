/**
 * The notification protocol as state transformers: every handler is one atomic step
 * over the stores it shares with the others. The provider, the identifier source and
 * the admin directory are parameters, so the laws hold for each of their behaviours.
 */
module NotificationWorld {
  import opened Basics
  import opened AttemptStatus

  datatype Channel = Voice | Sms
  datatype Source = AssignedSre | AdminFallback | EndUser
  datatype Severity = Critical | High | Lower
  datatype Incident = Incident(severity: Severity, resolved: bool)

  datatype Stage = Active | Acked | Closed
  datatype State = State(organization: string, recipients: seq<string>, fallbackUsed: bool, stage: Stage)

  datatype Origin = ByCall(attemptId: string, callId: string) | BySlack(eventId: string) | ByApi
  datatype Acknowledgement = Acknowledgement(who: string, at: int, origin: Origin)

  datatype Target = Target(id: string, channels: seq<Channel>, source: Source)
  datatype Attempt = Attempt(id: string, incidentId: string, recipientId: string, source: Source,
                             channel: Channel, requestId: Option<string>, status: Status)

  datatype CommunicationType = Initial | EtaUpdate | Resolution
  datatype VoiceAction = AcknowledgeIncident | DeclineIncident | UnknownAction

  /** Idempotency keys; only a failing Slack handler releases one. */
  datatype Key =
    | DirectKey(incidentId: string, recipientId: string, channel: Channel)
    | FallbackKey(incidentId: string)
    | VoiceKey(incidentId: string, callId: string, action: VoiceAction)
    | SlackKey(eventId: string)
    | EndUserKey(incidentId: string, contactId: string, kind: CommunicationType, version: string)

  datatype AuditEvent =
    | NotificationStarted | RecipientResolved(recipientId: string) | FallbackUsed
    | ProviderRequested(attemptId: string) | CallFailed(attemptId: string)
    | CallAnswered(attemptId: string) | AcknowledgementRequested(attemptId: string)
    | IncidentAcknowledged(voiceCall: Option<string>) | IncidentDeclined(callId: string)
    | AcknowledgementRejected(callId: string) | NotificationStopped | IncidentResolved
  datatype AuditRecord = AuditRecord(incidentId: string, event: AuditEvent)

  datatype Outcome = Accepted(requestId: string, status: Status) | Rejected

  /** `commits` says whether the transaction that stores a voice acknowledgement goes through. */
  datatype Env = Env(provider: Key -> Outcome, newId: Key -> string, admins: string -> seq<Target>, commits: bool)

  /**
   * The stores, plus `effects`: every provider call made and every admin fallback begun,
   * in order, each named by the key it was claimed under.
   */
  datatype World = World(
    incidents: map<string, Incident>,
    states: map<string, State>,
    acks: map<string, Acknowledgement>,
    attempts: seq<Attempt>,
    keys: set<Key>,
    audit: seq<AuditRecord>,
    effects: seq<Key>)

  const EMPTY := World(map[], map[], map[], [], {}, [], [])

  // ----- Stores -----

  function Saved(attempts: seq<Attempt>, a: Attempt): seq<Attempt> {
    if attempts == [] then [a]
    else if attempts[0].id == a.id then [a] + attempts[1..]
    else [attempts[0]] + Saved(attempts[1..], a)
  }

  /** The new attempt stands in place of the first of its id, or at the end. */
  lemma {:induction false} SavedAt(attempts: seq<Attempt>, a: Attempt, i: nat)
    requires i <= |attempts| && (forall j :: 0 <= j < i ==> attempts[j].id != a.id)
    requires i < |attempts| ==> attempts[i].id == a.id
    ensures i < |attempts| ==> Saved(attempts, a) == attempts[i := a]
    ensures i == |attempts| ==> Saved(attempts, a) == attempts + [a]
    decreases attempts
  {
    if i == 0 {
      assert attempts != [] ==> attempts[0 := a] == [a] + attempts[1..];
      assert attempts == [] ==> attempts + [a] == [a];
    } else {
      var rest := attempts[1..];
      SavedAt(rest, a, i - 1);
      assert Saved(attempts, a) == [attempts[0]] + Saved(rest, a);
      assert i < |attempts| ==> [attempts[0]] + rest[i - 1 := a] == attempts[i := a];
      assert [attempts[0]] + (rest + [a]) == attempts + [a];
    }
  }

  function FindAttempt(attempts: seq<Attempt>, id: string): Option<Attempt> {
    if attempts == [] then None
    else if attempts[0].id == id then Some(attempts[0])
    else FindAttempt(attempts[1..], id)
  }

  function FindByRequest(attempts: seq<Attempt>, requestId: string): Option<Attempt> {
    if attempts == [] then None
    else if attempts[0].requestId == Some(requestId) then Some(attempts[0])
    else FindByRequest(attempts[1..], requestId)
  }

  function Logged(w: World, incidentId: string, event: AuditEvent): World {
    w.(audit := w.audit + [AuditRecord(incidentId, event)])
  }

  function Staged(w: World, incidentId: string, stage: Stage): World
    requires incidentId in w.states
  {
    w.(states := w.states[incidentId := w.states[incidentId].(stage := stage)])
  }

  /** `acknowledgements.save`: the first writer wins. */
  function WithAck(w: World, incidentId: string, ack: Acknowledgement): World {
    if incidentId in w.acks then w else w.(acks := w.acks[incidentId := ack])
  }

  predicate IsActive(w: World, incidentId: string) {
    incidentId in w.states && w.states[incidentId].stage == Active
  }

  // ----- Direct notification -----

  /** Bounds the recursion: an unclaimed fallback can still run once. */
  function FallbacksLeft(w: World, incidentId: string): nat {
    if FallbackKey(incidentId) in w.keys then 0 else 1
  }

  function Send(w: World, env: Env, incidentId: string, target: Target, channel: Channel): (r: World)
    ensures w.keys <= r.keys && r.acks == w.acks && r.incidents == w.incidents
    decreases FallbacksLeft(w, incidentId), 1, 0
  {
    var key := DirectKey(incidentId, target.id, channel);
    if key in w.keys then w
    else
      var attempt := Attempt(env.newId(key), incidentId, target.id, target.source, channel, None, Pending);
      var asked := w.(keys := w.keys + {key}, attempts := Saved(w.attempts, attempt),
                      effects := w.effects + [key]);
      match env.provider(key)
      case Accepted(requestId, status) =>
        var started := attempt.(requestId := Some(requestId), status := status);
        Logged(asked.(attempts := Saved(asked.attempts, started)), incidentId, ProviderRequested(attempt.id))
      case Rejected =>
        var failed := Logged(asked.(attempts := Saved(asked.attempts, attempt.(status := Failed))),
                             incidentId, CallFailed(attempt.id));
        if channel == Voice && target.source == AssignedSre then Fallback(failed, env, incidentId) else failed
  }

  function SendChannels(w: World, env: Env, incidentId: string, target: Target, channels: seq<Channel>): (r: World)
    ensures w.keys <= r.keys && r.acks == w.acks && r.incidents == w.incidents
    decreases FallbacksLeft(w, incidentId), 2, |channels|
  {
    if channels == [] then w
    else SendChannels(Send(w, env, incidentId, target, channels[0]), env, incidentId, target, channels[1..])
  }

  function Dispatch(w: World, env: Env, incidentId: string, targets: seq<Target>): (r: World)
    ensures w.keys <= r.keys && r.acks == w.acks && r.incidents == w.incidents
    decreases FallbacksLeft(w, incidentId), 3, |targets|
  {
    if targets == [] then w
    else
      var resolved := Logged(w, incidentId, RecipientResolved(targets[0].id));
      var sent := SendChannels(resolved, env, incidentId, targets[0], targets[0].channels);
      Dispatch(sent, env, incidentId, targets[1..])
  }

  function Ids(targets: seq<Target>): seq<string> {
    Map((t: Target) => t.id, targets)
  }

  /** First occurrences only, in order: `[...new Set(...)]`. */
  function Unique(s: seq<string>): seq<string> {
    if s == [] then []
    else
      var front := Unique(s[..|s| - 1]);
      if s[|s| - 1] in front then front else front + [s[|s| - 1]]
  }

  function Fallback(w: World, env: Env, incidentId: string): (r: World)
    ensures w.keys <= r.keys && r.acks == w.acks && r.incidents == w.incidents
    decreases FallbacksLeft(w, incidentId), 0, 0
  {
    var key := FallbackKey(incidentId);
    if !IsActive(w, incidentId) || key in w.keys then w
    else
      var claimed := w.(keys := w.keys + {key}, effects := w.effects + [key]);
      if incidentId !in w.incidents || w.incidents[incidentId].resolved then claimed
      else
        var state := w.states[incidentId];
        var admins := env.admins(state.organization);
        var widened := state.(recipients := Unique(state.recipients + Ids(admins)), fallbackUsed := true);
        Dispatch(Logged(claimed.(states := claimed.states[incidentId := widened]), incidentId, FallbackUsed),
                 env, incidentId, admins)
  }

  /** The recipients the resolver found for a cluster, and whether they are the admins. */
  datatype Resolved = Resolved(targets: seq<Target>, fallbackUsed: bool)

  predicate ShouldNotify(incident: Incident, highEnabled: bool) {
    !incident.resolved && (incident.severity == Critical || (incident.severity == High && highEnabled))
  }

  function HandleIncident(w: World, env: Env, highEnabled: bool, incidentId: string, incident: Incident,
                          organization: string, resolution: Resolved): World
  {
    if incident.resolved then Resolve(w, incidentId)
    else if !ShouldNotify(incident, highEnabled) then w
    else if incidentId in w.states
         && (w.states[incidentId].stage != Active || w.states[incidentId].recipients != []) then w
    else
      var state := State(organization, Ids(resolution.targets), resolution.fallbackUsed, Active);
      var started := Logged(w.(states := w.states[incidentId := state]), incidentId, NotificationStarted);
      var noted := if resolution.fallbackUsed then Logged(started, incidentId, FallbackUsed) else started;
      Dispatch(noted, env, incidentId, resolution.targets)
  }

  function Resolve(w: World, incidentId: string): World {
    if incidentId !in w.states || w.states[incidentId].stage == Closed then w
    else Logged(Staged(w, incidentId, Closed), incidentId, IncidentResolved)
  }

  // ----- Provider webhooks -----

  /** The statuses that end a call without an answer. */
  predicate CallEnded(status: Status) {
    status == Failed || status == NoAnswer || status == Cancelled || status == Declined
  }

  function ProcessProviderEvent(w: World, env: Env, requestId: string, status: Status): World {
    match FindByRequest(w.attempts, requestId)
    case None => w
    case Some(current) =>
      var next := Updated(current.status, status);
      if next == current.status then w
      else
        var updated := w.(attempts := Saved(w.attempts, current.(status := next)));
        var answered :=
          if status != Answered then updated
          else Logged(Logged(updated, current.incidentId, CallAnswered(current.id)),
                      current.incidentId, AcknowledgementRequested(current.id));
        if !CallEnded(status) then answered
        else
          var ended := Logged(answered, current.incidentId, CallFailed(current.id));
          if current.channel == Voice && current.source == AssignedSre
          then Fallback(ended, env, current.incidentId) else ended
  }

  // ----- Acknowledgement -----

  datatype Reply =
    | NotFound | BadRequest | Conflict
    | NowAcknowledged | NowDeclined | NotUnderstood | VoiceFailed
    | AlreadyAcknowledged | AlreadyDeclined | NoLongerRequired

  datatype VoiceRequest = VoiceRequest(incidentId: string, attemptId: string, recipientId: string,
                                       callId: string, action: VoiceAction, at: int)

  predicate Repeated(w: World, a: VoiceRequest) {
    || (a.action == AcknowledgeIncident
        && AuditRecord(a.incidentId, IncidentAcknowledged(Some(a.callId))) in w.audit)
    || (a.action == DeclineIncident
        && AuditRecord(a.incidentId, IncidentDeclined(a.callId)) in w.audit)
  }

  function AlreadyReply(action: VoiceAction): Reply {
    if action == AcknowledgeIncident then AlreadyAcknowledged else AlreadyDeclined
  }

  function VoiceResponse(w: World, env: Env, a: VoiceRequest): (World, Reply) {
    if a.incidentId !in w.incidents then (w, NotFound)
    else
      match FindAttempt(w.attempts, a.attemptId)
      case None => (w, BadRequest)
      case Some(attempt) =>
        if attempt.incidentId != a.incidentId || attempt.channel != Voice
           || attempt.recipientId != a.recipientId || attempt.requestId != Some(a.callId) then (w, BadRequest)
        else if Repeated(w, a) then (w, AlreadyReply(a.action))
        else if a.incidentId !in w.states then (w, Conflict)
        else if w.incidents[a.incidentId].resolved || w.states[a.incidentId].stage == Closed then
          (Logged(w, a.incidentId, AcknowledgementRejected(a.callId)), NoLongerRequired)
        else if w.states[a.incidentId].stage == Acked || a.incidentId in w.acks then (w, AlreadyAcknowledged)
        else if a.action == UnknownAction then
          (Logged(w, a.incidentId, AcknowledgementRejected(a.callId)), NotUnderstood)
        else Decide(w, env, a, attempt)
  }

  /**
   * The decision step, once the request is known to be valid and current. All that an
   * acknowledgement stores is stored in one transaction, or the handler throws; its
   * claim, taken before, is kept either way.
   */
  function Decide(w: World, env: Env, a: VoiceRequest, attempt: Attempt): (World, Reply)
    requires a.incidentId in w.states
  {
    var key := VoiceKey(a.incidentId, a.callId, a.action);
    if key in w.keys then (w, AlreadyReply(a.action))
    else
      var claimed := w.(keys := w.keys + {key});
      if a.action == AcknowledgeIncident && !env.commits then (claimed, VoiceFailed)
      else if a.action == AcknowledgeIncident then
        var ack := Acknowledgement(attempt.recipientId, a.at, ByCall(attempt.id, a.callId));
        var stopped := Staged(WithAck(claimed, a.incidentId, ack), a.incidentId, Acked);
        var saved := stopped.(attempts := Saved(stopped.attempts, attempt.(status := Acknowledged)));
        (Logged(Logged(saved, a.incidentId, IncidentAcknowledged(Some(a.callId))),
                a.incidentId, NotificationStopped), NowAcknowledged)
      else
        var saved := claimed.(attempts := Saved(claimed.attempts, attempt.(status := Declined)));
        (Fallback(Logged(saved, a.incidentId, IncidentDeclined(a.callId)), env, a.incidentId), NowDeclined)
  }

  /** `processProviderResponse`: the request is rebuilt from the attempt of the call. */
  function ProviderResponse(w: World, env: Env, callId: string, action: VoiceAction, at: int): (World, Option<Reply>) {
    match FindByRequest(w.attempts, callId)
    case None => (w, None)
    case Some(attempt) =>
      if attempt.channel != Voice then (w, None)
      else
        var request := VoiceRequest(attempt.incidentId, attempt.id, attempt.recipientId, callId, action, at);
        var (next, reply) := VoiceResponse(w, env, request);
        (next, Some(reply))
  }

  datatype SlackReply = SlackAcknowledged | SlackAlready | SlackResolved | TicketNotFound | Duplicate | SlackFailed

  /**
   * The first store call of an acknowledging handler that throws, if any does: before the
   * acknowledgement is stored, on the notification state, or on one of two audit writes.
   */
  datatype StoreFault = NoFault | AtLookup | AtState | AtAudit | AtLastAudit

  /** The handler's error path: the claim is released, unless the release throws too. */
  function Unclaimed(w: World, key: Key, released: bool): World {
    if released then w.(keys := w.keys - {key}) else w
  }

  /** `ticket` is the incident of the Slack thread, when the thread is one of ours. */
  function SlackAcknowledge(w: World, eventId: string, user: string, at: int, ticket: Option<string>,
                            fault: StoreFault, released: bool): (World, SlackReply)
  {
    var key := SlackKey(eventId);
    if key in w.keys then (w, Duplicate)
    else
      var claimed := w.(keys := w.keys + {key});
      if fault == AtLookup then (Unclaimed(claimed, key, released), SlackFailed)
      else
        match ticket
        case None => (claimed, TicketNotFound)
        case Some(incidentId) =>
          if incidentId !in w.incidents || w.incidents[incidentId].resolved then (claimed, SlackResolved)
          else if incidentId in w.acks then (claimed, SlackAlready)
          else
            var acked := WithAck(claimed, incidentId, Acknowledgement(user, at, BySlack(eventId)));
            if fault == AtState then (Unclaimed(acked, key, released), SlackFailed)
            else
              var was := IsActive(acked, incidentId);
              var staged := if was then Staged(acked, incidentId, Acked) else acked;
              if fault == AtAudit then (Unclaimed(staged, key, released), SlackFailed)
              else
                var noted := Logged(staged, incidentId, IncidentAcknowledged(None));
                if !was then (noted, SlackAcknowledged)
                else if fault == AtLastAudit then (Unclaimed(noted, key, released), SlackFailed)
                else (Logged(noted, incidentId, NotificationStopped), SlackAcknowledged)
  }

  datatype ApiReply = ApiNotFound | ApiFailed | ApiStored(ack: Acknowledgement)

  /** The API acknowledgement; what was stored before a fault stays stored. */
  function ApiAcknowledge(w: World, incidentId: string, who: string, at: int, fault: StoreFault): (World, ApiReply) {
    if fault == AtLookup then (w, ApiFailed)
    else if incidentId !in w.incidents then (w, ApiNotFound)
    else
      var acked := WithAck(w, incidentId, Acknowledgement(who, at, ByApi));
      if fault == AtState then (acked, ApiFailed)
      else
        var staged := if IsActive(acked, incidentId) then Staged(acked, incidentId, Acked) else acked;
        if fault == AtAudit then (staged, ApiFailed)
        else
          var noted := Logged(staged, incidentId, IncidentAcknowledged(None));
          (noted, if fault == AtLastAudit then ApiFailed else ApiStored(acked.acks[incidentId]))
  }

  // ----- End users -----

  function SendEndUserSms(w: World, env: Env, incidentId: string, contactId: string,
                          kind: CommunicationType, version: string): World
  {
    var key := EndUserKey(incidentId, contactId, kind, version);
    if key in w.keys then w
    else
      var attempt := Attempt(env.newId(key), incidentId, contactId, EndUser, Sms, None, Pending);
      var asked := w.(keys := w.keys + {key}, attempts := Saved(w.attempts, attempt),
                      effects := w.effects + [key]);
      match env.provider(key)
      case Accepted(requestId, status) =>
        var started := attempt.(requestId := Some(requestId), status := status);
        Logged(asked.(attempts := Saved(asked.attempts, started)), incidentId, ProviderRequested(attempt.id))
      case Rejected =>
        asked.(attempts := Saved(asked.attempts, attempt.(status := Failed)))
  }
}
