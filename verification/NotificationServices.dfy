/**
 * The handlers in the source's own form: services that read, claim and save through
 * shared stores. Each is proved to perform exactly its transition of NotificationWorld.
 */
module NotificationServices {
  import opened Basics
  import opened AttemptStatus
  import W = NotificationWorld

  class Stores {
    var incidents: map<string, W.Incident>
    var states: map<string, W.State>
    var acks: map<string, W.Acknowledgement>
    var attempts: seq<W.Attempt>
    var keys: set<W.Key>
    var audit: seq<W.AuditRecord>
    ghost var effects: seq<W.Key>

    ghost function World(): W.World
      reads this
    {
      W.World(incidents, states, acks, attempts, keys, audit, effects)
    }

    constructor ()
      ensures World() == W.EMPTY
    {
      incidents, states, acks := map[], map[], map[];
      attempts, keys, audit, effects := [], {}, [], [];
    }

    /** `idempotency.claim`. */
    method Claim(key: W.Key) returns (claimed: bool)
      modifies this
      ensures claimed == (key !in old(keys))
      ensures World() == old(World()).(keys := old(keys) + {key})
    {
      if key in keys {
        assert keys + {key} == keys;
        return false;
      }
      keys := keys + {key};
      return true;
    }

    /** `idempotency.release`, whose own failure is swallowed. */
    method Release(key: W.Key, ok: bool)
      modifies this
      ensures World() == W.Unclaimed(old(World()), key, ok)
    {
      if ok {
        keys := keys - {key};
      }
    }

    method SaveAttempt(attempt: W.Attempt)
      modifies this
      ensures World() == old(World()).(attempts := W.Saved(old(attempts), attempt))
    {
      hide W.Saved;
      var i := 0;
      while i < |attempts| && attempts[i].id != attempt.id
        invariant 0 <= i <= |attempts|
        invariant forall j :: 0 <= j < i ==> attempts[j].id != attempt.id
      {
        i := i + 1;
      }
      W.SavedAt(attempts, attempt, i);
      if i < |attempts| {
        attempts := attempts[i := attempt];
      } else {
        attempts := attempts + [attempt];
      }
    }

    /** `acknowledgements.save`: returns the stored record, which may be an earlier one. */
    method SaveAck(incidentId: string, ack: W.Acknowledgement) returns (stored: W.Acknowledgement)
      modifies this
      ensures World() == W.WithAck(old(World()), incidentId, ack)
      ensures incidentId in acks && stored == acks[incidentId]
    {
      if incidentId !in acks {
        acks := acks[incidentId := ack];
      }
      return acks[incidentId];
    }

    method SaveState(incidentId: string, state: W.State)
      modifies this
      ensures World() == old(World()).(states := old(states)[incidentId := state])
    {
      states := states[incidentId := state];
    }

    method Append(incidentId: string, event: W.AuditEvent)
      modifies this
      ensures World() == W.Logged(old(World()), incidentId, event)
    {
      audit := audit + [W.AuditRecord(incidentId, event)];
    }

    /** Records that something outside the stores happened under a claim. */
    ghost method Happened(key: W.Key)
      modifies this
      ensures World() == old(World()).(effects := old(effects) + [key])
    {
      effects := effects + [key];
    }
  }

  class NotificationService {
    const stores: Stores
    const env: W.Env
    const highEnabled: bool

    constructor (stores: Stores, env: W.Env, highEnabled: bool)
      ensures this.stores == stores && this.env == env && this.highEnabled == highEnabled
    {
      this.stores, this.env, this.highEnabled := stores, env, highEnabled;
    }

    method CallProvider(key: W.Key) returns (outcome: W.Outcome)
      modifies stores
      ensures outcome == env.provider(key)
      ensures stores.World() == old(stores.World()).(effects := old(stores.effects) + [key])
    {
      stores.Happened(key);
      return env.provider(key);
    }

    method Send(incidentId: string, target: W.Target, channel: W.Channel)
      modifies stores
      ensures stores.World() == W.Send(old(stores.World()), env, incidentId, target, channel)
      decreases W.FallbacksLeft(stores.World(), incidentId), 1, 0
    {
      hide W.Saved, W.Fallback;
      var key := W.DirectKey(incidentId, target.id, channel);
      var claimed := stores.Claim(key);
      if !claimed {
        assert stores.World() == old(stores.World());
        return;
      }
      var attempt := W.Attempt(env.newId(key), incidentId, target.id, target.source, channel, None, Pending);
      stores.SaveAttempt(attempt);
      var outcome := CallProvider(key);
      match outcome
      case Accepted(requestId, status) =>
        attempt := attempt.(requestId := Some(requestId), status := status);
        stores.SaveAttempt(attempt);
        stores.Append(incidentId, W.ProviderRequested(attempt.id));
      case Rejected =>
        attempt := attempt.(status := Failed);
        stores.SaveAttempt(attempt);
        stores.Append(incidentId, W.CallFailed(attempt.id));
        if channel == W.Voice && target.source == W.AssignedSre {
          FallbackToAdmin(incidentId);
        }
    }

    method SendChannels(incidentId: string, target: W.Target)
      modifies stores
      ensures stores.World() == W.SendChannels(old(stores.World()), env, incidentId, target, target.channels)
      decreases W.FallbacksLeft(stores.World(), incidentId), 2, 0
    {
      hide W.Send;
      for i := 0 to |target.channels|
        invariant old(stores.World()).keys <= stores.keys
        invariant W.SendChannels(old(stores.World()), env, incidentId, target, target.channels)
               == W.SendChannels(stores.World(), env, incidentId, target, target.channels[i..])
      {
        assert target.channels[i..][1..] == target.channels[i + 1..];
        Send(incidentId, target, target.channels[i]);
      }
    }

    method Dispatch(incidentId: string, targets: seq<W.Target>)
      modifies stores
      ensures stores.World() == W.Dispatch(old(stores.World()), env, incidentId, targets)
      decreases W.FallbacksLeft(stores.World(), incidentId), 3, 0
    {
      hide W.SendChannels;
      for i := 0 to |targets|
        invariant old(stores.World()).keys <= stores.keys
        invariant W.Dispatch(old(stores.World()), env, incidentId, targets)
               == W.Dispatch(stores.World(), env, incidentId, targets[i..])
      {
        assert targets[i..][1..] == targets[i + 1..];
        stores.Append(incidentId, W.RecipientResolved(targets[i].id));
        SendChannels(incidentId, targets[i]);
      }
    }

    method FallbackToAdmin(incidentId: string)
      modifies stores
      ensures stores.World() == W.Fallback(old(stores.World()), env, incidentId)
      decreases W.FallbacksLeft(stores.World(), incidentId), 0, 0
    {
      hide W.Dispatch, W.Unique, W.Ids;
      if incidentId !in stores.states || stores.states[incidentId].stage != W.Active {
        return;
      }
      var state := stores.states[incidentId];
      var claimed := stores.Claim(W.FallbackKey(incidentId));
      if !claimed {
        assert stores.World() == old(stores.World());
        return;
      }
      stores.Happened(W.FallbackKey(incidentId));
      if incidentId !in stores.incidents || stores.incidents[incidentId].resolved {
        return;
      }
      var admins := env.admins(state.organization);
      stores.SaveState(incidentId, state.(recipients := W.Unique(state.recipients + W.Ids(admins)),
                                          fallbackUsed := true));
      stores.Append(incidentId, W.FallbackUsed);
      Dispatch(incidentId, admins);
    }

    method HandleIncident(incidentId: string, incident: W.Incident, organization: string, resolution: W.Resolved)
      modifies stores
      ensures stores.World() == W.HandleIncident(old(stores.World()), env, highEnabled, incidentId, incident,
                                                 organization, resolution)
    {
      hide W.Dispatch, W.Ids;
      if incident.resolved {
        Resolve(incidentId);
        return;
      }
      if !W.ShouldNotify(incident, highEnabled) {
        return;
      }
      if incidentId in stores.states {
        var existing := stores.states[incidentId];
        if existing.stage != W.Active || existing.recipients != [] {
          return;
        }
      }
      var state := W.State(organization, W.Ids(resolution.targets), resolution.fallbackUsed, W.Active);
      stores.SaveState(incidentId, state);
      stores.Append(incidentId, W.NotificationStarted);
      if resolution.fallbackUsed {
        stores.Append(incidentId, W.FallbackUsed);
      }
      Dispatch(incidentId, resolution.targets);
    }

    method Resolve(incidentId: string)
      modifies stores
      ensures stores.World() == W.Resolve(old(stores.World()), incidentId)
    {
      if incidentId !in stores.states || stores.states[incidentId].stage == W.Closed {
        return;
      }
      stores.SaveState(incidentId, stores.states[incidentId].(stage := W.Closed));
      stores.Append(incidentId, W.IncidentResolved);
    }

    method ProcessProviderEvent(requestId: string, status: Status)
      modifies stores
      ensures stores.World() == W.ProcessProviderEvent(old(stores.World()), env, requestId, status)
    {
      hide W.Saved, W.Fallback, W.FindByRequest;
      var found := W.FindByRequest(stores.attempts, requestId);
      if found == None {
        return;
      }
      var current := found.value;
      var next := Updated(current.status, status);
      if next == current.status {
        return;
      }
      stores.SaveAttempt(current.(status := next));
      if status == Answered {
        stores.Append(current.incidentId, W.CallAnswered(current.id));
        stores.Append(current.incidentId, W.AcknowledgementRequested(current.id));
      }
      if W.CallEnded(status) {
        stores.Append(current.incidentId, W.CallFailed(current.id));
        if current.channel == W.Voice && current.source == W.AssignedSre {
          FallbackToAdmin(current.incidentId);
        }
      }
    }
  }

  class EndUserService {
    const stores: Stores
    const notifications: NotificationService

    constructor (notifications: NotificationService)
      ensures this.notifications == notifications && stores == notifications.stores
    {
      this.notifications := notifications;
      stores := notifications.stores;
    }

    method SendSms(incidentId: string, contactId: string, kind: W.CommunicationType, version: string)
      requires stores == notifications.stores
      modifies stores
      ensures stores.World()
           == W.SendEndUserSms(old(stores.World()), notifications.env, incidentId, contactId, kind, version)
    {
      hide W.Saved;
      var key := W.EndUserKey(incidentId, contactId, kind, version);
      var claimed := stores.Claim(key);
      if !claimed {
        assert stores.World() == old(stores.World());
        return;
      }
      var attempt := W.Attempt(notifications.env.newId(key), incidentId, contactId, W.EndUser, W.Sms, None, Pending);
      stores.SaveAttempt(attempt);
      var outcome := notifications.CallProvider(key);
      match outcome
      case Accepted(requestId, status) =>
        stores.SaveAttempt(attempt.(requestId := Some(requestId), status := status));
        stores.Append(incidentId, W.ProviderRequested(attempt.id));
      case Rejected =>
        stores.SaveAttempt(attempt.(status := Failed));
    }
  }

  class VoiceActionService {
    const stores: Stores
    const notifications: NotificationService

    constructor (notifications: NotificationService)
      ensures this.notifications == notifications && stores == notifications.stores
    {
      this.notifications := notifications;
      stores := notifications.stores;
    }

    method Process(a: W.VoiceRequest) returns (reply: W.Reply)
      requires stores == notifications.stores
      modifies stores
      ensures (stores.World(), reply) == W.VoiceResponse(old(stores.World()), notifications.env, a)
    {
      hide W.Saved, W.Fallback, W.FindAttempt;
      if a.incidentId !in stores.incidents {
        return W.NotFound;
      }
      var found := W.FindAttempt(stores.attempts, a.attemptId);
      if found == None {
        return W.BadRequest;
      }
      var attempt := found.value;
      if attempt.incidentId != a.incidentId || attempt.channel != W.Voice
         || attempt.recipientId != a.recipientId || attempt.requestId != Some(a.callId) {
        return W.BadRequest;
      }
      var w := W.World(stores.incidents, stores.states, stores.acks, stores.attempts, stores.keys, stores.audit, []);
      if W.Repeated(w, a) {
        return W.AlreadyReply(a.action);
      }
      if a.incidentId !in stores.states {
        return W.Conflict;
      }
      var state := stores.states[a.incidentId];
      if stores.incidents[a.incidentId].resolved || state.stage == W.Closed {
        stores.Append(a.incidentId, W.AcknowledgementRejected(a.callId));
        return W.NoLongerRequired;
      }
      if state.stage == W.Acked || a.incidentId in stores.acks {
        return W.AlreadyAcknowledged;
      }
      if a.action == W.UnknownAction {
        stores.Append(a.incidentId, W.AcknowledgementRejected(a.callId));
        return W.NotUnderstood;
      }
      var claimed := stores.Claim(W.VoiceKey(a.incidentId, a.callId, a.action));
      if !claimed {
        assert stores.World() == old(stores.World());
        return W.AlreadyReply(a.action);
      }
      if a.action == W.AcknowledgeIncident {
        // `acknowledgementTransaction.acknowledge`: everything it stores, or nothing.
        if !notifications.env.commits {
          return W.VoiceFailed;
        }
        var ack := W.Acknowledgement(attempt.recipientId, a.at, W.ByCall(attempt.id, a.callId));
        var _ := stores.SaveAck(a.incidentId, ack);
        stores.SaveState(a.incidentId, state.(stage := W.Acked));
        stores.SaveAttempt(attempt.(status := Acknowledged));
        stores.Append(a.incidentId, W.IncidentAcknowledged(Some(a.callId)));
        stores.Append(a.incidentId, W.NotificationStopped);
        return W.NowAcknowledged;
      }
      stores.SaveAttempt(attempt.(status := Declined));
      stores.Append(a.incidentId, W.IncidentDeclined(a.callId));
      notifications.FallbackToAdmin(a.incidentId);
      return W.NowDeclined;
    }

    method ProcessProviderResponse(callId: string, action: W.VoiceAction, at: int) returns (reply: Option<W.Reply>)
      requires stores == notifications.stores
      modifies stores
      ensures (stores.World(), reply) == W.ProviderResponse(old(stores.World()), notifications.env, callId, action, at)
    {
      hide W.VoiceResponse, W.FindByRequest;
      var found := W.FindByRequest(stores.attempts, callId);
      if found == None || found.value.channel != W.Voice {
        return None;
      }
      var attempt := found.value;
      var r := Process(W.VoiceRequest(attempt.incidentId, attempt.id, attempt.recipientId, callId, action, at));
      return Some(r);
    }
  }

  class AcknowledgementEndpoints {
    const stores: Stores

    constructor (stores: Stores)
      ensures this.stores == stores
    {
      this.stores := stores;
    }

    /** `SlackAcknowledgementService.acknowledge`; a fault is the store call that throws. */
    method FromSlack(eventId: string, user: string, at: int, ticket: Option<string>,
                     fault: W.StoreFault, released: bool) returns (reply: W.SlackReply)
      modifies stores
      ensures (stores.World(), reply)
           == W.SlackAcknowledge(old(stores.World()), eventId, user, at, ticket, fault, released)
    {
      var key := W.SlackKey(eventId);
      var claimed := stores.Claim(key);
      if !claimed {
        assert stores.World() == old(stores.World());
        return W.Duplicate;
      }
      if fault == W.AtLookup {
        stores.Release(key, released);
        return W.SlackFailed;
      }
      if ticket == None {
        return W.TicketNotFound;
      }
      var incidentId := ticket.value;
      if incidentId !in stores.incidents || stores.incidents[incidentId].resolved {
        return W.SlackResolved;
      }
      if incidentId in stores.acks {
        return W.SlackAlready;
      }
      // The source checks here that its own record won; within one atomic step it always does.
      var _ := stores.SaveAck(incidentId, W.Acknowledgement(user, at, W.BySlack(eventId)));
      if fault == W.AtState {
        stores.Release(key, released);
        return W.SlackFailed;
      }
      var active := incidentId in stores.states && stores.states[incidentId].stage == W.Active;
      if active {
        stores.SaveState(incidentId, stores.states[incidentId].(stage := W.Acked));
      }
      if fault == W.AtAudit {
        stores.Release(key, released);
        return W.SlackFailed;
      }
      stores.Append(incidentId, W.IncidentAcknowledged(None));
      if active {
        if fault == W.AtLastAudit {
          stores.Release(key, released);
          return W.SlackFailed;
        }
        stores.Append(incidentId, W.NotificationStopped);
      }
      return W.SlackAcknowledged;
    }

    /** `IncidentAcknowledgementController.acknowledge`; a fault is the store call that throws. */
    method FromApi(incidentId: string, who: string, at: int, fault: W.StoreFault) returns (reply: W.ApiReply)
      modifies stores
      ensures (stores.World(), reply) == W.ApiAcknowledge(old(stores.World()), incidentId, who, at, fault)
    {
      if fault == W.AtLookup {
        return W.ApiFailed;
      }
      if incidentId !in stores.incidents {
        return W.ApiNotFound;
      }
      var value := stores.SaveAck(incidentId, W.Acknowledgement(who, at, W.ByApi));
      if fault == W.AtState {
        return W.ApiFailed;
      }
      if incidentId in stores.states && stores.states[incidentId].stage == W.Active {
        stores.SaveState(incidentId, stores.states[incidentId].(stage := W.Acked));
      }
      if fault == W.AtAudit {
        return W.ApiFailed;
      }
      stores.Append(incidentId, W.IncidentAcknowledged(None));
      if fault == W.AtLastAudit {
        return W.ApiFailed;
      }
      return W.ApiStored(value);
    }
  }
}
