/**
 * The protocol at the grain of single store operations: any number of redelivered
 * messages, webhooks, acknowledgements, Slack replies and ticket posts run at once, and
 * each read, claim, provider call, save or release is a step of its own. A task that is
 * never scheduled again has crashed.
 */
module Interleavings {
  import opened Basics
  import opened NotificationWorld

  datatype Job = Job(recipientId: string, channel: Channel)

  datatype Claim =
    | SendClaim(incidentId: string, job: Job)
    | FallbackClaim(incidentId: string)
    | ReplyClaim(ticketId: string, updateId: string)
    | TicketClaim(incidentId: string)
    | VoiceClaim(incidentId: string, callId: string)

  datatype Task =
    /** `send`; an engineer's call carries the admins to fall back to. */
    | SendTask(incidentId: string, job: Job, escalation: Option<seq<Job>>)
    | NotifyTask(incidentId: string, jobs: seq<Job>, admins: seq<Job>)
    | FallbackTask(incidentId: string, admins: seq<Job>)
    | AckTask(incidentId: string, who: string)
    /** A voice acknowledgement; `whole` says that it is stored in one transaction, as in production. */
    | VoiceTask(incidentId: string, callId: string, who: string, whole: bool)
    | ResolveTask(incidentId: string)
    | ReplyTask(ticketId: string, updateId: string)
    | TicketTask(incidentId: string, message: string)

  datatype Pc = Start | Read | Claimed | Failed | Posted | Stored | Done
  datatype Thread = Thread(task: Task, pc: Pc)

  /** `log` holds the provider calls, fallbacks begun and replies posted, in order. */
  datatype Shared = Shared(
    keys: set<Claim>,
    log: seq<Claim>,
    stages: map<string, Stage>,
    acks: map<string, string>,
    tickets: map<string, string>)

  datatype System = System(shared: Shared, threads: seq<Thread>)
  datatype Event = Spawn(task: Task) | Act(index: nat, ok: bool)

  const IDLE := System(Shared({}, [], map[], map[], map[]), [])

  function Sends(incidentId: string, jobs: seq<Job>, admins: Option<seq<Job>>): seq<Thread> {
    Map((j: Job) => Thread(SendTask(incidentId, j, admins), Start), jobs)
  }

  /** What a thread's next store operation or external call does; `ok` is its outcome. */
  function ThreadStep(s: Shared, t: Thread, ok: bool): (Shared, Pc, seq<Thread>) {
    match t.task
    case SendTask(id, job, admins) => SendStep(s, id, job, admins, t.pc, ok)
    case NotifyTask(id, jobs, admins) => NotifyStep(s, id, jobs, admins, t.pc, ok)
    case FallbackTask(id, admins) => FallbackStep(s, id, admins, t.pc, ok)
    case AckTask(id, who) => AckStep(s, id, who, t.pc, ok)
    case VoiceTask(id, callId, who, whole) => VoiceStep(s, id, callId, who, whole, t.pc, ok)
    case ResolveTask(id) => ResolveStep(s, id, t.pc)
    case ReplyTask(ticketId, updateId) => ReplyStep(s, ReplyClaim(ticketId, updateId), t.pc, ok)
    case TicketTask(id, message) => TicketStep(s, id, message, t.pc, ok)
  }

  function SendStep(s: Shared, id: string, job: Job, admins: Option<seq<Job>>,
                    pc: Pc, ok: bool): (Shared, Pc, seq<Thread>)
  {
    var k := SendClaim(id, job);
    match pc
    case Start => if k in s.keys then (s, Done, []) else (s.(keys := s.keys + {k}), Claimed, [])
    case Claimed =>
      (s.(log := s.log + [k]), Done,
       if !ok && admins.Some? then [Thread(FallbackTask(id, admins.value), Start)] else [])
    case _ => (s, Done, [])
  }

  /** A state that is ACTIVE without recipients is notified again; `ok` says it has some. */
  function NotifyStep(s: Shared, id: string, jobs: seq<Job>, admins: seq<Job>,
                      pc: Pc, ok: bool): (Shared, Pc, seq<Thread>)
  {
    match pc
    case Start => if id in s.stages && (s.stages[id] != Active || ok) then (s, Done, []) else (s, Read, [])
    case Read => (s.(stages := s.stages[id := Active]), Stored, [])
    case Stored => (s, Done, Sends(id, jobs, Some(admins)))
    case _ => (s, Done, [])
  }

  /** The state saved after the claim is the copy read before it, so it says ACTIVE. */
  function FallbackStep(s: Shared, id: string, admins: seq<Job>, pc: Pc, ok: bool): (Shared, Pc, seq<Thread>) {
    var k := FallbackClaim(id);
    match pc
    case Start => if id in s.stages && s.stages[id] == Active then (s, Read, []) else (s, Done, [])
    case Read =>
      if k in s.keys then (s, Done, []) else (s.(keys := s.keys + {k}, log := s.log + [k]), Claimed, [])
    case Claimed => if ok then (s.(stages := s.stages[id := Active]), Stored, []) else (s, Done, [])
    case Stored => (s, Done, Sends(id, admins, None))
    case _ => (s, Done, [])
  }

  /** `ok` says that a lost first-writer race does not end the handler (the API path). */
  function AckStep(s: Shared, id: string, who: string, pc: Pc, ok: bool): (Shared, Pc, seq<Thread>) {
    match pc
    case Start =>
      if id !in s.acks then (s.(acks := s.acks[id := who]), Stored, [])
      else (s, if ok then Stored else Done, [])
    case Stored => if id in s.stages && s.stages[id] == Active then (s, Read, []) else (s, Done, [])
    case Read => (s.(stages := s.stages[id := Acked]), Done, [])
    case _ => (s, Done, [])
  }

  /** The acknowledgement transaction: the first writer wins, and only an ACTIVE incident is stopped. */
  function Committed(s: Shared, id: string, who: string): Shared {
    s.(acks := if id in s.acks then s.acks else s.acks[id := who],
       stages := if id in s.stages && s.stages[id] == Active then s.stages[id := Acked] else s.stages)
  }

  /**
   * A voice acknowledgement. The transaction writes all or, when it fails, nothing; the
   * plain form saves the acknowledgement and then, unconditionally, the copy of the state
   * it read before its claim.
   */
  function VoiceStep(s: Shared, id: string, callId: string, who: string, whole: bool,
                     pc: Pc, ok: bool): (Shared, Pc, seq<Thread>)
  {
    var k := VoiceClaim(id, callId);
    match pc
    case Start => if id in s.stages && s.stages[id] == Active && id !in s.acks then (s, Read, []) else (s, Done, [])
    case Read => if k in s.keys then (s, Done, []) else (s.(keys := s.keys + {k}), Claimed, [])
    case Claimed =>
      if whole then (if ok then Committed(s, id, who) else s, Done, [])
      else (if id in s.acks then s else s.(acks := s.acks[id := who]), Stored, [])
    case Stored => (if whole then s else s.(stages := s.stages[id := Acked]), Done, [])
    case _ => (s, Done, [])
  }

  function ResolveStep(s: Shared, id: string, pc: Pc): (Shared, Pc, seq<Thread>) {
    match pc
    case Start => if id in s.stages && s.stages[id] != Closed then (s, Read, []) else (s, Done, [])
    case Read => (s.(stages := s.stages[id := Closed]), Done, [])
    case _ => (s, Done, [])
  }

  /** A failed post releases its claim, unless the release fails too. */
  function ReplyStep(s: Shared, k: Claim, pc: Pc, ok: bool): (Shared, Pc, seq<Thread>) {
    match pc
    case Start => if k in s.keys then (s, Done, []) else (s.(keys := s.keys + {k}), Claimed, [])
    case Claimed => if ok then (s.(log := s.log + [k]), Done, []) else (s, Failed, [])
    case Failed => (if ok then s.(keys := s.keys - {k}) else s, Done, [])
    case _ => (s, Done, [])
  }

  function TicketStep(s: Shared, id: string, message: string, pc: Pc, ok: bool): (Shared, Pc, seq<Thread>) {
    var k := TicketClaim(id);
    match pc
    case Start => if id in s.tickets then (s, Done, []) else (s, Read, [])
    case Read => if k in s.keys then (s, Done, []) else (s.(keys := s.keys + {k}), Claimed, [])
    case Claimed => (s, if ok then Posted else Failed, [])
    case Failed => (if ok then s.(keys := s.keys - {k}) else s, Done, [])
    case Posted =>
      if !ok then (s, Done, [])
      else (if id in s.tickets then s else s.(tickets := s.tickets[id := message]), Stored, [])
    case Stored => (if ok then s.(keys := s.keys - {k}) else s, Done, [])
    case Done => (s, Done, [])
  }

  function Next(y: System, e: Event): System {
    match e
    case Spawn(task) => y.(threads := y.threads + [Thread(task, Start)])
    case Act(i, ok) =>
      if i >= |y.threads| then y
      else
        var (s, pc, spawned) := ThreadStep(y.shared, y.threads[i], ok);
        System(s, y.threads[i := y.threads[i].(pc := pc)] + spawned)
  }

  function Run(y: System, events: seq<Event>): System
    decreases |events|
  {
    if events == [] then y else Run(Next(y, events[0]), events[1..])
  }

  // ----- A handler that nothing interrupts -----

  /** One thread runs while all others wait; the outcomes of its calls are given. */
  function Alone(s: Shared, t: Thread, oks: seq<bool>): (Shared, Thread, seq<Thread>)
    decreases |oks|
  {
    if oks == [] then (s, t, [])
    else
      var (r, pc, spawned) := ThreadStep(s, t, oks[0]);
      var (rest, last, more) := Alone(r, t.(pc := pc), oks[1..]);
      (rest, last, spawned + more)
  }

  lemma AloneStep(s: Shared, t: Thread, ok: bool, oks: seq<bool>)
    ensures var (r, pc, spawned) := ThreadStep(s, t, ok);
            var (rest, last, more) := Alone(r, t.(pc := pc), oks);
            Alone(s, t, [ok] + oks) == (rest, last, spawned + more)
  {
    assert ([ok] + oks)[1..] == oks;
  }

  predicate ActiveIn(s: Shared, id: string) {
    id in s.stages && s.stages[id] == Active
  }

  /** A contact is claimed and made once; a refused call to an engineer falls back. */
  lemma AloneSend(s: Shared, id: string, job: Job, admins: Option<seq<Job>>, ok: bool)
    ensures var (r, t, spawned) := Alone(s, Thread(SendTask(id, job, admins), Start), [true] + ([ok] + []));
            var k := SendClaim(id, job);
            && t.pc == Done
            && (k in s.keys ==> r == s && spawned == [])
            && (k !in s.keys ==> r == s.(keys := s.keys + {k}, log := s.log + [k]))
            && (k !in s.keys ==>
                  spawned == if !ok && admins.Some? then [Thread(FallbackTask(id, admins.value), Start)] else [])
  {
    hide Alone;
    var t := Thread(SendTask(id, job, admins), Start);
    AloneStep(s, t, true, [ok] + []);
    var (r1, pc1, _) := ThreadStep(s, t, true);
    AloneStep(r1, t.(pc := pc1), ok, []);
    AloneEnds();
  }

  lemma AloneEnds()
    ensures forall s, t :: Alone(s, t, []) == (s, t, [])
  {
  }

  lemma SendsMeaning(id: string, jobs: seq<Job>, admins: Option<seq<Job>>)
    ensures SendsTo(Sends(id, jobs, admins), id, jobs, admins)
    ensures Sends(id, jobs, admins) + [] == Sends(id, jobs, admins) == [] + Sends(id, jobs, admins)
  {
  }

  /** A notification starts, unless one has left ACTIVE or has recipients, and sends to everyone. */
  lemma AloneNotify(s: Shared, id: string, jobs: seq<Job>, admins: seq<Job>, hasRecipients: bool)
    ensures var (r, t, spawned) :=
              Alone(s, Thread(NotifyTask(id, jobs, admins), Start), [hasRecipients] + ([true] + ([true] + [])));
            var due := id !in s.stages || (s.stages[id] == Active && !hasRecipients);
            && t.pc == Done
            && (due ==> r == s.(stages := s.stages[id := Active]) && SendsTo(spawned, id, jobs, Some(admins)))
            && (!due ==> r == s && spawned == [])
  {
    hide Alone, Sends, SendsTo, SendStep, FallbackStep, AckStep, VoiceStep, ResolveStep, ReplyStep, TicketStep;
    SendsMeaning(id, jobs, Some(admins));
    var t := Thread(NotifyTask(id, jobs, admins), Start);
    AloneStep(s, t, hasRecipients, [true] + ([true] + []));
    var (r1, pc1, _) := ThreadStep(s, t, hasRecipients);
    AloneStep(r1, t.(pc := pc1), true, [true] + []);
    var (r2, pc2, _) := ThreadStep(r1, t.(pc := pc1), true);
    AloneStep(r2, t.(pc := pc2), true, []);
    AloneEnds();
  }

  /** One new thread for each job, in order. */
  predicate SendsTo(spawned: seq<Thread>, id: string, jobs: seq<Job>, admins: Option<seq<Job>>) {
    && |spawned| == |jobs|
    && forall i :: 0 <= i < |jobs| ==> spawned[i] == Thread(SendTask(id, jobs[i], admins), Start)
  }

  /** A fallback begins once while the incident is ACTIVE, and reaches the administrators if it is `open`. */
  lemma AloneFallback(s: Shared, id: string, admins: seq<Job>, open: bool)
    ensures var (r, t, spawned) :=
              Alone(s, Thread(FallbackTask(id, admins), Start), [true] + ([true] + ([open] + ([true] + []))));
            var k := FallbackClaim(id);
            var begins := ActiveIn(s, id) && k !in s.keys;
            && t.pc == Done
            && r == (if begins then s.(keys := s.keys + {k}, log := s.log + [k]) else s)
            && (begins && open ==> SendsTo(spawned, id, admins, None))
            && (!begins || !open ==> spawned == [])
  {
    hide Alone, Sends, SendsTo, SendStep, NotifyStep, AckStep, VoiceStep, ResolveStep, ReplyStep, TicketStep;
    SendsMeaning(id, admins, None);
    var t := Thread(FallbackTask(id, admins), Start);
    AloneStep(s, t, true, [true] + ([open] + ([true] + [])));
    var (r1, pc1, _) := ThreadStep(s, t, true);
    AloneStep(r1, t.(pc := pc1), true, [open] + ([true] + []));
    var (r2, pc2, _) := ThreadStep(r1, t.(pc := pc1), true);
    AloneStep(r2, t.(pc := pc2), open, [true] + []);
    var (r3, pc3, _) := ThreadStep(r2, t.(pc := pc2), open);
    AloneStep(r3, t.(pc := pc3), true, []);
    AloneEnds();
    assert ActiveIn(s, id) ==> s.stages[id := Active] == s.stages;
  }

  /** An acknowledgement: the first is stored, and an ACTIVE incident is stopped, unless Slack lost the race. */
  lemma AloneAck(s: Shared, id: string, who: string, again: bool)
    ensures var (r, t, spawned) := Alone(s, Thread(AckTask(id, who), Start), [again] + ([true] + ([true] + [])));
            && t.pc == Done && spawned == []
            && (id in s.acks && !again ==> r == s)
            && (id !in s.acks || again ==>
                  r == s.(acks := if id in s.acks then s.acks else s.acks[id := who],
                          stages := if ActiveIn(s, id) then s.stages[id := Acked] else s.stages))
  {
    hide Alone;
    var t := Thread(AckTask(id, who), Start);
    AloneStep(s, t, again, [true] + ([true] + []));
    var (r1, pc1, _) := ThreadStep(s, t, again);
    AloneStep(r1, t.(pc := pc1), true, [true] + []);
    var (r2, pc2, _) := ThreadStep(r1, t.(pc := pc1), true);
    AloneStep(r2, t.(pc := pc2), true, []);
    AloneEnds();
  }

  /** A voice acknowledgement, in one transaction or not, counts once for its call while undecided. */
  lemma AloneVoice(s: Shared, id: string, callId: string, who: string, whole: bool, commits: bool)
    ensures var oks := [true] + ([true] + ([commits] + ([true] + [])));
            var (r, t, spawned) := Alone(s, Thread(VoiceTask(id, callId, who, whole), Start), oks);
            var k := VoiceClaim(id, callId);
            var counts := ActiveIn(s, id) && id !in s.acks && k !in s.keys;
            && t.pc == Done && spawned == []
            && (!counts ==> r == s)
            && (counts && whole && !commits ==> r == s.(keys := s.keys + {k}))
            && (counts && (!whole || commits) ==>
                  r == s.(keys := s.keys + {k}, acks := s.acks[id := who], stages := s.stages[id := Acked]))
  {
    hide Alone;
    var t := Thread(VoiceTask(id, callId, who, whole), Start);
    AloneStep(s, t, true, [true] + ([commits] + ([true] + [])));
    var (r1, pc1, _) := ThreadStep(s, t, true);
    AloneStep(r1, t.(pc := pc1), true, [commits] + ([true] + []));
    var (r2, pc2, _) := ThreadStep(r1, t.(pc := pc1), true);
    AloneStep(r2, t.(pc := pc2), commits, [true] + []);
    var (r3, pc3, _) := ThreadStep(r2, t.(pc := pc2), commits);
    AloneStep(r3, t.(pc := pc3), true, []);
    AloneEnds();
  }

  lemma AloneResolve(s: Shared, id: string)
    ensures var (r, t, spawned) := Alone(s, Thread(ResolveTask(id), Start), [true] + ([true] + []));
            && t.pc == Done && spawned == []
            && r == if id in s.stages then s.(stages := s.stages[id := Closed]) else s
  {
    hide Alone;
    var t := Thread(ResolveTask(id), Start);
    AloneStep(s, t, true, [true] + []);
    var (r1, pc1, _) := ThreadStep(s, t, true);
    AloneStep(r1, t.(pc := pc1), true, []);
    AloneEnds();
    assert id in s.stages && s.stages[id] == Closed ==> s.stages[id := Closed] == s.stages;
  }

  /** A reply is posted once under its claim; a failed one leaves nothing, if its claim can be released. */
  lemma AloneReply(s: Shared, ticketId: string, updateId: string, posts: bool, releases: bool)
    ensures var oks := [true] + ([posts] + ([releases] + []));
            var (r, t, spawned) := Alone(s, Thread(ReplyTask(ticketId, updateId), Start), oks);
            var k := ReplyClaim(ticketId, updateId);
            && t.pc == Done && spawned == []
            && (k in s.keys ==> r == s)
            && (k !in s.keys && posts ==> r == s.(keys := s.keys + {k}, log := s.log + [k]))
            && (k !in s.keys && !posts ==> r == if releases then s else s.(keys := s.keys + {k}))
  {
    hide Alone;
    var t := Thread(ReplyTask(ticketId, updateId), Start);
    AloneStep(s, t, true, [posts] + ([releases] + []));
    var (r1, pc1, _) := ThreadStep(s, t, true);
    AloneStep(r1, t.(pc := pc1), posts, [releases] + []);
    var (r2, pc2, _) := ThreadStep(r1, t.(pc := pc1), posts);
    AloneStep(r2, t.(pc := pc2), releases, []);
    AloneEnds();
    var k := ReplyClaim(ticketId, updateId);
    assert k !in s.keys ==> s.keys + {k} - {k} == s.keys;
  }

  /** A ticket is posted and stored while none is there, and its claim released afterwards. */
  lemma AloneTicket(s: Shared, id: string, message: string, posts: bool)
    ensures var oks := [true] + ([true] + ([posts] + ([true] + ([true] + []))));
            var (r, t, spawned) := Alone(s, Thread(TicketTask(id, message), Start), oks);
            && t.pc == Done && spawned == []
            && r == if id in s.tickets || TicketClaim(id) in s.keys || !posts then s
                    else s.(tickets := s.tickets[id := message])
  {
    hide Alone;
    var t := Thread(TicketTask(id, message), Start);
    AloneStep(s, t, true, [true] + ([posts] + ([true] + ([true] + []))));
    var (r1, pc1, _) := ThreadStep(s, t, true);
    AloneStep(r1, t.(pc := pc1), true, [posts] + ([true] + ([true] + [])));
    var (r2, pc2, _) := ThreadStep(r1, t.(pc := pc1), true);
    AloneStep(r2, t.(pc := pc2), posts, [true] + ([true] + []));
    var (r3, pc3, _) := ThreadStep(r2, t.(pc := pc2), posts);
    AloneStep(r3, t.(pc := pc3), true, [true] + []);
    var (r4, pc4, _) := ThreadStep(r3, t.(pc := pc3), true);
    AloneStep(r4, t.(pc := pc4), true, []);
    AloneEnds();
    var k := TicketClaim(id);
    assert k !in s.keys ==> s.keys + {k} - {k} == s.keys;
  }

  // ----- At most once -----

  /** The claim a thread owns and has not yet used up or released. */
  function Held(t: Thread): Option<Claim> {
    match t.task
    case SendTask(id, job, _) => if t.pc == Claimed then Some(SendClaim(id, job)) else None
    case ReplyTask(ticketId, updateId) =>
      if t.pc == Claimed || t.pc == Failed then Some(ReplyClaim(ticketId, updateId)) else None
    case TicketTask(id, _) =>
      if t.pc == Claimed || t.pc == Failed || t.pc == Posted || t.pc == Stored then Some(TicketClaim(id)) else None
    case _ => None
  }

  ghost predicate Distinct(log: seq<Claim>) {
    forall i, j :: 0 <= i < j < |log| ==> log[i] != log[j]
  }

  /** Used claims stay claimed, and nobody owns a claim that is used or owned elsewhere. */
  ghost predicate Sound(y: System) {
    && Distinct(y.shared.log)
    && (forall k :: k in y.shared.log ==> k in y.shared.keys && !k.TicketClaim?)
    && (forall i :: 0 <= i < |y.threads| && Held(y.threads[i]).Some? ==>
          && Held(y.threads[i]).value in y.shared.keys
          && Held(y.threads[i]).value !in y.shared.log)
    && (forall i, j :: 0 <= i < j < |y.threads| && Held(y.threads[i]).Some? ==>
          Held(y.threads[i]) != Held(y.threads[j]))
  }

  /** The claim a step has put to use, if any. */
  function Used(s: Shared, r: Shared): Option<Claim> {
    if |r.log| > |s.log| then Some(r.log[|s.log|]) else None
  }

  /** A thread's step only touches claims it owns or that nobody owns. */
  ghost predicate ClaimsRespected(s: Shared, t: Thread, r: Shared, pc: Pc, spawned: seq<Thread>) {
    var before, after, used := Held(t), Held(t.(pc := pc)), Used(s, r);
    && (forall i :: 0 <= i < |spawned| ==> Held(spawned[i]) == None)
    && r.log == s.log + (if used.Some? then [used.value] else [])
    && (used.Some? ==> used.value in r.keys && !used.value.TicketClaim?
                       && after == None && (before == used || used.value !in s.keys))
    && (forall k :: k in s.keys && k !in r.keys ==> before == Some(k) && after == None && used == None)
    && (after.Some? ==> after.value in r.keys && (after == before || after.value !in s.keys))
  }

  lemma SendRespects(s: Shared, t: Thread, ok: bool)
    requires t.task.SendTask? && (Held(t).Some? ==> Held(t).value in s.keys)
    ensures var (r, pc, spawned) := ThreadStep(s, t, ok); ClaimsRespected(s, t, r, pc, spawned)
  {
    hide FallbackStep, NotifyStep, AckStep, VoiceStep, ResolveStep, ReplyStep, TicketStep;
  }

  lemma FallbackRespects(s: Shared, t: Thread, ok: bool)
    requires t.task.FallbackTask? || t.task.NotifyTask?
    ensures var (r, pc, spawned) := ThreadStep(s, t, ok); ClaimsRespected(s, t, r, pc, spawned)
  {
    hide SendStep, AckStep, VoiceStep, ResolveStep, ReplyStep, TicketStep;
  }

  lemma ReplyRespects(s: Shared, t: Thread, ok: bool)
    requires t.task.ReplyTask? && (Held(t).Some? ==> Held(t).value in s.keys)
    ensures var (r, pc, spawned) := ThreadStep(s, t, ok); ClaimsRespected(s, t, r, pc, spawned)
  {
    hide FallbackStep, NotifyStep, AckStep, VoiceStep, ResolveStep, SendStep, TicketStep;
  }

  lemma TicketRespects(s: Shared, t: Thread, ok: bool)
    requires t.task.TicketTask? && (Held(t).Some? ==> Held(t).value in s.keys)
    ensures var (r, pc, spawned) := ThreadStep(s, t, ok); ClaimsRespected(s, t, r, pc, spawned)
  {
    hide FallbackStep, NotifyStep, AckStep, VoiceStep, ResolveStep, SendStep, ReplyStep;
  }

  lemma StepRespectsClaims(s: Shared, t: Thread, ok: bool)
    requires Held(t).Some? ==> Held(t).value in s.keys
    ensures var (r, pc, spawned) := ThreadStep(s, t, ok); ClaimsRespected(s, t, r, pc, spawned)
  {
    hide SendStep, NotifyStep, FallbackStep, ReplyStep, TicketStep;
    match t.task
    case SendTask(_, _, _) => SendRespects(s, t, ok);
    case NotifyTask(_, _, _) => FallbackRespects(s, t, ok);
    case FallbackTask(_, _) => FallbackRespects(s, t, ok);
    case AckTask(_, _) =>
    case VoiceTask(_, _, _, _) =>
    case ResolveTask(_) =>
    case ReplyTask(_, _) => ReplyRespects(s, t, ok);
    case TicketTask(_, _) => TicketRespects(s, t, ok);
  }

  lemma RespectKeepsSound(y: System, i: nat, r: Shared, pc: Pc, spawned: seq<Thread>)
    requires Sound(y) && i < |y.threads|
    requires ClaimsRespected(y.shared, y.threads[i], r, pc, spawned)
    ensures Sound(System(r, y.threads[i := y.threads[i].(pc := pc)] + spawned))
  {
    var n := |y.threads|;
    var threads := y.threads[i := y.threads[i].(pc := pc)] + spawned;
    forall j | n <= j < |threads|
      ensures Held(threads[j]) == None
    {
      assert threads[j] == spawned[j - n];
    }
  }

  lemma NextSound(y: System, e: Event)
    requires Sound(y)
    ensures Sound(Next(y, e))
  {
    match e
    case Spawn(task) =>
    case Act(i, ok) =>
      if i < |y.threads| {
        hide ThreadStep, ClaimsRespected;
        var (r, pc, spawned) := ThreadStep(y.shared, y.threads[i], ok);
        StepRespectsClaims(y.shared, y.threads[i], ok);
        RespectKeepsSound(y, i, r, pc, spawned);
      }
  }

  lemma {:induction false} RunSound(y: System, events: seq<Event>)
    requires Sound(y)
    ensures Sound(Run(y, events))
    decreases |events|
  {
    hide Next, Sound;
    if events != [] {
      NextSound(y, events[0]);
      RunSound(Next(y, events[0]), events[1..]);
    }
  }

  /**
   * In every interleaving, with any crashes, redeliveries and failures: one provider
   * call per (incident, recipient, channel), one fallback per incident, one successful
   * Slack reply per (ticket, update); and what happened keeps its claim for ever.
   */
  lemma EverythingHappensOnce(events: seq<Event>)
    ensures var s := Run(IDLE, events).shared;
            && Distinct(s.log)
            && forall k :: k in s.log ==> k in s.keys
  {
    RunSound(IDLE, events);
  }

  lemma {:induction false} LogOnlyGrows(y: System, events: seq<Event>)
    requires Sound(y)
    ensures y.shared.log <= Run(y, events).shared.log
    decreases |events|
  {
    if events != [] {
      hide ThreadStep, Held, Run;
      var e := events[0];
      NextSound(y, e);
      if e.Act? && e.index < |y.threads| {
        StepRespectsClaims(y.shared, y.threads[e.index], e.ok);
      }
      assert y.shared.log <= Next(y, e).shared.log;
      LogOnlyGrows(Next(y, e), events[1..]);
      RunUnfold(y, events);
    }
  }

  lemma RunUnfold(y: System, events: seq<Event>)
    requires events != []
    ensures Run(y, events) == Run(Next(y, events[0]), events[1..])
  {
  }

  /** So a reply that was posted can never be claimed again, on any continuation. */
  lemma PostedReplyStaysClaimed(y: System, events: seq<Event>, k: Claim)
    requires Sound(y) && k in y.shared.log
    ensures k in Run(y, events).shared.keys
  {
    hide Run;
    RunSound(y, events);
    LogOnlyGrows(y, events);
  }

  /** A failed reply that releases its claim can be retried, by any other delivery. */
  lemma FailedReplyCanBeRetried(y: System, i: nat, j: nat, k: Claim)
    requires Sound(y) && i < |y.threads| && j < |y.threads| && i != j && k.ReplyClaim?
    requires y.threads[i] == Thread(ReplyTask(k.ticketId, k.updateId), Failed)
    requires y.threads[j] == Thread(ReplyTask(k.ticketId, k.updateId), Start)
    ensures k !in Next(y, Act(i, true)).shared.keys
    ensures k in Run(y, [Act(i, true), Act(j, true), Act(j, true)]).shared.log
  {
    var events := [Act(i, true), Act(j, true), Act(j, true)];
    var released := Next(y, events[0]);
    var claimed := Next(released, events[1]);
    assert events[1..] == [events[1], events[2]] && events[1..][1..] == [events[2]];
    assert Run(y, events) == Run(released, events[1..]) == Run(claimed, [events[2]]);
    assert Run(claimed, [events[2]]) == Next(claimed, events[2]);
  }

  /** Two ticket posts never overlap: at most one thread is between claim and release. */
  lemma TicketPostsDoNotOverlap(events: seq<Event>, i: nat, j: nat)
    requires var ts := Run(IDLE, events).threads;
             && i < j < |ts| && ts[i].task.TicketTask? && ts[j].task.TicketTask?
             && ts[i].task.incidentId == ts[j].task.incidentId
    ensures var ts := Run(IDLE, events).threads; Held(ts[i]) == None || Held(ts[j]) == None
  {
    hide Run;
    RunSound(IDLE, events);
  }

  // ----- First writers -----

  lemma ThreadKeepsAcks(s: Shared, t: Thread, ok: bool)
    ensures var r := ThreadStep(s, t, ok).0.acks; forall i :: i in s.acks ==> i in r && r[i] == s.acks[i]
  {
  }

  lemma ThreadKeepsTickets(s: Shared, t: Thread, ok: bool)
    ensures var r := ThreadStep(s, t, ok).0.tickets; forall i :: i in s.tickets ==> i in r && r[i] == s.tickets[i]
  {
  }

  lemma StepKeepsFirstWriters(y: System, e: Event)
    ensures var s, r := y.shared.acks, Next(y, e).shared.acks; forall i :: i in s ==> i in r && r[i] == s[i]
    ensures var s, r := y.shared.tickets, Next(y, e).shared.tickets; forall i :: i in s ==> i in r && r[i] == s[i]
  {
    hide ThreadStep;
    if e.Act? && e.index < |y.threads| {
      ThreadKeepsAcks(y.shared, y.threads[e.index], e.ok);
      ThreadKeepsTickets(y.shared, y.threads[e.index], e.ok);
    }
  }

  /** The first stored acknowledgement and the first stored ticket of an incident stay. */
  lemma {:induction false} FirstWritersStand(y: System, events: seq<Event>, id: string)
    ensures id in y.shared.acks ==>
              id in Run(y, events).shared.acks && Run(y, events).shared.acks[id] == y.shared.acks[id]
    ensures id in y.shared.tickets ==>
              id in Run(y, events).shared.tickets && Run(y, events).shared.tickets[id] == y.shared.tickets[id]
    decreases |events|
  {
    hide Next;
    if events != [] {
      StepKeepsFirstWriters(y, events[0]);
      FirstWritersStand(Next(y, events[0]), events[1..], id);
    }
  }

  // ----- Where the state order breaks -----

  function StageRank(stage: Stage): nat {
    match stage
    case Active => 0
    case Acked => 1
    case Closed => 2
  }

  ghost predicate OrderKept(s: Shared, r: Shared) {
    forall i :: i in s.stages ==> i in r.stages && StageRank(s.stages[i]) <= StageRank(r.stages[i])
  }

  /**
   * The incident whose state the thread has read and not yet saved, and the stage it will
   * save: from its read to its save, a thread holds a copy. A transaction holds none, as
   * it looks at the stage again when it writes.
   */
  function Copy(t: Thread): Option<(string, Stage)> {
    match t.task
    case NotifyTask(id, _, _) => if t.pc == Read then Some((id, Active)) else None
    case FallbackTask(id, _) => if t.pc == Read || t.pc == Claimed then Some((id, Active)) else None
    case AckTask(id, _) => if t.pc == Read then Some((id, Acked)) else None
    case VoiceTask(id, _, _, whole) =>
      if !whole && (t.pc == Read || t.pc == Claimed || t.pc == Stored) then Some((id, Acked)) else None
    case ResolveTask(id) => if t.pc == Read then Some((id, Closed)) else None
    case _ => None
  }

  /** The incident is past the stage that the thread will save. */
  predicate Stale(s: Shared, t: Thread) {
    && Copy(t).Some? && Copy(t).value.0 in s.stages
    && StageRank(s.stages[Copy(t).value.0]) > StageRank(Copy(t).value.1)
  }

  /** The thread's next step saves its copy. */
  predicate Saves(t: Thread, ok: bool) {
    match t.task
    case NotifyTask(_, _, _) => t.pc == Read
    case FallbackTask(_, _) => t.pc == Claimed && ok
    case AckTask(_, _) => t.pc == Read
    case VoiceTask(_, _, _, whole) => !whole && t.pc == Stored
    case ResolveTask(_) => t.pc == Read
    case _ => false
  }

  /** The thread's next step commits a transaction. */
  predicate Commits(t: Thread, ok: bool) {
    t.task.VoiceTask? && t.task.whole && t.pc == Claimed && ok
  }

  /** The stages after a step: its copy is saved, a transaction stops an ACTIVE incident, or they stay. */
  function StagesOf(s: Shared, t: Thread, ok: bool): map<string, Stage> {
    if Saves(t, ok) && Copy(t).Some? then s.stages[Copy(t).value.0 := Copy(t).value.1]
    else if Commits(t, ok) && t.task.incidentId in s.stages && s.stages[t.task.incidentId] == Active
    then s.stages[t.task.incidentId := Acked]
    else s.stages
  }

  lemma StepStages(s: Shared, t: Thread, ok: bool)
    ensures Saves(t, ok) ==> Copy(t).Some?
    ensures Commits(t, ok) ==> Copy(t).None?
    ensures var (r, pc, spawned) := ThreadStep(s, t, ok);
            && r.stages == StagesOf(s, t, ok)
            && (Saves(t, ok) ==> Copy(t.(pc := pc)) == None)
            && (Copy(t).None? ==> !Stale(r, t.(pc := pc)))
            && (Copy(t).Some? ==> Copy(t.(pc := pc)).None? || Copy(t.(pc := pc)) == Copy(t))
  {
  }

  lemma SpawnedHoldNothing(s: Shared, t: Thread, ok: bool)
    ensures forall x :: x in ThreadStep(s, t, ok).2 ==> Copy(x) == None
  {
  }

  /**
   * A step moves an incident backwards exactly when it saves a stale copy; so a
   * transaction never does, whatever happened since its read.
   */
  lemma StepBreaksOrderExactly(s: Shared, t: Thread, ok: bool)
    ensures OrderKept(s, ThreadStep(s, t, ok).0) <==> !(Saves(t, ok) && Stale(s, t))
  {
    hide ThreadStep;
    StepStages(s, t, ok);
    var r := ThreadStep(s, t, ok).0;
    if Saves(t, ok) {
      assert r.stages[Copy(t).value.0] == Copy(t).value.1;
    }
  }

  // ----- Where it does not break -----

  /** The incident whose state the thread is about to write, from a copy or in a transaction. */
  function Writes(t: Thread): Option<string> {
    if Copy(t).Some? then Some(Copy(t).value.0)
    else if t.task.VoiceTask? && t.task.whole && t.pc == Claimed then Some(t.task.incidentId)
    else None
  }

  /** While a thread holds a copy of an incident, no other is about to write its state. */
  predicate NoOverlap(y: System) {
    forall i, j :: 0 <= i < |y.threads| && 0 <= j < |y.threads| && i != j && Copy(y.threads[i]).Some?
      ==> Writes(y.threads[j]) != Some(Copy(y.threads[i]).value.0)
  }

  predicate NeverOverlaps(y: System, events: seq<Event>)
    decreases |events|
  {
    NoOverlap(y) && (events != [] ==> NeverOverlaps(Next(y, events[0]), events[1..]))
  }

  predicate NoneStale(y: System) {
    forall i :: 0 <= i < |y.threads| ==> !Stale(y.shared, y.threads[i])
  }

  /** The threads after a step: the acting one, the others as they were, and the new ones. */
  lemma ThreadsAfter(y: System, e: Event, k: nat)
    requires k < |Next(y, e).threads|
    ensures var t := Next(y, e).threads[k];
            if k >= |y.threads| then Copy(t) == None
            else if e.Act? && e.index == k
            then t == y.threads[k].(pc := ThreadStep(y.shared, y.threads[k], e.ok).1)
            else t == y.threads[k]
  {
    hide ThreadStep;
    if e.Act? && e.index < |y.threads| {
      SpawnedHoldNothing(y.shared, y.threads[e.index], e.ok);
      var (s, pc, spawned) := ThreadStep(y.shared, y.threads[e.index], e.ok);
      assert k >= |y.threads| ==> Next(y, e).threads[k] == spawned[k - |y.threads|];
    }
  }

  /** The stages after an event: those of the one thread that acts. */
  lemma StagesAfter(y: System, e: Event)
    ensures var acts := e.Act? && e.index < |y.threads|;
            Next(y, e).shared == if acts then ThreadStep(y.shared, y.threads[e.index], e.ok).0 else y.shared
  {
    hide ThreadStep;
  }

  lemma NoOverlapStep(y: System, e: Event)
    requires NoOverlap(y) && NoneStale(y)
    ensures NoneStale(Next(y, e)) && OrderKept(y.shared, Next(y, e).shared)
  {
    hide ThreadStep, Copy, Saves, Next;
    StagesAfter(y, e);
    if e.Act? && e.index < |y.threads| {
      StepStages(y.shared, y.threads[e.index], e.ok);
      StepBreaksOrderExactly(y.shared, y.threads[e.index], e.ok);
    }
    forall k | 0 <= k < |Next(y, e).threads|
      ensures !Stale(Next(y, e).shared, Next(y, e).threads[k])
    {
      ThreadsAfter(y, e, k);
    }
  }

  lemma OrderTransitive(a: Shared, b: Shared, c: Shared)
    requires OrderKept(a, b) && OrderKept(b, c)
    ensures OrderKept(a, c)
  {
  }

  lemma {:induction false} NoOverlapRun(y: System, events: seq<Event>)
    requires NoneStale(y) && NeverOverlaps(y, events)
    ensures OrderKept(y.shared, Run(y, events).shared)
    decreases |events|
  {
    hide Next, NoneStale, NoOverlap;
    if events != [] {
      NoOverlapStep(y, events[0]);
      NoOverlapRun(Next(y, events[0]), events[1..]);
      OrderTransitive(y.shared, Next(y, events[0]).shared, Run(y, events).shared);
    }
  }

  /**
   * In a run in which no thread is about to write the state of an incident while another
   * holds a copy of it, no incident ever moves backwards. Transactions may overlap.
   */
  lemma {:induction false} OrderKeptWithoutOverlap(y: System, events: seq<Event>, more: seq<Event>)
    requires NoneStale(y) && NeverOverlaps(y, events + more)
    ensures OrderKept(Run(y, events).shared, Run(y, events + more).shared)
    decreases |events|
  {
    hide Next, NoneStale, NoOverlap;
    if events == [] {
      assert events + more == more;
      NoOverlapRun(y, more);
    } else {
      assert (events + more)[1..] == events[1..] + more;
      NoOverlapStep(y, events[0]) by { NoOverlapFirst(y, events + more); }
      OrderKeptWithoutOverlap(Next(y, events[0]), events[1..], more);
    }
  }

  lemma NoOverlapFirst(y: System, events: seq<Event>)
    requires NeverOverlaps(y, events)
    ensures NoOverlap(y)
  {
  }

  lemma IdleIsNotStale()
    ensures NoneStale(IDLE)
  {
  }

  // ----- Why a copy is stale -----

  /**
   * Between the thread's read and now: at this point of the run the thread already held
   * its copy, which was not stale, and the next event, another thread's, moved the
   * incident past the stage to be saved.
   */
  predicate Overtaken(y: System, events: seq<Event>, i: nat, m: nat)
    requires m < |events|
  {
    var before, after := Run(y, events[..m]), Run(y, events[..m + 1]);
    && i < |before.threads| && i < |after.threads|
    && Copy(before.threads[i]).Some? && Copy(after.threads[i]) == Copy(before.threads[i])
    && !Stale(before.shared, before.threads[i]) && Stale(after.shared, after.threads[i])
    && events[m].Act? && events[m].index != i
  }

  /** From that point to the end of the run the thread holds the copy it holds at the end. */
  predicate HeldSince(y: System, events: seq<Event>, i: nat, m: nat)
    requires i < |Run(y, events).threads|
  {
    forall k :: m <= k <= |events| ==> HoldsAt(Run(y, events[..k]), i, Copy(Run(y, events).threads[i]))
  }

  predicate HoldsAt(y: System, i: nat, copy: Option<(string, Stage)>) {
    i < |y.threads| && copy.Some? && Copy(y.threads[i]) == copy
  }

  lemma {:induction false} RunSnoc(y: System, events: seq<Event>, e: Event)
    ensures Run(y, events + [e]) == Next(Run(y, events), e)
    decreases |events|
  {
    hide Next;
    if events == [] {
      assert [] + [e] == [e] && [e][1..] == [];
    } else {
      assert (events + [e])[1..] == events[1..] + [e];
      RunSnoc(Next(y, events[0]), events[1..], e);
    }
  }

  /** A thread becomes stale only while it holds its copy, and by the step of another thread. */
  lemma BecomesStale(y: System, e: Event, i: nat)
    requires i < |Next(y, e).threads| && Stale(Next(y, e).shared, Next(y, e).threads[i])
    ensures i < |y.threads| && Copy(y.threads[i]).Some? && Copy(Next(y, e).threads[i]) == Copy(y.threads[i])
    ensures Stale(y.shared, y.threads[i]) || (e.Act? && e.index != i)
  {
    hide ThreadStep, Copy, Saves, Next;
    StagesAfter(y, e);
    ThreadsAfter(y, e, i);
    if e.Act? && e.index < |y.threads| {
      StepStages(y.shared, y.threads[e.index], e.ok);
    }
  }

  /** A stale copy was overtaken: after its read another thread moved the incident on. */
  lemma {:induction false} StaleWasOvertaken(y: System, events: seq<Event>, i: nat) returns (m: nat)
    requires NoneStale(y)
    requires i < |Run(y, events).threads| && Stale(Run(y, events).shared, Run(y, events).threads[i])
    ensures m < |events| && Overtaken(y, events, i, m) && HeldSince(y, events, i, m)
    decreases |events|
  {
    hide Next, Copy, Stale, Run;
    if events == [] {
      RunNil(y);
    } else {
      var n := |events| - 1;
      var init, e := events[..n], events[n];
      assert events == init + [e] && events[..n + 1] == events;
      RunSnoc(y, init, e);
      var before := Run(y, init);
      BecomesStale(before, e, i);
      if Stale(before.shared, before.threads[i]) {
        m := StaleWasOvertaken(y, init, i);
        assert init[..m] == events[..m] && init[..m + 1] == events[..m + 1];
        HeldLonger(y, init, e, i, m);
      } else {
        m := n;
        HeldLast(y, init, e, i);
      }
    }
  }

  lemma RunNil(y: System)
    ensures Run(y, []) == y
  {
  }

  lemma HeldLonger(y: System, init: seq<Event>, e: Event, i: nat, m: nat)
    requires i < |Run(y, init).threads| && HeldSince(y, init, i, m) && m <= |init|
    requires HoldsAt(Run(y, init + [e]), i, Copy(Run(y, init).threads[i]))
    ensures HeldSince(y, init + [e], i, m)
  {
    hide Next, Copy, Run;
    var events := init + [e];
    forall k | m <= k <= |events|
      ensures HoldsAt(Run(y, events[..k]), i, Copy(Run(y, events).threads[i]))
    {
      if k <= |init| {
        assert events[..k] == init[..k];
      } else {
        assert events[..k] == events;
      }
    }
  }

  lemma HeldLast(y: System, init: seq<Event>, e: Event, i: nat)
    requires i < |Run(y, init).threads| && Copy(Run(y, init).threads[i]).Some?
    requires HoldsAt(Run(y, init + [e]), i, Copy(Run(y, init).threads[i]))
    ensures HeldSince(y, init + [e], i, |init|)
  {
    hide Next, Copy, Run;
    var events := init + [e];
    assert events[..|init|] == init && events[..|init| + 1] == events;
  }

  /**
   * Over every run: when a step does move an incident backwards, it saves a copy which
   * its thread has held since before another thread moved the incident past the stage
   * saved. So every broken order is an overlap of a read and a save.
   */
  lemma BrokenOrderWasOvertaken(events: seq<Event>, i: nat, ok: bool) returns (m: nat)
    requires i < |Run(IDLE, events).threads|
    requires !OrderKept(Run(IDLE, events).shared, Next(Run(IDLE, events), Act(i, ok)).shared)
    ensures Saves(Run(IDLE, events).threads[i], ok)
    ensures m < |events| && Overtaken(IDLE, events, i, m) && HeldSince(IDLE, events, i, m)
  {
    hide Next, ThreadStep, Run, OrderKept, Stale, Saves;
    var y := Run(IDLE, events);
    StagesAfter(y, Act(i, ok));
    StepBreaksOrderExactly(y.shared, y.threads[i], ok);
    m := StaleWasOvertaken(IDLE, events, i) by { IdleIsNotStale(); }
  }

  lemma RunCons(y: System, e: Event, more: seq<Event>)
    ensures Run(y, [e] + more) == Run(Next(y, e), more)
  {
    assert ([e] + more)[1..] == more;
  }

  /** A fallback that has read ACTIVE, next to an acknowledgement about to be stored. */
  ghost predicate Racing(y: System, id: string, i: nat, j: nat, admin: Job, who: string) {
    && i < |y.threads| && j < |y.threads| && i != j
    && y.threads[i] == Thread(FallbackTask(id, [admin]), Read)
    && y.threads[j] == Thread(AckTask(id, who), Start)
    && id in y.shared.stages && y.shared.stages[id] == Active && id !in y.shared.acks
    && FallbackClaim(id) !in y.shared.keys && SendClaim(id, admin) !in y.shared.keys
  }

  /** The race is reachable. */
  lemma RaceIsReachable(admin: Job)
    ensures exists events, i, j :: Racing(Run(IDLE, events), "i", i, j, admin, "ann")
  {
    var e0, e1, e2 := Spawn(NotifyTask("i", [], [])), Act(0, true), Spawn(FallbackTask("i", [admin]));
    var e3, e4 := Act(1, true), Spawn(AckTask("i", "ann"));
    var y0 := Next(IDLE, e0);
    var y1 := Next(Next(y0, e1), e1);
    var y2 := Next(Next(y1, e2), e3);
    var y3 := Next(y2, e4);
    RunCons(y2, e4, []);
    RunCons(Next(y1, e2), e3, [e4] + []);
    RunCons(y1, e2, [e3] + ([e4] + []));
    RunCons(Next(y0, e1), e1, [e2] + ([e3] + ([e4] + [])));
    RunCons(y0, e1, [e1] + ([e2] + ([e3] + ([e4] + []))));
    RunCons(IDLE, e0, [e1] + ([e1] + ([e2] + ([e3] + ([e4] + [])))));
    assert y1.shared.stages == map["i" := Active];
    assert y3.threads[1] == Thread(FallbackTask("i", [admin]), Read);
    assert y3.threads[2] == Thread(AckTask("i", "ann"), Start);
    assert Racing(y3, "i", 1, 2, admin, "ann");
  }

  /**
   * From it, the acknowledgement runs to its end and the incident is ACKNOWLEDGED; then
   * the fallback saves its stale copy, the incident is ACTIVE again although acknowledged,
   * and the administrator is called.
   */
  lemma StaleFallbackReopens(y: System, id: string, i: nat, j: nat, admin: Job, who: string)
    requires Racing(y, id, i, j, admin, who)
    ensures var n := |y.threads|;
            var acked := Next(Next(Next(y, Act(j, true)), Act(j, true)), Act(j, true));
            var reopened := Next(Next(acked, Act(i, true)), Act(i, true));
            var called := Next(Next(Next(reopened, Act(i, true)), Act(n, true)), Act(n, true));
            && acked.shared.stages[id] == Acked && acked.shared.acks[id] == who
            && reopened.shared.stages[id] == Active && reopened.shared.acks[id] == who
            && SendClaim(id, admin) in called.shared.log
  {
    var n := |y.threads|;
    var a1 := Next(y, Act(j, true));
    var a2 := Next(a1, Act(j, true));
    var acked := Next(a2, Act(j, true));
    assert acked.shared == y.shared.(acks := y.shared.acks[id := who], stages := y.shared.stages[id := Acked]);
    assert acked.threads[i] == y.threads[i] && |acked.threads| == n;
    var claimed := Next(acked, Act(i, true));
    var reopened := Next(claimed, Act(i, true));
    assert reopened.threads[i].pc == Stored && reopened.shared.stages[id] == Active;
    assert SendClaim(id, admin) !in reopened.shared.keys && |reopened.threads| == n;
    var spawned := Next(reopened, Act(i, true));
    assert spawned.threads[n] == Thread(SendTask(id, admin, None), Start);
  }
}
