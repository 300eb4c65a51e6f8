/**
 * Delivery on the durable queue: handling, acknowledging, retrying and dead-lettering,
 * with any number of deliveries in flight. Whether the handler, a publish or an
 * acknowledgement succeeds, and when the server redelivers, is left open.
 */
module JetStream {
  import opened Basics
  import opened Envelopes

  /** A stored message: its wire form, and the `Nats-Msg-Id` header if it has one. */
  datatype Stored = Stored(wire: Wire<string>, natsId: Option<string>)

  /** How a delivery ended. Abandoned: a call in the failure path threw, or the process died. */
  datatype Ending = Acked | DeadLettered | Naked | Abandoned

  /** Where one delivery stands. */
  datatype Phase =
    | Handling
    | Acking
    | Failed
    | AckingDeadLetter
    | Ended(ending: Ending)

  datatype Delivery = Delivery(seqNo: nat, count: nat, phase: Phase)

  datatype Queue = Queue(
    stored: seq<Stored>,
    counts: map<nat, nat>,
    deliveries: seq<Delivery>,
    handled: set<nat>,
    acked: set<nat>,
    deadLetters: map<string, Wire<string>>)

  datatype Consumer = Consumer(env: Env, topic: string, durable: string, maxDeliver: nat, decimal: nat -> string)

  datatype Event =
    | Store(message: Stored)
    | Deliver(seqNo: nat)
    | HandlerReturns(d: nat, ok: bool)
    | AckReturns(d: nat, ok: bool)
    | DeadLetterReturns(d: nat, ok: bool)
    | Nak(d: nat)
    | Crash

  function CountOf(q: Queue, seqNo: nat): nat {
    if seqNo in q.counts then q.counts[seqNo] else 0
  }

  /** The server delivers what is not acknowledged, up to `maxDeliver` times. */
  predicate CanDeliver(c: Consumer, q: Queue, seqNo: nat) {
    seqNo < |q.stored| && seqNo !in q.acked && CountOf(q, seqNo) < c.maxDeliver
  }

  /** Whether the message gets as far as the handler. */
  predicate Accepted(c: Consumer, message: Stored) {
    Handle(c.env, c.topic, message.wire, 0, None, None).Ok?
  }

  /** The id a dead letter is published under; the stream drops a second message with it. */
  function DeadLetterId(c: Consumer, q: Queue, seqNo: nat): string
    requires seqNo < |q.stored|
  {
    "dlq-" + match q.stored[seqNo].natsId
             case Some(id) => id
             case None => c.durable + "-" + c.decimal(seqNo)
  }

  predicate InPhase(q: Queue, d: nat, phase: Phase) {
    d < |q.deliveries| && q.deliveries[d].phase == phase
  }

  /** When a step can happen. */
  predicate Enabled(c: Consumer, q: Queue, e: Event) {
    match e
    case Store(_) => true
    case Deliver(seqNo) => CanDeliver(c, q, seqNo)
    case HandlerReturns(d, ok) =>
      InPhase(q, d, Handling) && q.deliveries[d].seqNo < |q.stored| &&
      (ok ==> Accepted(c, q.stored[q.deliveries[d].seqNo]))
    case AckReturns(d, _) => InPhase(q, d, Acking) || InPhase(q, d, AckingDeadLetter)
    case DeadLetterReturns(d, _) =>
      InPhase(q, d, Failed) && q.deliveries[d].count >= c.maxDeliver && q.deliveries[d].seqNo < |q.stored|
    case Nak(d) => InPhase(q, d, Failed) && q.deliveries[d].count < c.maxDeliver
    case Crash => true
  }

  function Move(q: Queue, d: nat, phase: Phase): Queue
    requires d < |q.deliveries|
  {
    q.(deliveries := q.deliveries[d := q.deliveries[d].(phase := phase)])
  }

  function AfterCrash(deliveries: seq<Delivery>): seq<Delivery> {
    seq(|deliveries|, i requires 0 <= i < |deliveries| =>
      if deliveries[i].phase.Ended? then deliveries[i] else deliveries[i].(phase := Ended(Abandoned)))
  }

  /**
   * One step. An acknowledgement that throws after the handler falls into the failure
   * path; one that throws after the dead letter, or a dead-letter publish that throws,
   * leaves the delivery without any answer to the server.
   */
  function Next(c: Consumer, q: Queue, e: Event): Queue
    requires Enabled(c, q, e)
  {
    match e
    case Store(message) => q.(stored := q.stored + [message])
    case Deliver(seqNo) =>
      var count := CountOf(q, seqNo) + 1;
      q.(counts := q.counts[seqNo := count], deliveries := q.deliveries + [Delivery(seqNo, count, Handling)])
    case HandlerReturns(d, ok) =>
      if ok then Move(q, d, Acking).(handled := q.handled + {q.deliveries[d].seqNo}) else Move(q, d, Failed)
    case AckReturns(d, ok) =>
      var seqNo := q.deliveries[d].seqNo;
      if q.deliveries[d].phase == Acking
      then if ok then Move(q, d, Ended(Acked)).(acked := q.acked + {seqNo}) else Move(q, d, Failed)
      else if ok then Move(q, d, Ended(DeadLettered)).(acked := q.acked + {seqNo})
      else Move(q, d, Ended(Abandoned))
    case DeadLetterReturns(d, ok) =>
      if ok
      then
        var id := DeadLetterId(c, q, q.deliveries[d].seqNo);
        var letters :=
          if id in q.deadLetters then q.deadLetters
          else q.deadLetters[id := q.stored[q.deliveries[d].seqNo].wire];
        Move(q, d, AckingDeadLetter).(deadLetters := letters)
      else Move(q, d, Ended(Abandoned))
    case Nak(d) => Move(q, d, Ended(Naked))
    case Crash => q.(deliveries := AfterCrash(q.deliveries))
  }

  function Empty(): Queue {
    Queue([], map[], [], {}, {}, map[])
  }

  ghost predicate Legal(c: Consumer, q: Queue, events: seq<Event>)
    decreases |events|
  {
    events == [] || (Enabled(c, q, events[0]) && Legal(c, Next(c, q, events[0]), events[1..]))
  }

  ghost function Run(c: Consumer, q: Queue, events: seq<Event>): Queue
    requires Legal(c, q, events)
    decreases |events|
  {
    if events == [] then q else Run(c, Next(c, q, events[0]), events[1..])
  }

  // ----- What every step keeps -----

  predicate HasLetter(c: Consumer, q: Queue, seqNo: nat) {
    seqNo < |q.stored| && DeadLetterId(c, q, seqNo) in q.deadLetters
  }

  ghost predicate HasDelivery(q: Queue, seqNo: nat, count: nat) {
    exists d :: 0 <= d < |q.deliveries| && IsDelivery(q.deliveries[d], seqNo, count)
  }

  predicate IsDelivery(delivery: Delivery, seqNo: nat, count: nat) {
    delivery.seqNo == seqNo && delivery.count == count
  }

  /** What the phase of a delivery says about its message. */
  predicate DeliverySound(c: Consumer, q: Queue, d: Delivery) {
    && d.seqNo < |q.stored| && 1 <= d.count <= CountOf(q, d.seqNo) <= c.maxDeliver
    && match d.phase
       case Handling => true
       case Acking => d.seqNo in q.handled
       case Failed => true
       case AckingDeadLetter => HasLetter(c, q, d.seqNo) && d.count == c.maxDeliver
       case Ended(Acked) => d.seqNo in q.acked && d.seqNo in q.handled
       case Ended(DeadLettered) => d.seqNo in q.acked && HasLetter(c, q, d.seqNo) && d.count == c.maxDeliver
       case Ended(Naked) => d.count < c.maxDeliver
       case Ended(Abandoned) => true
  }

  predicate AckSound(c: Consumer, q: Queue, seqNo: nat) {
    && seqNo < |q.stored|
    && (seqNo in q.handled || (HasLetter(c, q, seqNo) && CountOf(q, seqNo) == c.maxDeliver))
  }

  /** A delivery that ended in an acknowledgement. */
  predicate EndedInAck(delivery: Delivery, seqNo: nat) {
    delivery.seqNo == seqNo && (delivery.phase == Ended(Acked) || delivery.phase == Ended(DeadLettered))
  }

  /** Some delivery of the message ended in an acknowledgement. */
  ghost predicate Answered(q: Queue, seqNo: nat) {
    exists d :: 0 <= d < |q.deliveries| && EndedInAck(q.deliveries[d], seqNo)
  }

  /** The dead letter is the message of some delivery that was the last allowed. */
  predicate LetterOf(c: Consumer, q: Queue, id: string, letter: Wire<string>, seqNo: nat) {
    && seqNo < |q.stored| && DeadLetterId(c, q, seqNo) == id && q.stored[seqNo].wire == letter
    && CountOf(q, seqNo) == c.maxDeliver
  }

  ghost predicate LetterSound(c: Consumer, q: Queue, id: string, letter: Wire<string>) {
    exists seqNo: nat :: LetterOf(c, q, id, letter, seqNo)
  }

  ghost predicate Sound(c: Consumer, q: Queue) {
    && (forall d :: 0 <= d < |q.deliveries| ==> DeliverySound(c, q, q.deliveries[d]))
    && (forall s :: s in q.acked ==> AckSound(c, q, s) && Answered(q, s))
    && (forall s :: s in q.handled ==> s < |q.stored| && Accepted(c, q.stored[s]))
    && (forall id :: id in q.deadLetters ==> LetterSound(c, q, id, q.deadLetters[id]))
    && (forall s :: s in q.counts ==> HasDelivery(q, s, q.counts[s]))
  }

  /** Nothing is taken back: messages, counts, deliveries, and what happened to them. */
  ghost predicate Grows(q: Queue, r: Queue) {
    && q.stored <= r.stored && q.handled <= r.handled && q.acked <= r.acked
    && (forall s :: CountOf(q, s) <= CountOf(r, s))
    && (forall id :: id in q.deadLetters ==> id in r.deadLetters && r.deadLetters[id] == q.deadLetters[id])
    && |q.deliveries| <= |r.deliveries|
    && forall d :: 0 <= d < |q.deliveries| ==>
      IsDelivery(r.deliveries[d], q.deliveries[d].seqNo, q.deliveries[d].count)
  }

  lemma StepGrows(c: Consumer, q: Queue, e: Event)
    requires Enabled(c, q, e)
    ensures Grows(q, Next(c, q, e))
  {
    hide Accepted, DeadLetterId;
  }

  lemma DeliveryStays(c: Consumer, q: Queue, r: Queue, d: Delivery)
    requires DeliverySound(c, q, d) && Grows(q, r) && CountOf(r, d.seqNo) <= c.maxDeliver
    ensures DeliverySound(c, r, d)
  {
    hide CountOf;
    assert r.stored[d.seqNo] == q.stored[d.seqNo];
    assert CountOf(q, d.seqNo) <= CountOf(r, d.seqNo);
  }

  /** The delivery a step moves or starts. */
  function Subject(q: Queue, e: Event): nat {
    match e
    case Store(_) => |q.deliveries|
    case Deliver(_) => |q.deliveries|
    case HandlerReturns(d, _) => d
    case AckReturns(d, _) => d
    case DeadLetterReturns(d, _) => d
    case Nak(d) => d
    case Crash => |q.deliveries|
  }

  lemma SubjectIsSound(c: Consumer, q: Queue, e: Event)
    requires Sound(c, q) && Enabled(c, q, e)
    ensures var r, d := Next(c, q, e), Subject(q, e); d < |r.deliveries| ==> DeliverySound(c, r, r.deliveries[d])
  {
    hide Accepted, LetterSound, AckSound, HasDelivery;
    var d := Subject(q, e);
    assert d < |q.deliveries| ==> DeliverySound(c, q, q.deliveries[d]);
  }

  lemma StepKeepsDeliveries(c: Consumer, q: Queue, e: Event)
    requires Sound(c, q) && Enabled(c, q, e)
    ensures var r := Next(c, q, e); forall d :: 0 <= d < |r.deliveries| ==> DeliverySound(c, r, r.deliveries[d])
  {
    var r := Next(c, q, e);
    StepGrows(c, q, e);
    SubjectIsSound(c, q, e);
    hide Accepted, LetterSound, AckSound, HasDelivery, HasLetter, Sound;
    forall d | 0 <= d < |r.deliveries|
      ensures DeliverySound(c, r, r.deliveries[d])
    {
      if d != Subject(q, e) {
        OtherDelivery(c, q, e, d);
      }
    }
  }

  lemma OtherDelivery(c: Consumer, q: Queue, e: Event, d: nat)
    requires Sound(c, q) && Enabled(c, q, e) && d != Subject(q, e) && d < |Next(c, q, e).deliveries|
    requires Grows(q, Next(c, q, e))
    ensures DeliverySound(c, Next(c, q, e), Next(c, q, e).deliveries[d])
  {
    hide Accepted, LetterSound, AckSound, HasDelivery, HasLetter;
    var r := Next(c, q, e);
    assert DeliverySound(c, q, q.deliveries[d]);
    DeliveryStays(c, q, r, q.deliveries[d]);
    assert r.deliveries[d] == q.deliveries[d] || r.deliveries[d] == q.deliveries[d].(phase := Ended(Abandoned));
  }

  lemma StepKeepsAcks(c: Consumer, q: Queue, e: Event)
    requires Sound(c, q) && Enabled(c, q, e)
    ensures var r := Next(c, q, e); forall s :: s in r.acked ==> AckSound(c, r, s)
  {
    hide Accepted, LetterSound, HasDelivery;
  }

  lemma StepKeepsAnswers(c: Consumer, q: Queue, e: Event)
    requires Sound(c, q) && Enabled(c, q, e)
    ensures var r := Next(c, q, e); forall s :: s in r.acked ==> Answered(r, s)
  {
    hide Accepted, LetterSound, HasDelivery, DeliverySound, AckSound, DeadLetterId, HasLetter;
    var r := Next(c, q, e);
    forall s | s in r.acked
      ensures Answered(r, s)
    {
      if s in q.acked {
        var d :| 0 <= d < |q.deliveries| && EndedInAck(q.deliveries[d], s);
        assert EndedInAck(r.deliveries[d], s);
      } else {
        assert EndedInAck(r.deliveries[e.d], s);
      }
    }
  }

  lemma StepKeepsHandled(c: Consumer, q: Queue, e: Event)
    requires Sound(c, q) && Enabled(c, q, e)
    ensures var r := Next(c, q, e); forall s :: s in r.handled ==> s < |r.stored| && Accepted(c, r.stored[s])
  {
    hide Accepted, LetterSound, HasDelivery, DeliverySound, AckSound;
  }

  lemma LetterGrows(c: Consumer, q: Queue, r: Queue, id: string, letter: Wire<string>)
    requires Grows(q, r) && LetterSound(c, q, id, letter)
    requires forall s: nat :: s < |q.stored| ==> CountOf(r, s) <= c.maxDeliver
    ensures LetterSound(c, r, id, letter)
  {
    var seqNo: nat :| LetterOf(c, q, id, letter, seqNo);
    assert r.stored[seqNo] == q.stored[seqNo];
    assert LetterOf(c, r, id, letter, seqNo);
  }

  lemma CountsAreBounded(c: Consumer, q: Queue, s: nat)
    requires Sound(c, q)
    ensures CountOf(q, s) <= c.maxDeliver
  {
    hide AckSound, LetterSound, Accepted;
    if s in q.counts {
      var d :| 0 <= d < |q.deliveries| && IsDelivery(q.deliveries[d], s, q.counts[s]);
      assert DeliverySound(c, q, q.deliveries[d]);
    }
  }

  lemma StepKeepsLetters(c: Consumer, q: Queue, e: Event)
    requires Sound(c, q) && Enabled(c, q, e)
    ensures var r := Next(c, q, e); forall id :: id in r.deadLetters ==> LetterSound(c, r, id, r.deadLetters[id])
  {
    var r := Next(c, q, e);
    StepGrows(c, q, e);
    forall s: nat | s < |q.stored|
      ensures CountOf(r, s) <= c.maxDeliver
    {
      CountsAreBounded(c, q, s);
    }
    hide Accepted, HasDelivery, AckSound, LetterSound, DeadLetterId;
    forall id | id in r.deadLetters
      ensures LetterSound(c, r, id, r.deadLetters[id])
    {
      if id in q.deadLetters {
        LetterGrows(c, q, r, id, q.deadLetters[id]);
      } else {
        NewLetterSound(c, q, e);
      }
    }
  }

  lemma NewLetterSound(c: Consumer, q: Queue, e: Event)
    requires Sound(c, q) && Enabled(c, q, e)
    ensures var r := Next(c, q, e);
            forall id :: id in r.deadLetters && id !in q.deadLetters ==> LetterSound(c, r, id, r.deadLetters[id])
  {
    hide Accepted, HasDelivery, AckSound;
    if e.DeadLetterReturns? {
      var d := q.deliveries[e.d];
      assert DeliverySound(c, q, d);
      var r := Next(c, q, e);
      forall id | id in r.deadLetters && id !in q.deadLetters
        ensures LetterSound(c, r, id, r.deadLetters[id])
      {
        assert LetterOf(c, r, id, r.deadLetters[id], d.seqNo);
      }
    }
  }

  lemma StepKeepsCounts(c: Consumer, q: Queue, e: Event)
    requires Sound(c, q) && Enabled(c, q, e)
    ensures var r := Next(c, q, e); forall s :: s in r.counts ==> HasDelivery(r, s, r.counts[s])
  {
    var r := Next(c, q, e);
    StepGrows(c, q, e);
    hide Accepted, DeliverySound, AckSound, LetterSound, DeadLetterId;
    forall s | s in r.counts
      ensures HasDelivery(r, s, r.counts[s])
    {
      if s in q.counts && r.counts[s] == q.counts[s] {
        var d :| 0 <= d < |q.deliveries| && IsDelivery(q.deliveries[d], s, q.counts[s]);
        assert IsDelivery(r.deliveries[d], s, r.counts[s]);
      } else {
        assert IsDelivery(r.deliveries[|q.deliveries|], s, r.counts[s]);
      }
    }
  }

  lemma StepKeepsSound(c: Consumer, q: Queue, e: Event)
    requires Sound(c, q) && Enabled(c, q, e)
    ensures Sound(c, Next(c, q, e))
  {
    hide Next, Enabled, DeliverySound, AckSound, Answered, LetterSound, HasDelivery, Accepted;
    StepKeepsDeliveries(c, q, e);
    StepKeepsAcks(c, q, e);
    StepKeepsAnswers(c, q, e);
    StepKeepsHandled(c, q, e);
    StepKeepsLetters(c, q, e);
    StepKeepsCounts(c, q, e);
  }

  lemma {:induction false} RunKeepsSound(c: Consumer, q: Queue, events: seq<Event>)
    requires Sound(c, q) && Legal(c, q, events)
    ensures Sound(c, Run(c, q, events))
    decreases |events|
  {
    hide Sound, Next, Enabled;
    if events != [] {
      StepKeepsSound(c, q, events[0]);
      RunKeepsSound(c, Next(c, q, events[0]), events[1..]);
    }
  }

  lemma EmptyIsSound(c: Consumer)
    ensures Sound(c, Empty())
  {
  }

  // ----- What a run guarantees -----

  /** No two stored messages share a dead-letter id. */
  ghost predicate DistinctIds(c: Consumer, q: Queue) {
    forall s, t :: 0 <= s < t < |q.stored| ==> DeadLetterId(c, q, s) != DeadLetterId(c, q, t)
  }

  /**
   * A message this consumer acknowledged was handled, or was put on the dead-letter
   * subject after its last allowed delivery; with distinct ids, as its own bytes. A
   * message the handler cannot accept can only end the second way.
   */
  lemma AcknowledgedIsNotLost(c: Consumer, events: seq<Event>, s: nat)
    requires Legal(c, Empty(), events)
    ensures var q := Run(c, Empty(), events); s in q.acked ==> AckSound(c, q, s)
    ensures var q := Run(c, Empty(), events);
            s in q.acked && s < |q.stored| && !Accepted(c, q.stored[s]) ==> HasLetter(c, q, s)
    ensures var q := Run(c, Empty(), events);
            DistinctIds(c, q) && HasLetter(c, q, s) ==> q.deadLetters[DeadLetterId(c, q, s)] == q.stored[s].wire
  {
    hide Next, Enabled, Legal, Run, Accepted, DeliverySound, HasDelivery, DeadLetterId;
    EmptyIsSound(c);
    RunKeepsSound(c, Empty(), events);
  }

  /** Every dead letter is a stored message that had all its deliveries. */
  lemma DeadLettersAreExhausted(c: Consumer, events: seq<Event>, id: string)
    requires Legal(c, Empty(), events)
    ensures var q := Run(c, Empty(), events); id in q.deadLetters ==> LetterSound(c, q, id, q.deadLetters[id])
  {
    hide Next, Enabled, Legal, Run, Accepted, DeliverySound, HasDelivery, LetterSound, AckSound;
    EmptyIsSound(c);
    RunKeepsSound(c, Empty(), events);
  }

  // ----- Which message a dead letter is of -----

  /** Nothing recorded is taken back. */
  lemma {:induction false} RunGrows(c: Consumer, q: Queue, events: seq<Event>)
    requires Legal(c, q, events)
    ensures Grows(q, Run(c, q, events))
    decreases |events|
  {
    hide Enabled, Next;
    if events != [] {
      StepGrows(c, q, events[0]);
      RunGrows(c, Next(c, q, events[0]), events[1..]);
      GrowsTransitive(q, Next(c, q, events[0]), Run(c, q, events));
    }
  }

  lemma GrowsTransitive(q: Queue, r: Queue, t: Queue)
    requires Grows(q, r) && Grows(r, t)
    ensures Grows(q, t)
  {
    forall s
      ensures CountOf(q, s) <= CountOf(t, s)
    {
      assert CountOf(q, s) <= CountOf(r, s) <= CountOf(t, s);
    }
  }

  /** The message that a step publishes a dead letter of, under this id. */
  function Lettered(c: Consumer, q: Queue, e: Event, id: string): Option<nat>
    requires Enabled(c, q, e)
  {
    if e.DeadLetterReturns? && e.ok && DeadLetterId(c, q, q.deliveries[e.d].seqNo) == id
    then Some(q.deliveries[e.d].seqNo) else None
  }

  /** The message that a dead letter was published of first, under this id. */
  ghost function FirstLettered(c: Consumer, q: Queue, events: seq<Event>, id: string): Option<nat>
    requires Legal(c, q, events)
    decreases |events|
  {
    if events == [] then None
    else if Lettered(c, q, events[0], id).Some? then Lettered(c, q, events[0], id)
    else FirstLettered(c, Next(c, q, events[0]), events[1..], id)
  }

  lemma LetteredNow(c: Consumer, q: Queue, e: Event, id: string)
    requires Enabled(c, q, e) && id !in q.deadLetters
    ensures var t, r := Lettered(c, q, e, id), Next(c, q, e);
            if t.None? then id !in r.deadLetters
            else t.value < |q.stored| && DeadLetterId(c, q, t.value) == id
                 && id in r.deadLetters && r.deadLetters[id] == q.stored[t.value].wire
  {
    hide DeadLetterId, Accepted, AfterCrash;
  }

  lemma SameId(c: Consumer, q: Queue, r: Queue, t: nat)
    requires t < |q.stored| && q.stored <= r.stored
    ensures DeadLetterId(c, r, t) == DeadLetterId(c, q, t) && r.stored[t] == q.stored[t]
  {
  }

  lemma {:induction false} LetterIsOfTheFirst(c: Consumer, q: Queue, events: seq<Event>, id: string)
    requires Legal(c, q, events) && id !in q.deadLetters
    ensures var t, r := FirstLettered(c, q, events, id), Run(c, q, events);
            if t.None? then id !in r.deadLetters
            else t.value < |r.stored| && DeadLetterId(c, r, t.value) == id
                 && id in r.deadLetters && r.deadLetters[id] == r.stored[t.value].wire
    decreases |events|
  {
    hide Next, Enabled, Lettered, DeadLetterId;
    if events != [] {
      var after := Next(c, q, events[0]);
      LetteredNow(c, q, events[0], id);
      var t := Lettered(c, q, events[0], id);
      if t.None? {
        LetterIsOfTheFirst(c, after, events[1..], id);
      } else {
        StepGrows(c, q, events[0]);
        RunGrows(c, after, events[1..]);
        SameId(c, q, after, t.value);
        SameId(c, after, Run(c, q, events), t.value);
      }
    }
  }

  /**
   * Over every run: the letter under a message's id is other than the message exactly
   * when a message of other bytes has the same id and was dead-lettered first under it.
   */
  lemma LetterDiffersExactly(c: Consumer, events: seq<Event>, s: nat)
    requires Legal(c, Empty(), events) && HasLetter(c, Run(c, Empty(), events), s)
    ensures var q := Run(c, Empty(), events);
            var id := DeadLetterId(c, q, s);
            var t := FirstLettered(c, Empty(), events, id);
            && t.Some? && t.value < |q.stored| && DeadLetterId(c, q, t.value) == id
            && (q.deadLetters[id] != q.stored[s].wire <==> q.stored[t.value].wire != q.stored[s].wire)
  {
    hide DeadLetterId, Run, Legal, FirstLettered;
    LetterIsOfTheFirst(c, Empty(), events, DeadLetterId(c, Run(c, Empty(), events), s));
  }

  /** No message of other bytes was dead-lettered first under the message's id. */
  ghost predicate OwnLetter(c: Consumer, events: seq<Event>, s: nat)
    requires Legal(c, Empty(), events) && s < |Run(c, Empty(), events).stored|
  {
    var q := Run(c, Empty(), events);
    var t := FirstLettered(c, Empty(), events, DeadLetterId(c, q, s));
    t.Some? && t.value < |q.stored| ==> q.stored[t.value].wire == q.stored[s].wire
  }

  lemma OwnLetterIsKept(c: Consumer, events: seq<Event>, s: nat)
    requires Legal(c, Empty(), events) && HasLetter(c, Run(c, Empty(), events), s) && OwnLetter(c, events, s)
    ensures var q := Run(c, Empty(), events); q.deadLetters[DeadLetterId(c, q, s)] == q.stored[s].wire
  {
    hide DeadLetterId, Run, Legal, FirstLettered;
    LetterDiffersExactly(c, events, s);
  }

  /** What a reader of the dead-letter topic is handed for the letter of a published message. */
  predicate LetterIsReadable(c: Consumer, q: Queue, s: nat, m: Message<string>, attempt: nat, failure: Option<string>) {
    && HasLetter(c, q, s)
    && var letter := q.deadLetters[DeadLetterId(c, q, s)];
       var r := Handle(c.env, DEAD_LETTER + c.topic, letter, attempt, failure, Some(c.topic));
       r.Ok? && r.value.id == m.id && r.value.payload == m.payload && Carries(r.value, "originalTopic", c.topic)
  }

  /**
   * From producer to reader: an acknowledged message was handed to the handler, and then
   * it was deliverable; or it waits on the dead-letter topic, where a reader is handed
   * its id, payload and original topic exactly when the producer made it well formed.
   */
  lemma PublishedIsHandledOrReadable(c: Consumer, events: seq<Event>, s: nat, m: Message<string>,
                                     source: string, now: string, attempt: nat, failure: Option<string>)
    requires Legal(c, Empty(), events) && c.topic != []
    requires var q := Run(c, Empty(), events);
             s in q.acked && s < |q.stored| && OwnLetter(c, events, s)
             && q.stored[s].wire == CreateEnvelope(c.env, c.topic, m, source, now)
    ensures var q := Run(c, Empty(), events);
            if s in q.handled then Deliverable(c.env, c.topic, m, source, now)
            else LetterIsReadable(c, q, s, m, attempt, failure) <==> ParsesBack(c.env, c.topic, m, source, now)
  {
    hide Next, Enabled, Legal, Run, DeliverySound, HasDelivery, DeadLetterId, LetterSound,
         Handle, CreateEnvelope, Deliverable, ParsesBack, ParseEnvelope, OwnLetter, Answered;
    var q := Run(c, Empty(), events);
    AcknowledgedIsNotLost(c, events, s);
    if HasLetter(c, q, s) {
      OwnLetterIsKept(c, events, s);
    }
    EmptyIsSound(c);
    RunKeepsSound(c, Empty(), events);
    PublishedIsHandled(c.env, c.topic, m, source, now, 0, None, None);
    PublishedIsParsed(c.env, c.topic, m, source, now);
    DeadLetterIsReadable(c.env, c.topic, q.stored[s].wire, attempt, failure, Some(c.topic));
    WireOfPublished(c.env, c.topic, m, source, now);
  }

  predicate AllEnded(q: Queue, s: nat) {
    forall d :: 0 <= d < |q.deliveries| && q.deliveries[d].seqNo == s ==> q.deliveries[d].phase.Ended?
  }

  ghost predicate LastAbandoned(c: Consumer, q: Queue, s: nat) {
    exists d :: 0 <= d < |q.deliveries| && q.deliveries[d] == Delivery(s, c.maxDeliver, Ended(Abandoned))
  }

  /** The message has had all its deliveries, and none is open. */
  predicate Exhausted(c: Consumer, q: Queue, s: nat) {
    s in q.counts && CountOf(q, s) == c.maxDeliver && AllEnded(q, s)
  }

  /**
   * A message that has had all its deliveries, with none still open, is lost exactly when
   * none of them ended in an acknowledgement; and then the last was abandoned: the
   * process died, or a dead-letter publish or the acknowledgement after it threw. The
   * last delivery is never just retried.
   */
  lemma LostExactly(c: Consumer, events: seq<Event>, s: nat)
    requires Legal(c, Empty(), events)
    ensures var q := Run(c, Empty(), events); s in q.acked <==> Answered(q, s)
    ensures var q := Run(c, Empty(), events); Exhausted(c, q, s) && !Answered(q, s) ==> LastAbandoned(c, q, s)
  {
    hide Next, Enabled, Legal, Run, Accepted, LetterSound, AckSound, HasLetter;
    EmptyIsSound(c);
    RunKeepsSound(c, Empty(), events);
    var q := Run(c, Empty(), events);
    if Answered(q, s) {
      var d :| 0 <= d < |q.deliveries| && EndedInAck(q.deliveries[d], s);
      assert DeliverySound(c, q, q.deliveries[d]);
    } else if Exhausted(c, q, s) {
      var d :| 0 <= d < |q.deliveries| && IsDelivery(q.deliveries[d], s, q.counts[s]);
      assert DeliverySound(c, q, q.deliveries[d]) && !EndedInAck(q.deliveries[d], s);
      assert q.deliveries[d] == Delivery(s, c.maxDeliver, Ended(Abandoned));
    }
  }

  lemma LegalCons(c: Consumer, q: Queue, e: Event, rest: seq<Event>)
    requires Enabled(c, q, e) && Legal(c, Next(c, q, e), rest)
    ensures Legal(c, q, [e] + rest) && Run(c, q, [e] + rest) == Run(c, Next(c, q, e), rest)
  {
    hide Enabled, Next;
    assert ([e] + rest)[1..] == rest;
  }

  /**
   * Such a loss can happen to any message that still has deliveries: every one fails, and
   * the publish of the dead letter throws after the last.
   */
  lemma {:induction false} LossIsReachable(c: Consumer, q: Queue, s: nat) returns (events: seq<Event>)
    requires CanDeliver(c, q, s)
    ensures Legal(c, q, events)
    ensures var r := Run(c, q, events);
            && r.acked == q.acked && r.handled == q.handled && r.deadLetters == q.deadLetters
            && !CanDeliver(c, r, s)
    decreases c.maxDeliver - CountOf(q, s)
  {
    hide Legal, Run, DeadLetterId, Accepted;
    var d := |q.deliveries|;
    var e1, e2 := Deliver(s), HandlerReturns(d, false);
    var q1 := Next(c, q, e1);
    var q2 := Next(c, q1, e2);
    var e3 := if q2.deliveries[d].count < c.maxDeliver then Nak(d) else DeadLetterReturns(d, false);
    var q3 := Next(c, q2, e3);
    var rest := [];
    if CanDeliver(c, q3, s) {
      rest := LossIsReachable(c, q3, s);
    } else {
      LegalNil(c, q3);
    }
    LegalCons(c, q2, e3, rest);
    LegalCons(c, q1, e2, [e3] + rest);
    LegalCons(c, q, e1, [e2] + ([e3] + rest));
    events := [e1] + ([e2] + ([e3] + rest));
  }

  lemma LegalNil(c: Consumer, q: Queue)
    ensures Legal(c, q, []) && Run(c, q, []) == q
  {
  }

  /** An acknowledged message is never delivered again. */
  lemma {:induction false} AckedIsFinal(c: Consumer, q: Queue, events: seq<Event>, s: nat)
    requires Legal(c, q, events) && s in q.acked
    ensures forall i :: 0 <= i < |events| ==> events[i] != Deliver(s)
    ensures CountOf(Run(c, q, events), s) == CountOf(q, s)
    decreases |events|
  {
    if events != [] {
      StepGrows(c, q, events[0]);
      AckedIsFinal(c, Next(c, q, events[0]), events[1..], s);
      hide *;
      AckedStep(c, q, events[0], s);
      forall i | 0 <= i < |events|
        ensures events[i] != Deliver(s)
      {
        assert i > 0 ==> events[i] == events[1..][i - 1];
      }
    }
  }

  lemma AckedStep(c: Consumer, q: Queue, e: Event, s: nat)
    requires Enabled(c, q, e) && s in q.acked
    ensures e != Deliver(s) && CountOf(Next(c, q, e), s) == CountOf(q, s)
  {
  }

  // ----- One delivery from beginning to end -----

  /** The subscription's loop body, its awaited calls answering as the parameters say. */
  class JetStreamConsumer {
    const c: Consumer
    var q: Queue

    constructor (c: Consumer)
      ensures this.c == c && q == Empty()
    {
      this.c, q := c, Empty();
    }

    method Take(e: Event, ghost before: seq<Event>, ghost start: Queue) returns (ghost taken: seq<Event>)
      requires Legal(c, start, before) && q == Run(c, start, before) && Enabled(c, q, e)
      modifies this`q
      ensures taken == before + [e] && Legal(c, start, taken) && q == Run(c, start, taken)
      ensures q == Next(c, old(q), e)
    {
      hide Enabled, Next;
      LegalSnoc(c, start, before, e);
      q := Next(c, q, e);
      taken := before + [e];
    }

    /** Handles a message delivered once more; no other delivery moves meanwhile. */
    method OnMessage(seqNo: nat, handlerOk: bool, ackOk: bool, publishOk: bool, letterAckOk: bool)
      returns (ghost events: seq<Event>)
      requires CanDeliver(c, q, seqNo)
      modifies this`q
      ensures Legal(c, old(q), events) && q == Run(c, old(q), events)
      ensures q.deliveries == old(q).deliveries + [Outcome(c, old(q), seqNo, handlerOk, ackOk, publishOk, letterAckOk)]
      ensures q.stored == old(q).stored && q.counts == old(q).counts[seqNo := CountOf(old(q), seqNo) + 1]
      ensures var reached := handlerOk && Accepted(c, old(q).stored[seqNo]);
              var last := CountOf(old(q), seqNo) + 1 == c.maxDeliver;
              var lettered := !(reached && ackOk) && last && publishOk;
              && q.handled == (if reached then old(q).handled + {seqNo} else old(q).handled)
              && q.acked == (if (reached && ackOk) || (lettered && letterAckOk) then old(q).acked + {seqNo}
                             else old(q).acked)
              && q.deadLetters == (if lettered then WithLetter(c, old(q), seqNo) else old(q).deadLetters)
    {
      hide Legal, Run, DeadLetterId, Accepted, AfterCrash;
      ghost var start := q;
      LegalNil(c, q);
      var d := |q.deliveries|;
      events := Take(Deliver(seqNo), [], start);
      var failed := true;
      if handlerOk && Accepted(c, q.stored[seqNo]) {
        events := Take(HandlerReturns(d, true), events, start);
        events := Take(AckReturns(d, ackOk), events, start);
        failed := !ackOk;
      } else {
        events := Take(HandlerReturns(d, false), events, start);
      }
      if failed {
        LetterUnchanged(c, start, q, seqNo);
        events := OnFailure(d, publishOk, letterAckOk, events, start);
      }
    }

    /** The `catch`: dead-letter on the last delivery, else ask for another. */
    method OnFailure(d: nat, publishOk: bool, letterAckOk: bool, ghost before: seq<Event>, ghost start: Queue)
      returns (ghost events: seq<Event>)
      requires Legal(c, start, before) && q == Run(c, start, before)
      requires InPhase(q, d, Failed) && q.deliveries[d].seqNo < |q.stored|
      modifies this`q
      ensures Legal(c, start, events) && q == Run(c, start, events)
      ensures q.deliveries == old(q).deliveries[d := old(q).deliveries[d].(phase := Ended(
                if old(q).deliveries[d].count < c.maxDeliver then Naked
                else if publishOk && letterAckOk then DeadLettered
                else Abandoned))]
      ensures q.stored == old(q).stored && q.counts == old(q).counts && q.handled == old(q).handled
      ensures var seqNo, last := old(q).deliveries[d].seqNo, old(q).deliveries[d].count >= c.maxDeliver;
              && q.acked == (if last && publishOk && letterAckOk then old(q).acked + {seqNo} else old(q).acked)
              && q.deadLetters == (if last && publishOk then WithLetter(c, old(q), seqNo) else old(q).deadLetters)
    {
      hide Legal, Run, DeadLetterId, Accepted, AfterCrash;
      if q.deliveries[d].count >= c.maxDeliver {
        events := Take(DeadLetterReturns(d, publishOk), before, start);
        if publishOk {
          events := Take(AckReturns(d, letterAckOk), events, start);
        }
      } else {
        events := Take(Nak(d), before, start);
      }
    }
  }

  lemma LetterUnchanged(c: Consumer, q: Queue, r: Queue, seqNo: nat)
    requires seqNo < |q.stored| && r.stored == q.stored && r.deadLetters == q.deadLetters
    ensures WithLetter(c, r, seqNo) == WithLetter(c, q, seqNo)
  {
  }

  /** The dead letters once the message's is published: the first under its id stays. */
  function WithLetter(c: Consumer, q: Queue, seqNo: nat): map<string, Wire<string>>
    requires seqNo < |q.stored|
  {
    var id := DeadLetterId(c, q, seqNo);
    if id in q.deadLetters then q.deadLetters else q.deadLetters[id := q.stored[seqNo].wire]
  }

  /** A stored message is new, unacknowledged, and can be delivered where any delivery is allowed. */
  lemma StoreMeaning(c: Consumer, q: Queue, message: Stored)
    requires Sound(c, q)
    ensures var r := Next(c, q, Store(message));
            && r.stored == q.stored + [message] && r.handled == q.handled && r.acked == q.acked
            && r.deliveries == q.deliveries && r.deadLetters == q.deadLetters
            && (CanDeliver(c, r, |q.stored|) <==> c.maxDeliver > 0)
            && forall s: nat :: s < |q.stored| ==> (CanDeliver(c, r, s) <==> CanDeliver(c, q, s))
  {
    hide DeliverySound, LetterSound, Accepted;
    assert |q.stored| !in q.acked;
    NotCountedBefore(c, q);
  }

  lemma NotCountedBefore(c: Consumer, q: Queue)
    requires Sound(c, q)
    ensures CountOf(q, |q.stored|) == 0
  {
    forall s | s in q.counts
      ensures s < |q.stored|
    {
      CountedIsStored(c, q, s);
    }
  }

  lemma CountedIsStored(c: Consumer, q: Queue, s: nat)
    requires Sound(c, q) && s in q.counts
    ensures s < |q.stored|
  {
    hide AckSound, LetterSound, Accepted;
    var d :| 0 <= d < |q.deliveries| && IsDelivery(q.deliveries[d], s, q.counts[s]);
    assert DeliverySound(c, q, q.deliveries[d]);
  }

  /** A crash abandons exactly the deliveries that were still open, and touches nothing else. */
  lemma CrashMeaning(c: Consumer, q: Queue)
    ensures var r := Next(c, q, Crash);
            && r == q.(deliveries := r.deliveries) && |r.deliveries| == |q.deliveries|
            && forall d :: 0 <= d < |q.deliveries| ==>
                 && (q.deliveries[d].phase.Ended? ==> r.deliveries[d] == q.deliveries[d])
                 && (!q.deliveries[d].phase.Ended? ==> r.deliveries[d] == q.deliveries[d].(phase := Ended(Abandoned)))
  {
  }

  /** Two stored messages share a dead-letter id exactly when the texts it is made of are equal. */
  lemma SharedLetterId(c: Consumer, q: Queue, s: nat, t: nat)
    requires s < |q.stored| && t < |q.stored|
    ensures DeadLetterId(c, q, s) == DeadLetterId(c, q, t) <==> Named(c, q, s) == Named(c, q, t)
    ensures DeadLetterId(c, q, s) == "dlq-" + Named(c, q, s)
  {
    var a, b := Named(c, q, s), Named(c, q, t);
    assert c.durable + "-" + c.decimal(s) == c.durable + ("-" + c.decimal(s));
    assert c.durable + "-" + c.decimal(t) == c.durable + ("-" + c.decimal(t));
    assert ("dlq-" + a)[4..] == a && ("dlq-" + b)[4..] == b;
  }

  /** The message id its producer gave, or else the consumer and the position in the stream. */
  function Named(c: Consumer, q: Queue, s: nat): (name: string)
    requires s < |q.stored|
    ensures q.stored[s].natsId.Some? ==> Some(name) == q.stored[s].natsId
    ensures q.stored[s].natsId.None? ==> name == c.durable + ("-" + c.decimal(s))
  {
    match q.stored[s].natsId
    case Some(id) => id
    case None => c.durable + ("-" + c.decimal(s))
  }

  /** How a delivery ends when it runs to its end undisturbed. */
  function Outcome(c: Consumer, q: Queue, seqNo: nat,
                   handlerOk: bool, ackOk: bool, publishOk: bool, letterAckOk: bool): Delivery
    requires seqNo < |q.stored|
  {
    var count := CountOf(q, seqNo) + 1;
    var ending :=
      if handlerOk && Accepted(c, q.stored[seqNo]) && ackOk then Acked
      else if count < c.maxDeliver then Naked
      else if publishOk && letterAckOk then DeadLettered
      else Abandoned;
    Delivery(seqNo, count, Ended(ending))
  }

  lemma {:induction false} LegalSnoc(c: Consumer, q: Queue, events: seq<Event>, e: Event)
    requires Legal(c, q, events) && Enabled(c, Run(c, q, events), e)
    ensures Legal(c, q, events + [e]) && Run(c, q, events + [e]) == Next(c, Run(c, q, events), e)
    decreases |events|
  {
    hide Enabled, Next;
    if events == [] {
      assert [] + [e] == [e] && [e][1..] == [];
      LegalNil(c, Next(c, q, e));
    } else {
      LegalSnoc(c, Next(c, q, events[0]), events[1..], e);
      assert (events + [e])[1..] == events[1..] + [e];
    }
  }
}
