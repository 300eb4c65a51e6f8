/**
 * The process-local queue: subscriptions, bounded pending deliveries, and closing. A
 * delivery is unfinished from its publish until its handler has returned or failed.
 */
module InMemoryQueue {
  import opened Basics

  /** One message on its way to one subscriber. */
  datatype Delivery = Delivery(sub: nat, task: nat, message: string)

  datatype State = State(
    subscriptions: map<string, set<nat>>,
    pending: set<Delivery>,
    pendingCount: int,
    closed: bool,
    nextSub: nat,
    nextTask: nat)

  const INITIAL := State(map[], {}, 0, false, 0, 0)

  datatype Event =
    | Publish(topic: string, message: string)
    | Finish(delivery: Delivery)
    | Subscribe(topic: string)
    | CloseSubscription(topic: string, sub: nat)
    | Close

  function Subscribers(s: State, topic: string): set<nat> {
    if topic in s.subscriptions then s.subscriptions[topic] else {}
  }

  /** Why a publish is refused, if it is. */
  function Refusal(capacity: int, s: State, topic: string): Option<string> {
    if s.closed || Subscribers(s, topic) == {} then Some("Queue unavailable")
    else if s.pendingCount + |Subscribers(s, topic)| > capacity then Some("Queue capacity exceeded")
    else None
  }

  /** Exactly one new delivery of the message for every one of the subscribers. */
  predicate OneEach(subs: set<nat>, message: string, added: set<Delivery>) {
    && (forall d :: d in added ==> d.sub in subs && d.message == message)
    && (forall sub :: sub in subs ==> HasFor(added, sub))
    && forall d, e :: d in added && e in added && d.sub == e.sub ==> d == e
  }

  predicate HasFor(deliveries: set<Delivery>, sub: nat) {
    exists d :: d in deliveries && d.sub == sub
  }

  predicate TasksBetween(deliveries: set<Delivery>, low: nat, high: nat) {
    forall d :: d in deliveries ==> low <= d.task < high
  }

  predicate TasksDistinct(deliveries: set<Delivery>) {
    forall d, e :: d in deliveries && e in deliveries && d.task == e.task ==> d == e
  }

  /** What a publish does: nothing when refused, else one delivery for each subscriber. */
  predicate Publishes(capacity: int, s: State, topic: string, message: string, t: State) {
    if Refusal(capacity, s, topic).Some? then t == s
    else
      var subs, added := Subscribers(s, topic), t.pending - s.pending;
      && s.pending <= t.pending
      && OneEach(subs, message, added) && TasksDistinct(added) && TasksBetween(added, s.nextTask, t.nextTask)
      && s.nextTask <= t.nextTask
      && t == s.(pending := t.pending, nextTask := t.nextTask, pendingCount := s.pendingCount + |subs|)
  }

  /** What an event may do to the queue. */
  predicate Step(capacity: int, s: State, e: Event, t: State) {
    match e
    case Publish(topic, message) => Publishes(capacity, s, topic, message, t)
    case Finish(d) =>
      d in s.pending && t == s.(pending := s.pending - {d}, pendingCount := s.pendingCount - 1)
    case Subscribe(topic) =>
      if s.closed then t == s
      else
        var subs := Subscribers(s, topic) + {s.nextSub};
        t == s.(subscriptions := s.subscriptions[topic := subs], nextSub := s.nextSub + 1)
    case CloseSubscription(topic, sub) =>
      if topic !in s.subscriptions then t == s
      else t == s.(subscriptions := s.subscriptions[topic := s.subscriptions[topic] - {sub}])
    case Close => t == s.(closed := true, subscriptions := map[])
  }

  /** The counter is the number of unfinished deliveries, and within capacity. */
  predicate PendingSound(capacity: int, s: State) {
    && s.pendingCount == |s.pending| <= capacity
    && TasksDistinct(s.pending) && TasksBetween(s.pending, 0, s.nextTask)
  }

  predicate SubscribesTo(subscriptions: map<string, set<nat>>, topic: string, sub: nat) {
    topic in subscriptions && sub in subscriptions[topic]
  }

  /** A subscription is on one topic; a closed queue has none. */
  ghost predicate SubscriptionsSound(s: State) {
    && (forall topic, sub: nat :: SubscribesTo(s.subscriptions, topic, sub) ==> sub < s.nextSub)
    && (forall a, b, sub: nat ::
          SubscribesTo(s.subscriptions, a, sub) && SubscribesTo(s.subscriptions, b, sub) ==> a == b)
    && (s.closed ==> s.subscriptions == map[])
  }

  ghost predicate Valid(capacity: int, s: State) {
    PendingSound(capacity, s) && SubscriptionsSound(s)
  }

  lemma {:induction false} OneEachCounts(subs: set<nat>, message: string, added: set<Delivery>)
    requires OneEach(subs, message, added)
    ensures |added| == |subs|
    decreases |added|
  {
    if added == {} {
      assert forall sub :: sub in subs ==> HasFor(added, sub);
      assert subs == {};
    } else {
      var d :| d in added;
      var rest := added - {d};
      forall sub | sub in subs - {d.sub}
        ensures HasFor(rest, sub)
      {
        var e :| e in added && e.sub == sub;
        assert e in rest;
      }
      OneEachCounts(subs - {d.sub}, message, rest);
    }
  }

  lemma AddedTasks(pending: set<Delivery>, added: set<Delivery>, low: nat, high: nat)
    requires TasksDistinct(pending) && TasksBetween(pending, 0, low)
    requires TasksDistinct(added) && TasksBetween(added, low, high) && low <= high
    ensures TasksDistinct(pending + added) && TasksBetween(pending + added, 0, high)
    ensures |pending + added| == |pending| + |added| && pending + added - pending == added
  {
    assert pending !! added;
  }

  lemma Regained(small: set<Delivery>, large: set<Delivery>)
    requires small <= large
    ensures small + (large - small) == large
  {
  }

  lemma PublishKeepsValid(capacity: int, s: State, topic: string, message: string, t: State)
    requires PendingSound(capacity, s) && Publishes(capacity, s, topic, message, t)
    ensures PendingSound(capacity, t)
    ensures t.subscriptions == s.subscriptions && t.nextSub == s.nextSub && t.closed == s.closed
  {
    hide OneEach, Subscribers, TasksDistinct, TasksBetween;
    if Refusal(capacity, s, topic).None? {
      var subs, added := Subscribers(s, topic), t.pending - s.pending;
      OneEachCounts(subs, message, added);
      AddedTasks(s.pending, added, s.nextTask, t.nextTask);
      Regained(s.pending, t.pending);
    }
  }

  lemma StepKeepsPending(capacity: int, s: State, e: Event, t: State)
    requires PendingSound(capacity, s) && Step(capacity, s, e, t)
    ensures PendingSound(capacity, t)
  {
    if e.Publish? {
      hide PendingSound, Publishes;
      PublishKeepsValid(capacity, s, e.topic, e.message, t);
    } else {
      hide Publishes, Subscribers;
    }
  }

  lemma StepKeepsSubscriptions(capacity: int, s: State, e: Event, t: State)
    requires PendingSound(capacity, s) && SubscriptionsSound(s) && Step(capacity, s, e, t)
    ensures SubscriptionsSound(t)
  {
    if e.Publish? {
      hide PendingSound, Publishes;
      PublishKeepsValid(capacity, s, e.topic, e.message, t);
    } else {
      hide Publishes, PendingSound;
      forall topic, sub: nat | SubscribesTo(t.subscriptions, topic, sub)
        ensures || SubscribesTo(s.subscriptions, topic, sub)
                || (e == Subscribe(topic) && sub == s.nextSub && t.nextSub == sub + 1)
      {
      }
    }
  }

  lemma StepKeepsValid(capacity: int, s: State, e: Event, t: State)
    requires Valid(capacity, s) && Step(capacity, s, e, t)
    ensures Valid(capacity, t)
  {
    hide Step, PendingSound, SubscriptionsSound;
    StepKeepsPending(capacity, s, e, t);
    StepKeepsSubscriptions(capacity, s, e, t);
  }

  /** States a run of the queue goes through. */
  predicate IsRun(capacity: int, events: seq<Event>, states: seq<State>) {
    && |states| == |events| + 1 && states[0] == INITIAL
    && forall i :: 0 <= i < |events| ==> Step(capacity, states[i], events[i], states[i + 1])
  }

  /** In every run the counter is the number of unfinished deliveries, never above capacity. */
  lemma {:induction false} RunKeepsValid(capacity: nat, events: seq<Event>, states: seq<State>, k: nat)
    requires IsRun(capacity, events, states) && k < |states|
    ensures Valid(capacity, states[k])
  {
    hide Valid, Step;
    if k == 0 {
      InitialIsValid(capacity);
    } else {
      RunKeepsValid(capacity, events, states, k - 1);
      StepKeepsValid(capacity, states[k - 1], events[k - 1], states[k]);
    }
  }

  lemma InitialIsValid(capacity: nat)
    ensures Valid(capacity, INITIAL)
  {
  }

  /** Deliveries an event starts. */
  function Started(capacity: int, s: State, e: Event): nat {
    if e.Publish? && Refusal(capacity, s, e.topic).None? then |Subscribers(s, e.topic)| else 0
  }

  function StartedIn(capacity: int, events: seq<Event>, states: seq<State>, k: nat): nat
    requires |states| == |events| + 1 && k <= |events|
  {
    if k == 0 then 0
    else StartedIn(capacity, events, states, k - 1) + Started(capacity, states[k - 1], events[k - 1])
  }

  function FinishedIn(events: seq<Event>, k: nat): nat
    requires k <= |events|
  {
    if k == 0 then 0 else FinishedIn(events, k - 1) + if events[k - 1].Finish? then 1 else 0
  }

  lemma StepConserves(capacity: int, s: State, e: Event, t: State)
    requires Valid(capacity, s) && Step(capacity, s, e, t)
    ensures t.pendingCount == s.pendingCount + Started(capacity, s, e) - if e.Finish? then 1 else 0
  {
    hide OneEach, Subscribers, TasksDistinct, TasksBetween, PendingSound, SubscriptionsSound;
  }

  /** Every delivery started has finished or is counted, whatever subscriptions were closed. */
  lemma {:induction false} DeliveriesAreConserved(capacity: nat, events: seq<Event>, states: seq<State>, k: nat)
    requires IsRun(capacity, events, states) && k < |states|
    ensures StartedIn(capacity, events, states, k) == FinishedIn(events, k) + |states[k].pending|
  {
    hide Valid, Step, Started;
    RunKeepsValid(capacity, events, states, k);
    CountIsSize(capacity, states[k]);
    if k > 0 {
      DeliveriesAreConserved(capacity, events, states, k - 1);
      RunKeepsValid(capacity, events, states, k - 1);
      CountIsSize(capacity, states[k - 1]);
      StepConserves(capacity, states[k - 1], events[k - 1], states[k]);
    } else {
      assert INITIAL.pending == {};
    }
  }

  lemma CountIsSize(capacity: int, s: State)
    requires Valid(capacity, s)
    ensures s.pendingCount == |s.pending| <= capacity
  {
  }

  /** A delivery that is over: its task number was given out and it is not pending. */
  predicate Over(s: State, d: Delivery) {
    d.task < s.nextTask && d !in s.pending
  }

  lemma OverStaysOver(capacity: int, s: State, e: Event, t: State, d: Delivery)
    requires Step(capacity, s, e, t) && Over(s, d)
    ensures Over(t, d)
  {
    hide OneEach, Subscribers, TasksDistinct;
  }

  lemma {:induction false} OverInRun(capacity: nat, events: seq<Event>, states: seq<State>, i: nat, j: nat, d: Delivery)
    requires IsRun(capacity, events, states) && i <= j < |states| && Over(states[i], d)
    ensures Over(states[j], d)
    decreases j
  {
    hide Step, Over;
    if i < j {
      OverInRun(capacity, events, states, i, j - 1, d);
      OverStaysOver(capacity, states[j - 1], events[j - 1], states[j], d);
    }
  }

  /** No delivery finishes twice: each started delivery reaches its handler at most once. */
  lemma FinishedOnce(capacity: nat, events: seq<Event>, states: seq<State>, i: nat, j: nat, d: Delivery)
    requires IsRun(capacity, events, states) && i < j < |events|
    ensures !(events[i] == Finish(d) && events[j] == Finish(d))
  {
    if events[i] == Finish(d) {
      RunKeepsValid(capacity, events, states, i);
      assert Step(capacity, states[i], events[i], states[i + 1]);
      assert Step(capacity, states[j], events[j], states[j + 1]);
      hide Subscribers, Refusal, OneEach;
      assert Over(states[i + 1], d);
      OverInRun(capacity, events, states, i + 1, j, d);
    }
  }

  /** Once closed, the queue starts nothing more; what is pending can still finish. */
  lemma {:induction false} ClosedStartsNothing(capacity: nat, events: seq<Event>, states: seq<State>, i: nat, j: nat)
    requires IsRun(capacity, events, states) && i <= j < |states| && states[i].closed
    ensures states[j].closed && states[j].pending <= states[i].pending
    decreases j
  {
    if i < j {
      hide Subscribers;
      ClosedStartsNothing(capacity, events, states, i, j - 1);
      assert Step(capacity, states[j - 1], events[j - 1], states[j]);
    }
  }

  // ----- Who receives what -----

  /** Why a publish is refused: no open subscription, or no room for one delivery for each. */
  lemma RefusalMeaning(capacity: int, s: State, topic: string, subs: set<nat>)
    requires forall sub: nat :: sub in subs <==> SubscribesTo(s.subscriptions, topic, sub)
    ensures var refusal := Refusal(capacity, s, topic);
            && (refusal == Some("Queue unavailable") <==> s.closed || subs == {})
            && (refusal == Some("Queue capacity exceeded") <==>
                  !s.closed && subs != {} && s.pendingCount + |subs| > capacity)
            && (refusal == None <==> !s.closed && subs != {} && s.pendingCount + |subs| <= capacity)
  {
    assert Subscribers(s, topic) == subs;
  }

  /** The one delivery that a publish starts for a subscriber. */
  predicate Receives(s: State, t: State, sub: nat, message: string, d: Delivery) {
    && d in t.pending && d !in s.pending && d.sub == sub && d.message == message
    && forall e :: e in t.pending && e !in s.pending && e.sub == sub ==> e == d
  }

  predicate ReceivesOne(s: State, t: State, sub: nat, message: string) {
    exists d :: d in t.pending && Receives(s, t, sub, message, d)
  }

  /** An accepted publish starts exactly one delivery for each open subscription of its topic, and no others. */
  lemma PublishMeaning(capacity: int, s: State, topic: string, message: string, t: State)
    requires Publishes(capacity, s, topic, message, t) && Refusal(capacity, s, topic).None?
    ensures s.pending <= t.pending
    ensures forall sub: nat :: SubscribesTo(s.subscriptions, topic, sub) ==> ReceivesOne(s, t, sub, message)
    ensures forall d :: d in t.pending && d !in s.pending ==>
              SubscribesTo(s.subscriptions, topic, d.sub) && d.message == message
  {
    hide TasksDistinct, TasksBetween;
    var added := t.pending - s.pending;
    forall sub: nat | SubscribesTo(s.subscriptions, topic, sub)
      ensures ReceivesOne(s, t, sub, message)
    {
      assert HasFor(added, sub);
      var d :| d in added && d.sub == sub;
      assert Receives(s, t, sub, message, d);
    }
  }

  /** What each event does to the open subscriptions. */
  lemma SubscriptionsAfter(capacity: int, s: State, e: Event, t: State, topic: string, sub: nat)
    requires Step(capacity, s, e, t)
    ensures SubscribesTo(t.subscriptions, topic, sub)
       <==> || (e == Subscribe(topic) && !s.closed && sub == s.nextSub)
            || (SubscribesTo(s.subscriptions, topic, sub) && e != CloseSubscription(topic, sub) && e != Close)
    ensures t.closed <==> s.closed || e == Close
  {
    hide OneEach, TasksDistinct, TasksBetween;
  }

  lemma {:induction false} StaysSubscribed(capacity: int, events: seq<Event>, states: seq<State>,
                                           i: nat, j: nat, topic: string, sub: nat)
    requires IsRun(capacity, events, states) && i <= j < |states|
    requires SubscribesTo(states[i].subscriptions, topic, sub)
    requires forall k :: i <= k < j ==> events[k] != CloseSubscription(topic, sub) && events[k] != Close
    ensures SubscribesTo(states[j].subscriptions, topic, sub)
    decreases j
  {
    hide Step;
    if i < j {
      StaysSubscribed(capacity, events, states, i, j - 1, topic, sub);
      SubscriptionsAfter(capacity, states[j - 1], events[j - 1], states[j], topic, sub);
    }
  }

  /**
   * Over every run a subscriber receives every message that is accepted on its topic
   * between its subscription and its closing, in exactly one delivery.
   */
  lemma SubscriberReceives(capacity: nat, events: seq<Event>, states: seq<State>, i: nat, j: nat,
                           topic: string, message: string)
    requires IsRun(capacity, events, states) && i < j < |events|
    requires events[i] == Subscribe(topic) && !states[i].closed
    requires forall k :: i < k < j ==> events[k] != CloseSubscription(topic, states[i].nextSub) && events[k] != Close
    requires events[j] == Publish(topic, message) && Refusal(capacity, states[j], topic).None?
    ensures ReceivesOne(states[j], states[j + 1], states[i].nextSub, message)
  {
    hide Step, Publishes, Refusal, ReceivesOne;
    var sub := states[i].nextSub;
    assert Step(capacity, states[i], events[i], states[i + 1]);
    SubscriptionsAfter(capacity, states[i], events[i], states[i + 1], topic, sub);
    StaysSubscribed(capacity, events, states, i + 1, j, topic, sub);
    assert Step(capacity, states[j], events[j], states[j + 1]);
    PublishStep(capacity, states[j], topic, message, states[j + 1]);
    PublishMeaning(capacity, states[j], topic, message, states[j + 1]);
  }

  lemma PublishStep(capacity: int, s: State, topic: string, message: string, t: State)
    requires Step(capacity, s, Event.Publish(topic, message), t)
    ensures Publishes(capacity, s, topic, message, t)
  {
  }

  // ----- The queue itself -----

  class Queue {
    const capacity: int
    var subscriptions: map<string, set<nat>>
    var pending: set<Delivery>
    var pendingCount: int
    var closed: bool
    var nextSub: nat
    var nextTask: nat

    ghost function Current(): State
      reads this
    {
      State(subscriptions, pending, pendingCount, closed, nextSub, nextTask)
    }

    constructor (capacity: int)
      ensures Current() == INITIAL && this.capacity == capacity
    {
      this.capacity := capacity;
      subscriptions, pending, pendingCount, closed, nextSub, nextTask := map[], {}, 0, false, 0, 0;
    }

    method Publish(topic: string, message: string) returns (refused: Option<string>)
      requires Valid(capacity, Current())
      modifies this`pending, this`pendingCount, this`nextTask
      ensures refused == Refusal(capacity, old(Current()), topic)
      ensures Step(capacity, old(Current()), Event.Publish(topic, message), Current())
    {
      hide OneEach, TasksDistinct, TasksBetween, SubscriptionsSound;
      var subscribers := if topic in subscriptions then subscriptions[topic] else {};
      if closed || subscribers == {} {
        return Some("Queue unavailable");
      }
      if pendingCount + |subscribers| > capacity {
        return Some("Queue capacity exceeded");
      }
      ghost var added := Enqueue(subscribers, message);
      AddedTasks(old(pending), added, old(nextTask), nextTask);
      refused := None;
    }

    /** The loop over the subscribers. */
    method Enqueue(subscribers: set<nat>, message: string) returns (ghost added: set<Delivery>)
      modifies this`pending, this`pendingCount, this`nextTask
      ensures Starts(old(Current()), subscribers, message, added, Current())
    {
      hide Starts, OneEach, TasksDistinct, TasksBetween;
      added := {};
      var rest := subscribers;
      StartsNothing(Current(), subscribers, message);
      while rest != {}
        invariant rest <= subscribers && Starts(old(Current()), subscribers - rest, message, added, Current())
        decreases |rest|
      {
        var sub :| sub in rest;
        var delivery := Delivery(sub, nextTask, message);
        StartsOneMore(old(Current()), subscribers, rest, message, added, Current(), delivery);
        pendingCount := pendingCount + 1;
        pending := pending + {delivery};
        nextTask := nextTask + 1;
        rest := rest - {sub};
        added := added + {delivery};
      }
      assert subscribers - {} == subscribers;
    }

    /** A handler has returned or failed. */
    method Finish(delivery: Delivery)
      requires delivery in pending
      modifies this`pending, this`pendingCount
      ensures Step(capacity, old(Current()), Event.Finish(delivery), Current())
    {
      pending := pending - {delivery};
      pendingCount := pendingCount - 1;
    }

    method Subscribe(topic: string) returns (r: Result<nat>)
      modifies this`subscriptions, this`nextSub
      ensures r == if old(closed) then Err("Queue closed") else Ok(old(nextSub))
      ensures Step(capacity, old(Current()), Event.Subscribe(topic), Current())
    {
      if closed {
        return Err("Queue closed");
      }
      var sub := nextSub;
      nextSub := nextSub + 1;
      var subscribers := if topic in subscriptions then subscriptions[topic] else {};
      subscriptions := subscriptions[topic := subscribers + {sub}];
      r := Ok(sub);
    }

    /** Closing a subscription waits for its own deliveries. */
    method CloseSubscription(topic: string, sub: nat) returns (awaited: set<Delivery>)
      modifies this`subscriptions
      ensures Step(capacity, old(Current()), Event.CloseSubscription(topic, sub), Current())
      ensures awaited == set d | d in pending && d.sub == sub
    {
      if topic in subscriptions {
        subscriptions := subscriptions[topic := subscriptions[topic] - {sub}];
      }
      awaited := set d | d in pending && d.sub == sub;
    }

    /** Closing the queue waits for the deliveries of the subscriptions that are still open. */
    method Close() returns (awaited: set<Delivery>)
      modifies this`subscriptions, this`closed
      ensures Step(capacity, old(Current()), Event.Close, Current())
      ensures awaited
           == set d | d in pending && exists topic :: topic in old(subscriptions) && d.sub in old(subscriptions)[topic]
    {
      closed := true;
      awaited := set d | d in pending && exists topic :: topic in subscriptions && d.sub in subscriptions[topic];
      subscriptions := map[];
    }
  }

  /** The state after starting the deliveries `added`, one for each of the subscribers. */
  ghost predicate Starts(s: State, subs: set<nat>, message: string, added: set<Delivery>, t: State) {
    && OneEach(subs, message, added) && TasksDistinct(added)
    && TasksBetween(added, s.nextTask, t.nextTask) && s.nextTask <= t.nextTask
    && t == s.(pending := s.pending + added, pendingCount := s.pendingCount + |subs|, nextTask := t.nextTask)
  }

  lemma StartsNothing(s: State, subs: set<nat>, message: string)
    ensures subs - subs == {} && Starts(s, {}, message, {}, s)
  {
    assert s.pending + {} == s.pending;
  }

  lemma StartsOneMore(
      s: State, subs: set<nat>, rest: set<nat>, message: string, added: set<Delivery>, t: State, d: Delivery)
    requires rest <= subs && Starts(s, subs - rest, message, added, t)
    requires d.sub in rest && d.message == message && d.task == t.nextTask
    ensures var u := t.(pending := t.pending + {d}, pendingCount := t.pendingCount + 1, nextTask := t.nextTask + 1);
            Starts(s, subs - (rest - {d.sub}), message, added + {d}, u)
  {
    hide OneEach, TasksDistinct, TasksBetween;
    AddsOne(subs - rest, message, added, d, s.nextTask, t.nextTask);
    assert subs - rest + {d.sub} == subs - (rest - {d.sub});
    assert s.pending + added + {d} == s.pending + (added + {d});
  }

  lemma AddsOne(subs: set<nat>, message: string, added: set<Delivery>, d: Delivery, low: nat, high: nat)
    requires OneEach(subs, message, added) && TasksDistinct(added) && TasksBetween(added, low, high)
    requires d.sub !in subs && d.message == message && low <= d.task == high
    ensures OneEach(subs + {d.sub}, message, added + {d})
    ensures TasksDistinct(added + {d}) && TasksBetween(added + {d}, low, high + 1)
  {
    forall sub | sub in subs + {d.sub}
      ensures HasFor(added + {d}, sub)
    {
      if sub in subs {
        var e :| e in added && e.sub == sub;
        assert e in added + {d};
      } else {
        assert d in added + {d};
      }
    }
  }
}
