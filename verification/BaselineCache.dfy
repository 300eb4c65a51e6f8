/**
 * The read-through baseline cache: freshness, one load at a time for each workload, and
 * eviction. The repository's answers and the clock are inputs.
 */
module BaselineCache {
  import opened Basics

  datatype Workload = Workload(clusterId: string, namespace: string, name: string)

  datatype Baseline = Baseline(metricName: string, data: string)

  type Baselines = map<string, Baseline>

  datatype Config = Config(ttlMs: int, capacity: nat)

  /** `source` is the completion the entry was stored by; it is only spoken of in proofs. */
  datatype Entry = Entry(key: string, expiresAt: int, baselines: Baselines, source: nat)

  /** A finished load; None is a repository that threw. */
  datatype Completion = Completion(load: nat, key: string, at: int, result: Option<seq<Baseline>>)

  /** The cache in insertion order, the loads running, and the history of finished loads. */
  datatype World = World(
    cache: seq<Entry>,
    inFlight: map<string, nat>,
    running: map<nat, Workload>,
    nextLoad: nat,
    completed: seq<Completion>,
    cleared: nat)

  const EMPTY := World([], map[], map[], 0, [], 0)

  datatype Answer = Hit(baselines: Baselines) | Waits(load: nat)

  function Key(w: Workload): string {
    w.clusterId + "|" + w.namespace + "|" + w.name
  }

  function MapOf(baselines: seq<Baseline>): Baselines {
    if baselines == [] then map[]
    else
      var last := baselines[|baselines| - 1];
      MapOf(baselines[..|baselines| - 1])[last.metricName := last]
  }

  /** The baseline is the last of its metric in the repository's answer. */
  predicate IsLastOf(baselines: seq<Baseline>, metric: string, b: Baseline) {
    exists i :: 0 <= i < |baselines| && baselines[i] == b && b.metricName == metric && NoneAfter(baselines, metric, i)
  }

  predicate NoneAfter(baselines: seq<Baseline>, metric: string, i: nat) {
    forall j :: i < j < |baselines| ==> baselines[j].metricName != metric
  }

  /** The map holds, for exactly the metrics answered, the last baseline of each. */
  lemma {:induction false} MapOfMeaning(baselines: seq<Baseline>, metric: string)
    ensures metric in MapOf(baselines) <==> exists b :: b in baselines && b.metricName == metric
    ensures metric in MapOf(baselines) ==> IsLastOf(baselines, metric, MapOf(baselines)[metric])
  {
    if baselines != [] {
      var n := |baselines| - 1;
      var init, last := baselines[..n], baselines[n];
      MapOfMeaning(init, metric);
      assert baselines == init + [last];
      assert NoneAfter(baselines, metric, n);
      if metric in MapOf(init) && last.metricName != metric {
        var b := MapOf(init)[metric];
        var i :| 0 <= i < |init| && init[i] == b && b.metricName == metric && NoneAfter(init, metric, i);
        assert baselines[i] == b && NoneAfter(baselines, metric, i);
      }
    }
  }

  function Loaded(result: Option<seq<Baseline>>): Baselines {
    match result
    case None => map[]
    case Some(baselines) => MapOf(baselines)
  }

  function Lifetime(c: Config, result: Option<seq<Baseline>>): int {
    if result.Some? || c.ttlMs < 10000 then c.ttlMs else 10000
  }

  function Find(cache: seq<Entry>, key: string): Option<Entry> {
    if cache == [] then None
    else if cache[0].key == key then Some(cache[0])
    else Find(cache[1..], key)
  }

  function Without(cache: seq<Entry>, key: string): seq<Entry> {
    Filter((e: Entry) => e.key != key, cache)
  }

  /** The newest `capacity` of the entries, which are in order of their insertion. */
  function Newest(cache: seq<Entry>, capacity: nat): seq<Entry> {
    if |cache| > capacity then cache[|cache| - capacity..] else cache
  }

  // ----- Steps -----

  function Ask(c: Config, w: World, workload: Workload, now: int): (World, Answer) {
    var key := Key(workload);
    var cached := Find(w.cache, key);
    if cached.Some? && cached.value.expiresAt > now then (w, Hit(cached.value.baselines))
    else if key in w.inFlight then (w, Waits(w.inFlight[key]))
    else
      (w.(inFlight := w.inFlight[key := w.nextLoad],
          running := w.running[w.nextLoad := workload],
          nextLoad := w.nextLoad + 1),
       Waits(w.nextLoad))
  }

  function Complete(c: Config, w: World, load: nat, now: int, result: Option<seq<Baseline>>): World
    requires load in w.running
  {
    var key := Key(w.running[load]);
    var entry := Entry(key, now + Lifetime(c, result), Loaded(result), |w.completed|);
    w.(cache := Newest(Without(w.cache, key) + [entry], c.capacity),
       inFlight := w.inFlight - {key},
       running := w.running - {load},
       completed := w.completed + [Completion(load, key, now, result)])
  }

  function Cleared(w: World): World {
    w.(cache := [], cleared := |w.completed|)
  }

  datatype Event =
    | Asks(workload: Workload, now: int)
    | Completes(load: nat, now: int, result: Option<seq<Baseline>>)
    | Invalidate

  predicate Enabled(w: World, e: Event) {
    e.Completes? ==> e.load in w.running
  }

  function Next(c: Config, w: World, e: Event): World
    requires Enabled(w, e)
  {
    match e
    case Asks(workload, now) => Ask(c, w, workload, now).0
    case Completes(load, now, result) => Complete(c, w, load, now, result)
    case Invalidate => Cleared(w)
  }

  ghost predicate Legal(c: Config, w: World, events: seq<Event>)
    decreases |events|
  {
    events == [] || (Enabled(w, events[0]) && Legal(c, Next(c, w, events[0]), events[1..]))
  }

  ghost function Run(c: Config, w: World, events: seq<Event>): World
    requires Legal(c, w, events)
    decreases |events|
  {
    if events == [] then w else Run(c, Next(c, w, events[0]), events[1..])
  }

  // ----- What every step keeps -----

  /** Entries are in the order of the loads they came from, one for each key. */
  predicate Ordered(cache: seq<Entry>, bound: nat) {
    && (forall i :: 0 <= i < |cache| ==> cache[i].source < bound)
    && (forall i, j :: 0 <= i < j < |cache| ==> cache[i].source < cache[j].source)
    && forall i, j :: 0 <= i < j < |cache| ==> cache[i].key != cache[j].key
  }

  /** The entry holds what its load brought, for as long as that may be used. */
  predicate Backed(c: Config, completed: seq<Completion>, e: Entry) {
    && e.source < |completed|
    && var done := completed[e.source];
       done.key == e.key && e.baselines == Loaded(done.result) && e.expiresAt == done.at + Lifetime(c, done.result)
  }

  /** No later load of the same key has finished. */
  predicate IsLatest(completed: seq<Completion>, k: nat) {
    k < |completed| && forall j :: k < j < |completed| ==> completed[j].key != completed[k].key
  }

  predicate CacheSound(c: Config, w: World) {
    && |w.cache| <= c.capacity && Ordered(w.cache, |w.completed|)
    && forall e :: e in w.cache ==> Backed(c, w.completed, e) && IsLatest(w.completed, e.source)
  }

  /** A key has a load in flight exactly when a load of it is running, and then just that one. */
  predicate FlightsSound(w: World) {
    && (forall key :: key in w.inFlight ==> w.inFlight[key] in w.running && Key(w.running[w.inFlight[key]]) == key)
    && forall load :: load in w.running ==>
      load < w.nextLoad && Key(w.running[load]) in w.inFlight && w.inFlight[Key(w.running[load])] == load
  }

  ghost predicate Sound(c: Config, w: World) {
    CacheSound(c, w) && FlightsSound(w)
  }

  lemma {:induction false} FindMeaning(cache: seq<Entry>, key: string)
    ensures match Find(cache, key)
            case None => forall e :: e in cache ==> e.key != key
            case Some(e) => e in cache && e.key == key
  {
    if cache != [] {
      FindMeaning(cache[1..], key);
      assert cache == [cache[0]] + cache[1..];
    }
  }

  lemma WithoutMember(cache: seq<Entry>, key: string, e: Entry)
    ensures e in Without(cache, key) <==> e in cache && e.key != key
  {
    FilterMember((e: Entry) => e.key != key, cache, e);
  }

  lemma PrependOrdered(head: Entry, tail: seq<Entry>, rest: seq<Entry>, bound: nat)
    requires Ordered([head] + tail, bound) && Ordered(rest, bound)
    requires forall e :: e in rest ==> e in tail
    ensures Ordered([head] + rest, bound)
  {
    assert ([head] + tail)[0] == head;
    forall i | 0 <= i < |rest|
      ensures head.source < rest[i].source && head.key != rest[i].key
    {
      assert rest[i] in tail;
      var j :| 0 <= j < |tail| && tail[j] == rest[i];
      assert ([head] + tail)[j + 1] == rest[i] && ([head] + tail)[0] == head;
    }
  }

  lemma {:induction false} WithoutOrdered(cache: seq<Entry>, key: string, bound: nat)
    requires Ordered(cache, bound)
    ensures Ordered(Without(cache, key), bound)
  {
    if cache != [] {
      var head, tail := cache[0], cache[1..];
      WithoutOrdered(tail, key, bound);
      forall e | e in Without(tail, key)
        ensures e in tail
      {
        WithoutMember(tail, key, e);
      }
      hide Without, Ordered;
      assert cache == [head] + tail;
      WithoutCons(head, tail, key);
      assert [] + Without(tail, key) == Without(tail, key);
      PrependOrdered(head, tail, Without(tail, key), bound);
    }
  }

  lemma AppendOrdered(cache: seq<Entry>, e: Entry)
    requires Ordered(cache, e.source) && forall x :: x in cache ==> x.key != e.key
    ensures Ordered(cache + [e], e.source + 1)
  {
    assert forall i :: 0 <= i < |cache| ==> cache[i] in cache;
  }

  lemma NewestOrdered(cache: seq<Entry>, capacity: nat, bound: nat)
    requires Ordered(cache, bound)
    ensures Ordered(Newest(cache, capacity), bound) && |Newest(cache, capacity)| <= capacity
    ensures forall e :: e in Newest(cache, capacity) ==> e in cache
  {
  }

  /** What `remember` leaves: the entries of other keys and the new one, the newest of them. */
  lemma RememberMeaning(cache: seq<Entry>, capacity: nat, e: Entry)
    requires Ordered(cache, e.source)
    ensures var r := Newest(Without(cache, e.key) + [e], capacity);
            && Ordered(r, e.source + 1) && |r| <= capacity
            && forall x :: x in r ==> x == e || (x in cache && x.key != e.key)
  {
    hide Newest, Ordered, Without;
    var kept := Without(cache, e.key);
    WithoutOrdered(cache, e.key, e.source);
    forall x | x in kept
      ensures x in cache && x.key != e.key
    {
      WithoutMember(cache, e.key, x);
    }
    AppendOrdered(kept, e);
    NewestOrdered(kept + [e], capacity, e.source + 1);
  }

  lemma BackedGrows(c: Config, completed: seq<Completion>, done: Completion, e: Entry)
    requires Backed(c, completed, e) && IsLatest(completed, e.source) && done.key != e.key
    ensures Backed(c, completed + [done], e) && IsLatest(completed + [done], e.source)
  {
  }

  lemma NewEntryBacked(c: Config, completed: seq<Completion>, done: Completion)
    ensures var e := Entry(done.key, done.at + Lifetime(c, done.result), Loaded(done.result), |completed|);
            Backed(c, completed + [done], e) && IsLatest(completed + [done], e.source)
  {
    hide Loaded, Lifetime;
  }

  lemma CompleteKeepsCache(c: Config, w: World, load: nat, now: int, result: Option<seq<Baseline>>)
    requires CacheSound(c, w) && load in w.running
    ensures CacheSound(c, Complete(c, w, load, now, result))
  {
    hide Newest, Ordered, Without, Loaded, Lifetime, Key, Backed, IsLatest;
    var key := Key(w.running[load]);
    var done := Completion(load, key, now, result);
    var entry := Entry(key, now + Lifetime(c, result), Loaded(result), |w.completed|);
    var cache := Complete(c, w, load, now, result).cache;
    RememberMeaning(w.cache, c.capacity, entry);
    NewEntryBacked(c, w.completed, done);
    forall e | e in cache
      ensures Backed(c, w.completed + [done], e) && IsLatest(w.completed + [done], e.source)
    {
      if e != entry {
        BackedGrows(c, w.completed, done, e);
      }
    }
  }

  lemma StepKeepsSound(c: Config, w: World, e: Event)
    requires Sound(c, w) && Enabled(w, e)
    ensures Sound(c, Next(c, w, e))
  {
    hide Ordered, Backed, IsLatest, Key, Find;
    match e
    case Completes(load, now, result) =>
      CompleteKeepsCache(c, w, load, now, result);
      CompleteKeepsFlights(c, w, load, now, result);
    case Asks(workload, now) =>
      AskKeepsFlights(c, w, workload, now);
    case Invalidate =>
      EmptyOrdered(|w.completed|);
  }

  lemma EmptyOrdered(bound: nat)
    ensures Ordered([], bound)
  {
  }

  lemma CompleteKeepsFlights(c: Config, w: World, load: nat, now: int, result: Option<seq<Baseline>>)
    requires FlightsSound(w) && load in w.running
    ensures FlightsSound(Complete(c, w, load, now, result))
  {
    hide Key, Newest, Without, Lifetime, Loaded;
  }

  lemma AskKeepsFlights(c: Config, w: World, workload: Workload, now: int)
    requires FlightsSound(w)
    ensures FlightsSound(Ask(c, w, workload, now).0)
  {
    hide Key, Find;
  }

  lemma EmptyIsSound(c: Config)
    ensures Sound(c, EMPTY) && EvictsOldest(c, EMPTY)
  {
  }

  lemma {:induction false} RunKeepsSound(c: Config, w: World, events: seq<Event>)
    requires Sound(c, w) && Legal(c, w, events)
    ensures Sound(c, Run(c, w, events))
    decreases |events|
  {
    hide Sound, Next, Enabled;
    if events != [] {
      StepKeepsSound(c, w, events[0]);
      RunKeepsSound(c, Next(c, w, events[0]), events[1..]);
    }
  }

  // ----- What a caller is given -----

  /** The load finished less than `ttlMs` before, and less than ten seconds if it failed. */
  predicate StillFresh(c: Config, done: Completion, now: int) {
    now < done.at + c.ttlMs && (done.result.None? ==> now < done.at + 10000)
  }

  /** The map of the newest finished load of the key, or an empty one if it failed, still fresh. */
  predicate FreshFrom(c: Config, w: World, key: string, baselines: Baselines, now: int, k: nat) {
    && IsLatest(w.completed, k) && w.completed[k].key == key && StillFresh(c, w.completed[k], now)
    && match w.completed[k].result
       case None => baselines == map[]
       case Some(answer) => baselines == MapOf(answer)
  }

  /**
   * Every map answered from the cache is what the newest finished load of that key
   * brought, finished less than `ttlMs` ago, or an empty one from a load that failed
   * less than `ttlMs` and less than ten seconds ago.
   */
  lemma HitsAreFresh(c: Config, events: seq<Event>, workload: Workload, now: int)
    requires Legal(c, EMPTY, events)
    ensures var w := Run(c, EMPTY, events);
            var answer := Ask(c, w, workload, now).1;
            answer.Hit? ==> exists k: nat :: FreshFrom(c, w, Key(workload), answer.baselines, now, k)
  {
    hide Next, Legal, Run, Key, MapOf, Ordered, IsLatest, FlightsSound, Find;
    EmptyIsSound(c);
    RunKeepsSound(c, EMPTY, events);
    var w := Run(c, EMPTY, events);
    FindMeaning(w.cache, Key(workload));
    var answer := Ask(c, w, workload, now).1;
    if answer.Hit? {
      var e := Find(w.cache, Key(workload)).value;
      assert Backed(c, w.completed, e) && IsLatest(w.completed, e.source);
      assert FreshFrom(c, w, Key(workload), answer.baselines, now, e.source);
    }
  }

  /** Conversely, a load whose map is still in the cache is answered from exactly while it is fresh. */
  lemma CachedIsHitExactly(c: Config, events: seq<Event>, workload: Workload, now: int, e: Entry)
    requires Legal(c, EMPTY, events)
    requires e in Run(c, EMPTY, events).cache && e.key == Key(workload)
    ensures var w := Run(c, EMPTY, events);
            && e.source < |w.completed|
            && (Ask(c, w, workload, now).1.Hit? <==> StillFresh(c, w.completed[e.source], now))
            && (Ask(c, w, workload, now).1.Hit? ==>
                  FreshFrom(c, w, Key(workload), Ask(c, w, workload, now).1.baselines, now, e.source))
  {
    hide Next, Legal, Run, Key, MapOf, IsLatest, FlightsSound, Find;
    EmptyIsSound(c);
    RunKeepsSound(c, EMPTY, events);
    var w := Run(c, EMPTY, events);
    assert Backed(c, w.completed, e) && IsLatest(w.completed, e.source);
    FoundIsOnly(w.cache, Key(workload), e, |w.completed|);
  }

  lemma FoundIsOnly(cache: seq<Entry>, key: string, e: Entry, bound: nat)
    requires Ordered(cache, bound) && e in cache && e.key == key
    ensures Find(cache, key) == Some(e)
  {
    FindMeaning(cache, key);
    hide Find;
    if Find(cache, key).Some? {
      var i :| 0 <= i < |cache| && cache[i] == e;
      var j :| 0 <= j < |cache| && cache[j] == Find(cache, key).value;
    }
  }

  /** At most one load of a workload runs at a time, and a miss joins it. */
  lemma OneLoadAtATime(c: Config, events: seq<Event>, a: nat, b: nat, workload: Workload, now: int)
    requires Legal(c, EMPTY, events)
    ensures var w := Run(c, EMPTY, events);
            a in w.running && b in w.running && Key(w.running[a]) == Key(w.running[b]) ==> a == b
    ensures var w := Run(c, EMPTY, events);
            var answer := Ask(c, w, workload, now).1;
            a in w.running && Key(w.running[a]) == Key(workload) && answer.Waits? ==> answer.load == a
  {
    hide Next, Legal, Run, Key, CacheSound, Find;
    EmptyIsSound(c);
    RunKeepsSound(c, EMPTY, events);
  }

  lemma CacheIsBounded(c: Config, events: seq<Event>)
    requires Legal(c, EMPTY, events)
    ensures var w := Run(c, EMPTY, events); |w.cache| <= c.capacity && Ordered(w.cache, |w.completed|)
  {
    hide Next, Legal, Run, FlightsSound, Ordered;
    EmptyIsSound(c);
    RunKeepsSound(c, EMPTY, events);
  }

  // ----- Eviction -----

  predicate HoldsSource(cache: seq<Entry>, k: nat) {
    exists i :: 0 <= i < |cache| && cache[i].source == k
  }

  predicate AllNewer(cache: seq<Entry>, k: nat) {
    forall i :: 0 <= i < |cache| ==> cache[i].source > k
  }

  /** A load missing from the cache, though nothing superseded or cleared it, was evicted by newer ones. */
  ghost predicate EvictsOldest(c: Config, w: World) {
    forall k: nat :: w.cleared <= k && IsLatest(w.completed, k) && !HoldsSource(w.cache, k)
      ==> |w.cache| == c.capacity && AllNewer(w.cache, k)
  }

  lemma {:induction false} WithoutSize(cache: seq<Entry>, key: string, bound: nat)
    requires Ordered(cache, bound)
    ensures |Without(cache, key)| >= |cache| - 1
  {
    if cache != [] {
      var head, tail := cache[0], cache[1..];
      assert forall e :: e in tail ==> e.key != head.key;
      assert cache == [head] + tail;
      WithoutCons(head, tail, key);
      if head.key == key {
        FilterAll((e: Entry) => e.key != key, tail);
        WithoutIs(tail, key);
      } else {
        WithoutSize(tail, key, bound);
      }
    }
  }

  lemma WithoutIs(cache: seq<Entry>, key: string)
    ensures Without(cache, key) == Filter((e: Entry) => e.key != key, cache)
  {
    hide Filter;
  }

  lemma WithoutCons(head: Entry, tail: seq<Entry>, key: string)
    ensures Without([head] + tail, key) == (if head.key != key then [head] else []) + Without(tail, key)
  {
    hide Filter;
    FilterCons((e: Entry) => e.key != key, head, tail);
  }

  lemma NewestKeeps(cache: seq<Entry>, capacity: nat, i: nat)
    requires i < |cache|
    ensures i >= |cache| - |Newest(cache, capacity)| ==> HoldsSource(Newest(cache, capacity), cache[i].source)
  {
    var r := Newest(cache, capacity);
    assert i >= |cache| - |r| ==> r[i - (|cache| - |r|)] == cache[i];
  }

  lemma NewestDrops(cache: seq<Entry>, capacity: nat, bound: nat, k: nat)
    requires Ordered(cache, bound) && HoldsSource(cache, k) && !HoldsSource(Newest(cache, capacity), k)
    ensures |Newest(cache, capacity)| == capacity && AllNewer(Newest(cache, capacity), k)
  {
    var i :| 0 <= i < |cache| && cache[i].source == k;
    NewestKeeps(cache, capacity, i);
  }

  lemma AppendHolds(kept: seq<Entry>, e: Entry)
    ensures HoldsSource(kept + [e], e.source)
  {
    assert (kept + [e])[|kept|] == e;
  }

  lemma CompleteEvictsOldest(c: Config, w: World, load: nat, now: int, result: Option<seq<Baseline>>)
    requires CacheSound(c, w) && EvictsOldest(c, w) && load in w.running
    ensures EvictsOldest(c, Complete(c, w, load, now, result))
  {
    hide Key, Lifetime, Loaded, Without, Backed, Newest, Ordered, IsLatest, HoldsSource, AllNewer;
    var key, n := Key(w.running[load]), |w.completed|;
    var entry := Entry(key, now + Lifetime(c, result), Loaded(result), n);
    var r := Complete(c, w, load, now, result);
    var kept := Without(w.cache, key);
    WithoutOrdered(w.cache, key, n);
    WithoutSize(w.cache, key, n);
    forall x
      ensures x in kept <==> x in w.cache && x.key != key
    {
      WithoutMember(w.cache, key, x);
    }
    AppendOrdered(kept, entry);
    AppendHolds(kept, entry);
    NoneLatestBeyond(r.completed);
    assert r.completed[..n] == w.completed;
    forall k: nat | w.cleared <= k && IsLatest(r.completed, k) && !HoldsSource(r.cache, k)
      ensures |r.cache| == c.capacity && AllNewer(r.cache, k)
    {
      if k == n {
        NewestDrops(kept + [entry], c.capacity, n + 1, k);
      } else {
        OlderLoad(c, w, r, kept, entry, k);
      }
    }
  }

  lemma OlderLoad(c: Config, w: World, r: World, kept: seq<Entry>, entry: Entry, k: nat)
    requires CacheSound(c, w) && EvictsOldest(c, w)
    requires Ordered(kept + [entry], |w.completed| + 1) && entry.source == |w.completed| && |kept| >= |w.cache| - 1
    requires forall x :: x in kept <==> x in w.cache && x.key != entry.key
    requires r.cache == Newest(kept + [entry], c.capacity) && |r.completed| == |w.completed| + 1
    requires r.completed[..|w.completed|] == w.completed && r.completed[|w.completed|].key == entry.key
    requires w.cleared <= k < |w.completed| && IsLatest(r.completed, k) && !HoldsSource(r.cache, k)
    ensures |r.cache| == c.capacity && AllNewer(r.cache, k)
  {
    assert w.completed[k] == r.completed[..|w.completed|][k] == r.completed[k];
    assert IsLatest(w.completed, k) by {
      forall j | k < j < |w.completed|
        ensures w.completed[j].key != w.completed[k].key
      {
        assert w.completed[j] == r.completed[..|w.completed|][j] == r.completed[j];
      }
    }
    if HoldsSource(w.cache, k) {
      var i :| 0 <= i < |w.cache| && w.cache[i].source == k;
      assert w.cache[i] in w.cache && Backed(c, w.completed, w.cache[i]);
      assert w.cache[i].key != entry.key;
      assert w.cache[i] in kept;
      var j :| 0 <= j < |kept| && kept[j] == w.cache[i];
      assert (kept + [entry])[j].source == k;
      NewestDrops(kept + [entry], c.capacity, |w.completed| + 1, k);
    } else {
      forall i | 0 <= i < |r.cache|
        ensures r.cache[i].source > k
      {
        assert r.cache[i] == entry || r.cache[i] in kept;
      }
    }
  }

  lemma StepEvictsOldest(c: Config, w: World, e: Event)
    requires Sound(c, w) && EvictsOldest(c, w) && Enabled(w, e)
    ensures EvictsOldest(c, Next(c, w, e))
  {
    hide CacheSound, FlightsSound, IsLatest, HoldsSource, AllNewer, Key, Find;
    match e
    case Completes(load, now, result) => CompleteEvictsOldest(c, w, load, now, result);
    case Asks(workload, now) =>
    case Invalidate => NoneLatestBeyond(w.completed);
  }

  lemma NoneLatestBeyond(completed: seq<Completion>)
    ensures forall k: nat :: k >= |completed| ==> !IsLatest(completed, k)
  {
  }

  /**
   * In every run, if the newest load of some key is no longer in the cache, though
   * nothing was invalidated since, then the cache is full of newer loads.
   */
  lemma {:induction false} RunEvictsOldest(c: Config, w: World, events: seq<Event>)
    requires Sound(c, w) && EvictsOldest(c, w) && Legal(c, w, events)
    ensures EvictsOldest(c, Run(c, w, events))
    decreases |events|
  {
    hide Sound, EvictsOldest, Next, Enabled;
    if events != [] {
      StepKeepsSound(c, w, events[0]);
      StepEvictsOldest(c, w, events[0]);
      RunEvictsOldest(c, Next(c, w, events[0]), events[1..]);
    }
  }

  // ----- Invalidation -----

  /** Everything stored since `start` came from a load running then, or started later. */
  ghost predicate SinceStart(start: World, w: World) {
    && |start.completed| <= w.cleared <= |w.completed| && start.nextLoad <= w.nextLoad
    && (forall load :: load in w.running ==> load in start.running || load >= start.nextLoad)
    && (forall j :: |start.completed| <= j < |w.completed| ==>
      w.completed[j].load in start.running || w.completed[j].load >= start.nextLoad)
    && forall i :: 0 <= i < |w.cache| ==> |start.completed| <= w.cache[i].source < |w.completed|
  }

  lemma StepSinceStart(c: Config, start: World, w: World, e: Event)
    requires Sound(c, w) && SinceStart(start, w) && Enabled(w, e)
    ensures SinceStart(start, Next(c, w, e))
  {
    hide FlightsSound, Backed, IsLatest, Key, Find, Loaded, Lifetime, Without, Newest;
    if e.Completes? {
      var entry := Entry(Key(w.running[e.load]), e.now + Lifetime(c, e.result), Loaded(e.result), |w.completed|);
      RememberMeaning(w.cache, c.capacity, entry);
      var r := Next(c, w, e);
      assert forall i :: 0 <= i < |r.cache| ==> r.cache[i] in r.cache;
    }
  }

  lemma {:induction false} RunSinceStart(c: Config, start: World, w: World, events: seq<Event>)
    requires Sound(c, w) && SinceStart(start, w) && Legal(c, w, events)
    ensures SinceStart(start, Run(c, w, events))
    decreases |events|
  {
    hide Sound, SinceStart, Next, Enabled;
    if events != [] {
      StepKeepsSound(c, w, events[0]);
      StepSinceStart(c, start, w, events[0]);
      RunSinceStart(c, start, Next(c, w, events[0]), events[1..]);
    }
  }

  /** The load was running in that state, or started later. */
  predicate LoadedSince(w: World, done: Completion) {
    done.load in w.running || done.load >= w.nextLoad
  }

  /** After an invalidation no cached map comes from a load that had finished before it. */
  lemma InvalidationForgets(c: Config, w: World, events: seq<Event>, e: Entry)
    requires Sound(c, w) && Legal(c, Cleared(w), events)
    ensures var r := Run(c, Cleared(w), events);
            e in r.cache ==> e.source < |r.completed| && LoadedSince(w, r.completed[e.source])
  {
    hide Legal, Run, Next;
    StepKeepsSound(c, w, Invalidate) by { ClearedIsNext(c, w); }
    ClearedIsNext(c, w);
    assert SinceStart(w, Cleared(w)) by { StartsSince(c, w); }
    hide Sound, Cleared;
    RunSinceStart(c, w, Cleared(w), events);
  }

  lemma ClearedIsNext(c: Config, w: World)
    ensures Enabled(w, Invalidate) && Next(c, w, Invalidate) == Cleared(w)
  {
  }

  lemma StartsSince(c: Config, w: World)
    requires Sound(c, w)
    ensures SinceStart(w, Cleared(w))
  {
  }

  /** But a load in flight across it still fills the cache, and is answered from. */
  lemma InvalidationMissesRunningLoad(c: Config, w: World, load: nat, now: int, result: Option<seq<Baseline>>)
    requires Sound(c, w) && load in w.running && c.capacity >= 1 && c.ttlMs > 0
    ensures var r := Complete(c, Cleared(w), load, now, result);
            Ask(c, r, w.running[load], now).1 == Hit(Loaded(result))
  {
    hide Loaded, Key;
    assert Without([], Key(w.running[load])) == [];
  }

  // ----- The key -----

  lemma BarInside(a: string, b: string, x: string, y: string)
    requires a + "|" + x == b + "|" + y
    ensures |a| < |b| ==> '|' in b
  {
    if |a| < |b| {
      assert (a + "|" + x)[|a|] == '|' && (b + "|" + y)[|a|] == b[|a|];
    }
  }

  lemma FirstBar(a: string, b: string, x: string, y: string)
    requires '|' !in a && '|' !in b && a + "|" + x == b + "|" + y
    ensures a == b && x == y
  {
    BarInside(a, b, x, y);
    BarInside(b, a, y, x);
    var p, q := a + "|" + x, b + "|" + y;
    assert a == p[..|a|] && b == q[..|b|];
    assert x == p[|a| + 1..] && y == q[|b| + 1..];
  }

  function Bars(s: string): nat {
    multiset(s)['|']
  }

  lemma KeyBars(w: Workload)
    ensures Bars(Key(w)) == Bars(w.clusterId) + Bars(w.namespace) + Bars(w.name) + 2
  {
    assert Key(w) == w.clusterId + ("|" + (w.namespace + ("|" + w.name)));
    assert Bars("|") == 1;
  }

  predicate HasBar(w: Workload) {
    '|' in w.clusterId || '|' in w.namespace || '|' in w.name
  }

  lemma BarsFound(w: Workload)
    ensures HasBar(w) <==> Bars(w.clusterId) + Bars(w.namespace) + Bars(w.name) > 0
  {
    assert forall s: string :: '|' in s <==> '|' in multiset(s);
  }

  lemma SameBars(a: Workload, b: Workload)
    requires !HasBar(a) && Key(a) == Key(b)
    ensures !HasBar(b)
  {
    hide Key, HasBar, Bars;
    KeyBars(a);
    KeyBars(b);
    BarsFound(a);
    BarsFound(b);
  }

  lemma KeyCuts(w: Workload)
    ensures Key(w) == w.clusterId + "|" + (w.namespace + "|" + w.name)
  {
  }

  /** Without bars the two separators are the only ones, so the key can be cut in one way. */
  lemma PlainKeyIsUnique(a: Workload, b: Workload)
    requires !HasBar(a) && Key(a) == Key(b)
    ensures a == b
  {
    SameBars(a, b);
    KeyCuts(a);
    KeyCuts(b);
    hide Key;
    FirstBar(a.clusterId, b.clusterId, a.namespace + "|" + a.name, b.namespace + "|" + b.name);
    FirstBar(a.namespace, b.namespace, a.name, b.name);
  }

  lemma CutAtBar(s: string) returns (x: string, y: string)
    requires '|' in s
    ensures s == x + "|" + y
  {
    var i :| 0 <= i < |s| && s[i] == '|';
    x, y := s[..i], s[i + 1..];
  }

  /** With a bar in any field the key can be cut differently. */
  lemma BarsMoveCuts(a: Workload) returns (b: Workload)
    requires HasBar(a)
    ensures b != a && Key(b) == Key(a)
  {
    if '|' in a.clusterId {
      var x, y := CutAtBar(a.clusterId);
      b := Workload(x, y + "|" + a.namespace, a.name);
      assert |x| < |a.clusterId|;
      assert Key(b) == x + ("|" + (y + ("|" + (a.namespace + ("|" + a.name))))) == Key(a);
    } else if '|' in a.namespace {
      var x, y := CutAtBar(a.namespace);
      b := Workload(a.clusterId + "|" + x, y, a.name);
      assert |b.clusterId| > |a.clusterId|;
      assert Key(b) == a.clusterId + ("|" + (x + ("|" + (y + ("|" + a.name))))) == Key(a);
    } else {
      var x, y := CutAtBar(a.name);
      b := Workload(a.clusterId, a.namespace + "|" + x, y);
      assert |b.namespace| > |a.namespace|;
      assert Key(b) == a.clusterId + ("|" + (a.namespace + ("|" + (x + ("|" + y))))) == Key(a);
    }
  }

  /** Another workload shares the key, and so the cached map, exactly when a field holds a bar. */
  lemma KeyIsSharedExactly(a: Workload)
    ensures (exists b :: b != a && Key(b) == Key(a)) <==> HasBar(a)
  {
    hide Key, HasBar;
    if HasBar(a) {
      var b := BarsMoveCuts(a);
      assert b != a && Key(b) == Key(a);
    }
    forall b | b != a && Key(b) == Key(a)
      ensures HasBar(a)
    {
      if !HasBar(a) {
        PlainKeyIsUnique(a, b);
      }
    }
  }

  // ----- The provider -----

  class CachedBaselineProvider {
    const c: Config
    var cache: seq<Entry>
    var inFlight: map<string, nat>
    var running: map<nat, Workload>
    var nextLoad: nat
    var completed: seq<Completion>
    var cleared: nat

    ghost function State(): World
      reads this
    {
      World(cache, inFlight, running, nextLoad, completed, cleared)
    }

    constructor (c: Config)
      ensures State() == EMPTY && this.c == c
    {
      this.c := c;
      cache, inFlight, running, nextLoad := [], map[], map[], 0;
      completed, cleared := [], 0;
    }

    method ForWorkload(workload: Workload, now: int) returns (answer: Answer)
      modifies this`inFlight, this`running, this`nextLoad
      ensures (State(), answer) == Ask(c, old(State()), workload, now)
    {
      var key := Key(workload);
      var cached := Find(cache, key);
      if cached.Some? && cached.value.expiresAt > now {
        return Hit(cached.value.baselines);
      }
      if key in inFlight {
        return Waits(inFlight[key]);
      }
      inFlight := inFlight[key := nextLoad];
      running := running[nextLoad := workload];
      answer := Waits(nextLoad);
      nextLoad := nextLoad + 1;
    }

    method Invalidate()
      modifies this`cache, this`cleared
      ensures State() == Cleared(old(State()))
    {
      cache := [];
      cleared := |completed|;
    }

    /** The repository has answered a load, or thrown; everyone waiting gets the map. */
    method FinishLoad(load: nat, now: int, result: Option<seq<Baseline>>) returns (baselines: Baselines)
      requires load in running
      modifies this
      ensures State() == Complete(c, old(State()), load, now, result) && baselines == Loaded(result)
    {
      var key := Key(running[load]);
      if result.None? {
        baselines := map[];
        Remember(key, baselines, now + (if c.ttlMs < 10000 then c.ttlMs else 10000));
      } else {
        baselines := map[];
        var n := 0;
        while n < |result.value|
          invariant 0 <= n <= |result.value| && baselines == MapOf(result.value[..n])
        {
          baselines := baselines[result.value[n].metricName := result.value[n]];
          n := n + 1;
          assert result.value[..n][..n - 1] == result.value[..n - 1];
        }
        assert result.value[..n] == result.value;
        Remember(key, baselines, now + c.ttlMs);
      }
      completed := completed + [Completion(load, key, now, result)];
      inFlight := inFlight - {key};
      running := running - {load};
    }

    method Remember(key: string, baselines: Baselines, expiresAt: int)
      modifies this`cache
      ensures cache == Newest(Without(old(cache), key) + [Entry(key, expiresAt, baselines, |completed|)], c.capacity)
    {
      hide Without;
      cache := Without(cache, key);
      cache := cache + [Entry(key, expiresAt, baselines, |completed|)];
      ghost var all, k := cache, 0;
      while |cache| > c.capacity
        invariant 0 <= k <= |all| && cache == all[k..] && (k == 0 || |cache| >= c.capacity)
      {
        k := k + 1;
        assert cache[1..] == all[k..];
        cache := cache[1..];
      }
    }
  }
}
