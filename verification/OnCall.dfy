/**
 * On-call shifts and availability overrides: guarded inserts, who is on call at an
 * instant, and until when the answer holds. Instants are integers.
 */
module OnCall {
  import opened Basics

  /** A shift, or an override with its replacement contact; on call from start to before end. */
  datatype Child = Child(id: string, scheduleId: string, contactId: string, startsAt: int, endsAt: int)

  datatype Schedule = Schedule(id: string, enabled: bool)

  datatype Assignment = Assignment(
    scheduleId: string,
    contactId: string,
    shift: Child,
    replacement: Option<Child>,
    validUntil: int)

  predicate Active(v: Child, scheduleId: string, at: int) {
    v.scheduleId == scheduleId && v.startsAt <= at < v.endsAt
  }

  /** The first stored value that is active. */
  function FindActive(values: seq<Child>, scheduleId: string, at: int): Option<Child> {
    if values == [] then None
    else if Active(values[0], scheduleId, at) then Some(values[0])
    else FindActive(values[1..], scheduleId, at)
  }

  predicate HasOverlap(values: seq<Child>, scheduleId: string, startsAt: int, endsAt: int) {
    exists i :: 0 <= i < |values| && values[i].scheduleId == scheduleId
                && values[i].startsAt < endsAt && startsAt < values[i].endsAt
  }

  /** The database's answer to the same question: the active row that starts last. */
  predicate IsLatestActive(values: seq<Child>, scheduleId: string, at: int, found: Option<Child>) {
    match found
    case None => forall v :: v in values ==> !Active(v, scheduleId, at)
    case Some(f) =>
      && f in values && Active(f, scheduleId, at)
      && forall v :: v in values && Active(v, scheduleId, at) ==> v.startsAt <= f.startsAt
  }

  /** Every range is non-empty, and no two values of one schedule share an instant. */
  predicate Disjoint(values: seq<Child>) {
    && (forall i :: 0 <= i < |values| ==> values[i].startsAt < values[i].endsAt)
    && forall i, j :: 0 <= i < j < |values| ==> Apart(values[i], values[j])
  }

  predicate Apart(v: Child, w: Child) {
    v.scheduleId == w.scheduleId ==> v.endsAt <= w.startsAt || w.endsAt <= v.startsAt
  }

  // ----- Inserting -----

  /** Text to an instant; None is text without a valid date or without an offset. */
  type Clock = string -> Option<int>

  function ValidateTimeRange(clock: Clock, startsAt: string, endsAt: string): Result<(int, int)> {
    if clock(startsAt).None? || clock(endsAt).None? then Err("Timestamp must include a valid timezone-aware instant")
    else if clock(endsAt).value <= clock(startsAt).value then Err("endsAt must be after startsAt")
    else Ok((clock(startsAt).value, clock(endsAt).value))
  }

  class ScheduleChildren {
    var values: seq<Child>

    constructor ()
      ensures values == []
    {
      values := [];
    }

    method Create(value: Child) returns (r: Result<Child>)
      modifies this
      ensures (exists v :: v in old(values) && v.id == value.id)
          ==> r == Err("Entity already exists") && values == old(values)
      ensures (forall v :: v in old(values) ==> v.id != value.id)
          ==> r == Ok(value) && values == old(values) + [value]
    {
      if HasId(values, value.id) {
        return Err("Entity already exists");
      }
      values := values + [value];
      r := Ok(value);
    }
  }

  predicate HasId(values: seq<Child>, id: string) {
    exists i :: 0 <= i < |values| && values[i].id == id
  }

  /** What a caller asks to have inserted; the identifier is drawn at random by the source. */
  datatype Request = Request(id: string, scheduleId: string, contactId: string, startsAt: string, endsAt: string)

  /** What the guard looks at besides the stored values. */
  datatype Setting = Setting(schedules: map<string, Schedule>, contacts: set<string>, clock: Clock)

  /** The value to store, or why it is refused, in the order the controller asks. */
  function Guarded(s: Setting, values: seq<Child>, q: Request): Result<Child> {
    if q.scheduleId !in s.schedules then Err("On-call schedule not found")
    else if !s.schedules[q.scheduleId].enabled then Err("On-call schedule is disabled")
    else if q.contactId !in s.contacts then Err("Unknown contact")
    else match ValidateTimeRange(s.clock, q.startsAt, q.endsAt)
      case Err(message) => Err(message)
      case Ok(range) =>
        if HasOverlap(values, q.scheduleId, range.0, range.1) then Err("Overlaps an existing entry")
        else Ok(Child(q.id, q.scheduleId, q.contactId, range.0, range.1))
  }

  class OnCallController {
    const setting: Setting
    const shifts: ScheduleChildren
    const overrides: ScheduleChildren

    constructor (setting: Setting)
      ensures this.setting == setting
      ensures fresh(shifts) && fresh(overrides) && shifts != overrides
      ensures shifts.values == [] && overrides.values == []
    {
      this.setting := setting;
      var s := new ScheduleChildren();
      var o := new ScheduleChildren();
      shifts, overrides := s, o;
    }

    method Add(children: ScheduleChildren, q: Request) returns (r: Result<Child>)
      requires Disjoint(children.values) && !HasId(children.values, q.id)
      modifies children
      ensures r == Guarded(setting, old(children.values), q)
      ensures children.values == if r.Ok? then old(children.values) + [r.value] else old(children.values)
      ensures Disjoint(children.values)
    {
      if q.scheduleId !in setting.schedules {
        return Err("On-call schedule not found");
      }
      if !setting.schedules[q.scheduleId].enabled {
        return Err("On-call schedule is disabled");
      }
      if q.contactId !in setting.contacts {
        return Err("Unknown contact");
      }
      var range := ValidateTimeRange(setting.clock, q.startsAt, q.endsAt);
      if range.Err? {
        return Err(range.message);
      }
      var (start, end) := range.value;
      if HasOverlap(children.values, q.scheduleId, start, end) {
        return Err("Overlaps an existing entry");
      }
      r := children.Create(Child(q.id, q.scheduleId, q.contactId, start, end));
    }

    method AddShift(q: Request) returns (r: Result<Child>)
      requires Disjoint(shifts.values) && Disjoint(overrides.values) && shifts != overrides
      requires !HasId(shifts.values, q.id)
      modifies shifts
      ensures r == Guarded(setting, old(shifts.values), q)
      ensures shifts.values == if r.Ok? then old(shifts.values) + [r.value] else old(shifts.values)
      ensures Disjoint(shifts.values) && Disjoint(overrides.values)
    {
      r := Add(shifts, q);
    }

    method AddOverride(q: Request) returns (r: Result<Child>)
      requires Disjoint(shifts.values) && Disjoint(overrides.values) && shifts != overrides
      requires !HasId(overrides.values, q.id)
      modifies overrides
      ensures r == Guarded(setting, old(overrides.values), q)
      ensures overrides.values == if r.Ok? then old(overrides.values) + [r.value] else old(overrides.values)
      ensures Disjoint(shifts.values) && Disjoint(overrides.values)
    {
      r := Add(overrides, q);
    }
  }

  /** An insert is accepted exactly when everything it names is usable and keeps ranges disjoint. */
  lemma AcceptedExactly(s: Setting, values: seq<Child>, q: Request)
    requires Disjoint(values)
    ensures Guarded(s, values, q).Ok?
       <==> q.scheduleId in s.schedules && s.schedules[q.scheduleId].enabled && q.contactId in s.contacts
            && s.clock(q.startsAt).Some? && s.clock(q.endsAt).Some?
            && Disjoint(values + [ChildOf(s, q)])
    ensures Guarded(s, values, q).Ok? ==> Guarded(s, values, q).value == ChildOf(s, q)
  {
    hide Disjoint;
    GuardIsExact(values, ChildOf(s, q));
  }

  /** What a refused caller is told: the first thing wrong with the request. */
  lemma RefusedBecause(s: Setting, values: seq<Child>, q: Request)
    ensures var refusal := Guarded(s, values, q);
            var known := q.scheduleId in s.schedules;
            var enabled := known && s.schedules[q.scheduleId].enabled;
            var named := enabled && q.contactId in s.contacts;
            var dated := named && s.clock(q.startsAt).Some? && s.clock(q.endsAt).Some?;
            var ordered := dated && s.clock(q.startsAt).value < s.clock(q.endsAt).value;
            && (refusal == Err("On-call schedule not found") <==> !known)
            && (refusal == Err("On-call schedule is disabled") <==> known && !enabled)
            && (refusal == Err("Unknown contact") <==> enabled && !named)
            && (refusal == Err("Timestamp must include a valid timezone-aware instant") <==> named && !dated)
            && (refusal == Err("endsAt must be after startsAt") <==> dated && !ordered)
            && (refusal.Err? ==> !ordered || refusal == Err("Overlaps an existing entry"))
  {
  }

  /** The value a request stands for, where its instants are valid. */
  function ChildOf(s: Setting, q: Request): Child {
    var startsAt := if s.clock(q.startsAt).Some? then s.clock(q.startsAt).value else 0;
    var endsAt := if s.clock(q.endsAt).Some? then s.clock(q.endsAt).value else 0;
    Child(q.id, q.scheduleId, q.contactId, startsAt, endsAt)
  }

  // ----- Guarded inserts over a run -----

  /** What a run of accepted and refused inserts leaves of one kind of child. */
  function Inserted(values: seq<Child>, attempts: seq<Child>): seq<Child>
    decreases |attempts|
  {
    if attempts == [] then values
    else
      var v := attempts[0];
      var accepted := v.startsAt < v.endsAt && !HasOverlap(values, v.scheduleId, v.startsAt, v.endsAt);
      Inserted(if accepted then values + [v] else values, attempts[1..])
  }

  /** Whatever is attempted, the stored ranges of a schedule stay pairwise disjoint. */
  lemma {:induction false} InsertsStayDisjoint(values: seq<Child>, attempts: seq<Child>)
    requires Disjoint(values)
    ensures Disjoint(Inserted(values, attempts)) && values <= Inserted(values, attempts)
    decreases |attempts|
  {
    if attempts != [] {
      var v := attempts[0];
      var accepted := v.startsAt < v.endsAt && !HasOverlap(values, v.scheduleId, v.startsAt, v.endsAt);
      InsertsStayDisjoint(if accepted then values + [v] else values, attempts[1..]);
    }
  }

  /** One attempt is stored exactly when the ranges stay disjoint with it, and attempts follow one another. */
  lemma {:induction false} InsertedExactly(values: seq<Child>, v: Child, before: seq<Child>)
    requires Disjoint(values)
    ensures Inserted(values, before + [v])
         == Inserted(values, before) + if Disjoint(Inserted(values, before) + [v]) then [v] else []
    decreases |before|
  {
    if before == [] {
      GuardIsExact(values, v);
      assert [v][1..] == [] && [] + [v] == [v];
      assert values + [] == values;
    } else {
      var b := before[0];
      var accepted := b.startsAt < b.endsAt && !HasOverlap(values, b.scheduleId, b.startsAt, b.endsAt);
      GuardIsExact(values, b);
      InsertedExactly(if accepted then values + [b] else values, v, before[1..]);
      assert (before + [v])[1..] == before[1..] + [v];
    }
  }

  /** And the guard refuses nothing else: a range is refused exactly when it would break that. */
  lemma GuardIsExact(values: seq<Child>, v: Child)
    requires Disjoint(values)
    ensures v.startsAt < v.endsAt && !HasOverlap(values, v.scheduleId, v.startsAt, v.endsAt) <==> Disjoint(values + [v])
  {
    if Disjoint(values + [v]) {
      assert (values + [v])[|values|] == v;
      forall i | 0 <= i < |values| && values[i].scheduleId == v.scheduleId
        ensures values[i].endsAt <= v.startsAt || v.endsAt <= values[i].startsAt
      {
        assert (values + [v])[i] == values[i];
      }
    }
  }

  // ----- Who is active -----

  lemma {:induction false} FindActiveMeaning(values: seq<Child>, scheduleId: string, at: int)
    ensures match FindActive(values, scheduleId, at)
            case None => forall v :: v in values ==> !Active(v, scheduleId, at)
            case Some(f) => f in values && Active(f, scheduleId, at)
  {
    if values != [] {
      FindActiveMeaning(values[1..], scheduleId, at);
      assert values == [values[0]] + values[1..];
    }
  }

  lemma ActiveIsUnique(values: seq<Child>, scheduleId: string, at: int, v: Child, w: Child)
    requires Disjoint(values) && v in values && w in values
    requires Active(v, scheduleId, at) && Active(w, scheduleId, at)
    ensures v == w
  {
  }

  /**
   * With disjoint ranges the answer does not depend on the order of the store, and the
   * store's first match is the database's latest-starting one.
   */
  lemma ActiveIsWellDefined(values: seq<Child>, others: seq<Child>, scheduleId: string, at: int, found: Option<Child>)
    requires Disjoint(values) && forall v :: v in values <==> v in others
    ensures FindActive(others, scheduleId, at) == FindActive(values, scheduleId, at)
    ensures IsLatestActive(values, scheduleId, at, found) <==> found == FindActive(values, scheduleId, at)
  {
    hide Disjoint, Active;
    var a, b := FindActive(values, scheduleId, at), FindActive(others, scheduleId, at);
    FindActiveMeaning(values, scheduleId, at);
    FindActiveMeaning(others, scheduleId, at);
    if a.Some? && b.Some? {
      ActiveIsUnique(values, scheduleId, at, a.value, b.value);
    }
    if a.Some? {
      forall v | v in values && Active(v, scheduleId, at)
        ensures v == a.value
      {
        ActiveIsUnique(values, scheduleId, at, v, a.value);
      }
    }
  }

  // ----- Resolving -----

  datatype Roster = Roster(schedules: map<string, Schedule>, shifts: seq<Child>, overrides: seq<Child>)

  /** `OnCallResolver.resolve`. */
  function Resolve(r: Roster, scheduleId: string, at: int): Option<Assignment> {
    if scheduleId !in r.schedules || !r.schedules[scheduleId].enabled then None
    else
      var shift := FindActive(r.shifts, scheduleId, at);
      if shift.None? then None
      else
        var replacement := FindActive(r.overrides, scheduleId, at);
        Some(Assignment(
          scheduleId,
          if replacement.Some? then replacement.value.contactId else shift.value.contactId,
          shift.value, replacement,
          if replacement.Some? && replacement.value.endsAt < shift.value.endsAt then replacement.value.endsAt
          else shift.value.endsAt))
  }

  predicate OnDuty(values: seq<Child>, scheduleId: string, at: int) {
    exists i :: 0 <= i < |values| && values[i].scheduleId == scheduleId && values[i].startsAt <= at < values[i].endsAt
  }

  /** The value is stored, is of that schedule and covers the instant. */
  predicate Serves(values: seq<Child>, v: Child, scheduleId: string, at: int) {
    v in values && v.scheduleId == scheduleId && v.startsAt <= at < v.endsAt
  }

  /**
   * Somebody is on call exactly when the schedule is known and enabled and a shift covers
   * the instant: the override's contact if an override covers it too, else the shift's,
   * until the earlier of their ends.
   */
  lemma ResolveMeaning(r: Roster, scheduleId: string, at: int)
    ensures Resolve(r, scheduleId, at).Some?
       <==> scheduleId in r.schedules && r.schedules[scheduleId].enabled && OnDuty(r.shifts, scheduleId, at)
    ensures Resolve(r, scheduleId, at).Some? ==>
              var a := Resolve(r, scheduleId, at).value;
              && a.scheduleId == scheduleId && Serves(r.shifts, a.shift, scheduleId, at)
              && (a.replacement.Some? <==> OnDuty(r.overrides, scheduleId, at))
              && (a.replacement.None? ==> a.contactId == a.shift.contactId && a.validUntil == a.shift.endsAt)
              && (a.replacement.Some? ==>
                    var o := a.replacement.value;
                    && Serves(r.overrides, o, scheduleId, at) && a.contactId == o.contactId
                    && a.validUntil <= a.shift.endsAt && a.validUntil <= o.endsAt
                    && (a.validUntil == a.shift.endsAt || a.validUntil == o.endsAt))
  {
    ActiveExists(r.shifts, scheduleId, at);
    ActiveExists(r.overrides, scheduleId, at);
    hide FindActive, OnDuty;
  }

  lemma ActiveExists(values: seq<Child>, scheduleId: string, at: int)
    ensures FindActive(values, scheduleId, at).Some? <==> OnDuty(values, scheduleId, at)
    ensures FindActive(values, scheduleId, at).Some?
        ==> Serves(values, FindActive(values, scheduleId, at).value, scheduleId, at)
  {
    FindActiveMeaning(values, scheduleId, at);
    hide FindActive;
    if OnDuty(values, scheduleId, at) {
      var i :| 0 <= i < |values| && values[i].scheduleId == scheduleId && values[i].startsAt <= at < values[i].endsAt;
      assert values[i] in values && Active(values[i], scheduleId, at);
    }
    var found := FindActive(values, scheduleId, at);
    if found.Some? {
      var i :| 0 <= i < |values| && values[i] == found.value;
    }
  }

  function ContactAt(r: Roster, scheduleId: string, t: int): Option<string> {
    match Resolve(r, scheduleId, t)
    case None => None
    case Some(a) => Some(a.contactId)
  }

  /** The same contact is on call at every instant from `at` until before `validUntil`. */
  ghost predicate HoldsThroughout(r: Roster, at: int, a: Assignment) {
    forall t :: at <= t < a.validUntil ==> ContactAt(r, a.scheduleId, t) == Some(a.contactId)
  }

  /** An override by somebody else that begins after `at` and before the answer expires. */
  predicate Interrupts(v: Child, at: int, a: Assignment) {
    v.scheduleId == a.scheduleId && at < v.startsAt < a.validUntil && v.contactId != a.contactId
  }

  lemma ContactWhile(r: Roster, scheduleId: string, at: int, t: int)
    requires Disjoint(r.shifts) && Disjoint(r.overrides) && Resolve(r, scheduleId, at).Some?
    requires at <= t < Resolve(r, scheduleId, at).value.validUntil
    ensures var a, b := Resolve(r, scheduleId, at).value, Resolve(r, scheduleId, t);
            b.Some? && b.value.shift == a.shift && (a.replacement.Some? ==> b.value.replacement == a.replacement)
  {
    hide Disjoint;
    var a := Resolve(r, scheduleId, at).value;
    FindActiveMeaning(r.shifts, scheduleId, at);
    FindActiveMeaning(r.shifts, scheduleId, t);
    FindActiveMeaning(r.overrides, scheduleId, at);
    FindActiveMeaning(r.overrides, scheduleId, t);
    var b := Resolve(r, scheduleId, t).value;
    ActiveIsUnique(r.shifts, scheduleId, t, a.shift, b.shift);
    if a.replacement.Some? {
      ActiveIsUnique(r.overrides, scheduleId, t, a.replacement.value, b.replacement.value);
    }
  }

  /** The answer expires after the instant it is given for. */
  lemma ResolveExpiresLater(r: Roster, scheduleId: string, at: int)
    ensures var a := Resolve(r, scheduleId, at);
            a.Some? ==> at < a.value.validUntil <= a.value.shift.endsAt
  {
    FindActiveMeaning(r.shifts, scheduleId, at);
    FindActiveMeaning(r.overrides, scheduleId, at);
  }

  /**
   * The contact holds until `validUntil` exactly when an override is active already or
   * no override by somebody else begins before then.
   */
  lemma HoldsExactly(r: Roster, scheduleId: string, at: int)
    requires Disjoint(r.shifts) && Disjoint(r.overrides) && Resolve(r, scheduleId, at).Some?
    ensures var a := Resolve(r, scheduleId, at).value;
            HoldsThroughout(r, at, a) <==> a.replacement.Some? || forall v :: v in r.overrides ==> !Interrupts(v, at, a)
  {
    hide Disjoint, FindActive;
    var a := Resolve(r, scheduleId, at).value;
    forall t | at <= t < a.validUntil && (a.replacement.Some? || forall v :: v in r.overrides ==> !Interrupts(v, at, a))
      ensures ContactAt(r, scheduleId, t) == Some(a.contactId)
    {
      ContactWhile(r, scheduleId, at, t);
      FindActiveMeaning(r.overrides, scheduleId, t);
      FindActiveMeaning(r.overrides, scheduleId, at);
    }
    forall v | v in r.overrides && Interrupts(v, at, a) && a.replacement.None?
      ensures ContactAt(r, scheduleId, v.startsAt) == Some(v.contactId)
    {
      ContactWhile(r, scheduleId, at, v.startsAt);
      ActiveAtStart(r.overrides, v);
    }
  }

  lemma ActiveAtStart(values: seq<Child>, v: Child)
    requires Disjoint(values) && v in values
    ensures FindActive(values, v.scheduleId, v.startsAt) == Some(v)
  {
    FindActiveMeaning(values, v.scheduleId, v.startsAt);
    var f := FindActive(values, v.scheduleId, v.startsAt);
    if f.Some? {
      ActiveIsUnique(values, v.scheduleId, v.startsAt, f.value, v);
    }
  }

  const SHIFT := Child("s", "x", "ann", 0, 10)
  const OVERRIDE := Child("o", "x", "bob", 5, 7)
  const ROSTER := Roster(map["x" := Schedule("x", true)], [SHIFT], [OVERRIDE])

  /** The other case happens: with an override from 5 to 7, the answer at 0 runs to 10. */
  lemma UpcomingOverrideIsMissed()
    ensures Disjoint([SHIFT]) && Disjoint([OVERRIDE])
    ensures Resolve(ROSTER, "x", 0) == Some(Assignment("x", "ann", SHIFT, None, 10))
    ensures ContactAt(ROSTER, "x", 5) == Some("bob")
  {
    assert FindActive([SHIFT], "x", 0) == Some(SHIFT) && FindActive([SHIFT], "x", 5) == Some(SHIFT);
    assert FindActive([OVERRIDE], "x", 5) == Some(OVERRIDE);
    assert FindActive([OVERRIDE][1..], "x", 0) == None;
    assert FindActive([OVERRIDE], "x", 0) == None;
  }
}
