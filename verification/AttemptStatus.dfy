/**
 * The status lattice of a notification attempt: what a stream of provider reports, in
 * any order and with repeats, can do to the stored status.
 */
module AttemptStatus {
  import opened Basics

  datatype Status =
    | Pending | Sent | InProgress | Delivered | Answered
    | Acknowledged | Declined | Completed | Failed | NoAnswer | Cancelled

  function Rank(s: Status): nat {
    match s
    case Pending => 0
    case Sent => 1
    case InProgress => 2
    case Answered => 3
    case Completed | Delivered => 4
    case Acknowledged | Declined | Failed | NoAnswer | Cancelled => 5
  }

  predicate Terminal(s: Status) {
    match s
    case Completed | Delivered | Acknowledged | Declined | Failed | NoAnswer | Cancelled => true
    case _ => false
  }

  predicate CanTransition(current: Status, next: Status) {
    current == next || (!Terminal(current) && Rank(next) >= Rank(current))
  }

  /** The status `updateStatus` leaves behind. */
  function Updated(current: Status, report: Status): Status {
    if current == report || !CanTransition(current, report) then current else report
  }

  /** The statuses a contact goes through until it is over, in their order. */
  const OPEN := [Pending, Sent, InProgress, Answered]

  lemma OpenMeaning(s: Status)
    ensures s in OPEN <==> s in {Pending, Sent, InProgress, Answered}
  {
    assert OPEN[0] == Pending && OPEN[1] == Sent && OPEN[2] == InProgress && OPEN[3] == Answered;
  }

  /**
   * Which reports are taken: none once the contact is over, and before that every report
   * that it is over.
   */
  lemma UpdateMeaning(current: Status, report: Status)
    ensures current !in OPEN ==> Updated(current, report) == current
    ensures current in OPEN && report !in OPEN ==> Updated(current, report) == report
    ensures CanTransition(current, report) <==> Updated(current, report) == report
  {
    OpenMeaning(current);
    OpenMeaning(report);
    hide OPEN;
  }

  /** Of the open statuses those are taken that are not earlier. */
  lemma OpenOrder(i: nat, j: nat)
    requires i < 4 && j < 4
    ensures Updated(OPEN[i], OPEN[j]) == if i <= j then OPEN[j] else OPEN[i]
  {
    RankOf(i);
    RankOf(j);
    hide OPEN, Rank, Terminal;
  }

  lemma RankOf(i: nat)
    requires i < 4
    ensures |OPEN| == 4 && Rank(OPEN[i]) == i && !Terminal(OPEN[i])
  {
    assert OPEN[0] == Pending && OPEN[1] == Sent && OPEN[2] == InProgress && OPEN[3] == Answered;
  }

  function Folded(current: Status, reports: seq<Status>): Status
    decreases reports
  {
    if reports == [] then current else Folded(Updated(current, reports[0]), reports[1..])
  }

  /** How many reports of the stream changed the stored status. */
  function Changes(current: Status, reports: seq<Status>): nat
    decreases reports
  {
    if reports == [] then 0
    else (if Updated(current, reports[0]) != current then 1 else 0)
         + Changes(Updated(current, reports[0]), reports[1..])
  }

  function FirstTerminal(reports: seq<Status>): Option<Status> {
    if reports == [] then None
    else if Terminal(reports[0]) then Some(reports[0])
    else FirstTerminal(reports[1..])
  }

  /** `best` is among the candidates and none of them ranks higher. */
  ghost predicate IsHighest(best: Status, candidates: seq<Status>) {
    best in candidates && forall c :: c in candidates ==> Rank(c) <= Rank(best)
  }

  /** Ranks tell the open statuses apart, so the highest open status is unique. */
  lemma HighestUnique(a: Status, b: Status, candidates: seq<Status>)
    requires IsHighest(a, candidates) && IsHighest(b, candidates) && !Terminal(a)
    ensures a == b
  {
  }

  /**
   * From an open status the stored status becomes the first terminal report, or, when
   * there is none, the highest-ranked of the start and all reports.
   */
  lemma {:induction false} FoldedMeaning(start: Status, reports: seq<Status>)
    requires !Terminal(start)
    ensures match FirstTerminal(reports)
            case Some(t) => Folded(start, reports) == t
            case None => IsHighest(Folded(start, reports), [start] + reports) && !Terminal(Folded(start, reports))
    decreases reports
  {
    if reports != [] {
      var next, rest := Updated(start, reports[0]), reports[1..];
      assert reports == [reports[0]] + rest;
      if Terminal(reports[0]) {
        FoldedTerminal(next, rest);
      } else {
        FoldedMeaning(next, rest);
      }
    }
  }

  lemma {:induction false} FoldedTerminal(start: Status, reports: seq<Status>)
    requires Terminal(start)
    ensures Folded(start, reports) == start
    decreases reports
  {
    if reports != [] {
      FoldedTerminal(start, reports[1..]);
    }
  }

  /** Every change strictly raises the rank. */
  lemma {:induction false} ChangesRaiseRank(start: Status, reports: seq<Status>)
    ensures Rank(start) + Changes(start, reports) <= Rank(Folded(start, reports))
    decreases reports
  {
    if reports != [] {
      ChangesRaiseRank(Updated(start, reports[0]), reports[1..]);
    }
  }

  /** Ranks 4 and 5 are terminal, so an attempt changes status at most four times. */
  lemma {:induction false} AtMostFourChanges(start: Status, reports: seq<Status>)
    ensures Changes(start, reports) <= 4
    ensures !Terminal(start) ==> Changes(start, reports) <= 4 - Rank(start)
    ensures Terminal(start) ==> Changes(start, reports) == 0
    decreases reports
  {
    if reports != [] {
      AtMostFourChanges(Updated(start, reports[0]), reports[1..]);
    }
  }

  lemma {:induction false} FoldedConcat(start: Status, a: seq<Status>, b: seq<Status>)
    ensures Folded(start, a + b) == Folded(Folded(start, a), b)
    decreases a
  {
    if a == [] {
      assert a + b == b;
    } else {
      FoldedConcat(Updated(start, a[0]), a[1..], b);
      assert (a + b)[1..] == a[1..] + b;
    }
  }

  /** Once a report has been absorbed it stays absorbed. */
  lemma {:induction false} StaysAbsorbed(current: Status, x: Status, later: seq<Status>)
    requires Updated(current, x) == current
    ensures Updated(Folded(current, later), x) == Folded(current, later)
    decreases later
  {
    if later != [] {
      StaysAbsorbed(Updated(current, later[0]), x, later[1..]);
    }
  }

  /** Redelivering a report at any later point of the stream changes nothing. */
  lemma RedeliveryIsHarmless(start: Status, a: seq<Status>, x: Status, b: seq<Status>, c: seq<Status>)
    ensures Folded(start, a + [x] + b + [x] + c) == Folded(start, a + [x] + b + c)
  {
    var once := a + [x] + b;
    var before := Folded(start, a);
    FoldedConcat(start, a, [x]);
    FoldedConcat(start, a + [x], b);
    FoldedConcat(start, once, [x]);
    FoldedConcat(start, once + [x], c);
    FoldedConcat(start, once, c);
    StaysAbsorbed(Updated(before, x), x, b);
    assert Folded(before, [x]) == Updated(before, x);
    var settled := Folded(start, once);
    assert Folded(settled, [x]) == Updated(settled, x);
  }
}
