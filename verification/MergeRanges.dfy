/**
 * Disruption windows: merging them, and the exclusion clause built from the result.
 * An instant is an integer number of milliseconds; None is a date that does not parse.
 */
module MergeRanges {
  import opened Basics
  import opened Sorting

  datatype TimeRange = TimeRange(startTime: Option<int>, endTime: Option<int>)
  datatype Span = Span(start: int, end: int)

  predicate Covers(r: Span, t: int) {
    r.start <= t < r.end
  }

  predicate CoveredBy(spans: seq<Span>, t: int) {
    exists i :: 0 <= i < |spans| && Covers(spans[i], t)
  }

  /** The ranges that parse and are not empty. */
  function Usable(ranges: seq<TimeRange>): seq<Span> {
    if ranges == [] then []
    else
      var r, rest := ranges[0], Usable(ranges[1..]);
      if r.startTime.Some? && r.endTime.Some? && r.endTime.value > r.startTime.value
      then [Span(r.startTime.value, r.endTime.value)] + rest else rest
  }

  predicate StartsFirst(a: Span, b: Span) {
    a.start <= b.start
  }

  function Max(a: int, b: int): int {
    if a < b then b else a
  }

  /** One turn of the loop: extend the last merged range or open a new one. */
  function Absorb(merged: seq<Span>, r: Span): seq<Span> {
    var n := |merged|;
    if n > 0 && r.start <= merged[n - 1].end
    then merged[n - 1 := merged[n - 1].(end := Max(merged[n - 1].end, r.end))]
    else merged + [r]
  }

  function Folded(sorted: seq<Span>): seq<Span> {
    if sorted == [] then [] else Absorb(Folded(sorted[..|sorted| - 1]), sorted[|sorted| - 1])
  }

  function Components(ranges: seq<TimeRange>): seq<Span> {
    Folded(SortBy(StartsFirst, Usable(ranges)))
  }

  /** `Array.prototype.slice(0, limit)`; a negative limit counts from the end. */
  function Slice<T>(s: seq<T>, limit: int): (r: seq<T>)
    ensures r <= s
  {
    var n := if limit < 0 then Max(0, |s| + limit) else if limit < |s| then limit else |s|;
    s[..n]
  }

  function Merged(ranges: seq<TimeRange>, limit: int): seq<TimeRange> {
    Map((r: Span) => TimeRange(Some(r.start), Some(r.end)), Slice(Components(ranges), limit))
  }

  method MergeRanges(ranges: seq<TimeRange>, limit: int) returns (result: seq<TimeRange>)
    ensures result == Merged(ranges, limit)
  {
    var sorted := SortBy(StartsFirst, Usable(ranges));
    var merged: seq<Span> := [];
    for i := 0 to |sorted|
      invariant merged == Folded(sorted[..i])
    {
      var range := sorted[i];
      assert sorted[..i + 1][..i] == sorted[..i];
      if merged != [] && range.start <= merged[|merged| - 1].end {
        var last := merged[|merged| - 1];
        merged := merged[|merged| - 1 := last.(end := Max(last.end, range.end))];
      } else {
        merged := merged + [range];
      }
    }
    assert sorted[..|sorted|] == sorted;
    return Map((r: Span) => TimeRange(Some(r.start), Some(r.end)), Slice(merged, limit));
  }

  // ----- The shape of the result -----

  /** Non-empty ranges in order, with a gap before each next one. */
  ghost predicate Separated(spans: seq<Span>) {
    && (forall i :: 0 <= i < |spans| ==> spans[i].start < spans[i].end)
    && (forall i :: 0 <= i < |spans| - 1 ==> spans[i].end < spans[i + 1].start)
  }

  lemma {:induction false} SeparatedFar(spans: seq<Span>, i: nat, j: nat)
    requires Separated(spans) && i < j < |spans|
    ensures spans[i].end < spans[j].start
  {
    if i + 1 < j {
      SeparatedFar(spans, i, j - 1);
    }
  }

  lemma AbsorbKeeps(merged: seq<Span>, r: Span)
    requires Separated(merged) && r.start < r.end
    requires merged != [] ==> merged[|merged| - 1].start <= r.start
    ensures Separated(Absorb(merged, r))
    ensures Absorb(merged, r)[|Absorb(merged, r)| - 1].start <= r.start
    ensures forall t :: CoveredBy(Absorb(merged, r), t) <==> CoveredBy(merged, t) || Covers(r, t)
  {
    var n, a := |merged|, Absorb(merged, r);
    forall t
      ensures CoveredBy(a, t) <==> CoveredBy(merged, t) || Covers(r, t)
    {
      if CoveredBy(merged, t) {
        var i :| 0 <= i < n && Covers(merged[i], t);
        assert Covers(a[i], t);
      }
      if Covers(r, t) {
        assert Covers(a[|a| - 1], t);
      }
      if CoveredBy(a, t) {
        var i :| 0 <= i < |a| && Covers(a[i], t);
        assert i < n ==> (i < n - 1 ==> Covers(merged[i], t));
        if i == n - 1 && !Covers(merged[i], t) {
          assert Covers(r, t);
        }
      }
    }
  }

  lemma {:induction false} FoldedMeaning(sorted: seq<Span>)
    requires Ordered(StartsFirst, sorted)
    requires forall i :: 0 <= i < |sorted| ==> sorted[i].start < sorted[i].end
    ensures Separated(Folded(sorted))
    ensures var r := Folded(sorted);
            sorted != [] ==> r != [] && r[|r| - 1].start <= sorted[|sorted| - 1].start
    ensures forall t :: CoveredBy(Folded(sorted), t) <==> CoveredBy(sorted, t)
  {
    if sorted != [] {
      var n := |sorted| - 1;
      var init, r := sorted[..n], sorted[n];
      FoldedMeaning(init);
      assert n > 0 ==> StartsFirst(sorted[n - 1], r);
      AbsorbKeeps(Folded(init), r);
      forall t
        ensures CoveredBy(Folded(sorted), t) <==> CoveredBy(sorted, t)
      {
        CoveredSnoc(init, r, t);
        assert sorted == init + [r];
      }
    }
  }

  lemma CoveredSnoc(init: seq<Span>, r: Span, t: int)
    ensures CoveredBy(init + [r], t) <==> CoveredBy(init, t) || Covers(r, t)
  {
    if CoveredBy(init, t) {
      var i :| 0 <= i < |init| && Covers(init[i], t);
      assert Covers((init + [r])[i], t);
    }
    if Covers(r, t) {
      assert Covers((init + [r])[|init|], t);
    }
  }

  lemma CoveredSorted(spans: seq<Span>, t: int)
    ensures CoveredBy(SortBy(StartsFirst, spans), t) <==> CoveredBy(spans, t)
  {
    var sorted := SortBy(StartsFirst, spans);
    if CoveredBy(sorted, t) {
      var i :| 0 <= i < |sorted| && Covers(sorted[i], t);
      SortMember(StartsFirst, spans, sorted[i]);
    }
    if CoveredBy(spans, t) {
      var i :| 0 <= i < |spans| && Covers(spans[i], t);
      SortMember(StartsFirst, spans, spans[i]);
    }
  }

  lemma StartsFirstIsTotal()
    ensures TotalPreorder(StartsFirst)
  {
  }

  lemma {:induction false} UsableNonEmpty(ranges: seq<TimeRange>)
    ensures forall r :: r in Usable(ranges) ==> r.start < r.end
  {
    if ranges != [] {
      UsableNonEmpty(ranges[1..]);
    }
  }

  /**
   * Before the limit the merged ranges are sorted, non-empty and strictly apart, and they
   * cover exactly the instants that the usable inputs cover.
   */
  lemma ComponentsMeaning(ranges: seq<TimeRange>)
    ensures Separated(Components(ranges))
    ensures forall t :: CoveredBy(Components(ranges), t) <==> CoveredBy(Usable(ranges), t)
  {
    hide Folded, Usable, SortBy;
    var usable := Usable(ranges);
    var sorted := SortBy(StartsFirst, usable);
    StartsFirstIsTotal();
    SortOrdered(StartsFirst, usable);
    UsableNonEmpty(ranges);
    forall i | 0 <= i < |sorted|
      ensures sorted[i].start < sorted[i].end
    {
      SortMember(StartsFirst, usable, sorted[i]);
    }
    FoldedMeaning(sorted);
    forall t
      ensures CoveredBy(Components(ranges), t) <==> CoveredBy(usable, t)
    {
      CoveredSorted(usable, t);
    }
  }

  // ----- The merged form is canonical -----

  lemma FirstStart(spans: seq<Span>, t: int)
    requires Separated(spans) && CoveredBy(spans, t)
    ensures spans != [] && spans[0].start <= t
  {
    var i :| 0 <= i < |spans| && Covers(spans[i], t);
    if i > 0 {
      SeparatedFar(spans, 0, i);
    }
  }

  /** The first instant of the first range at or after which nothing is covered. */
  lemma FirstEnd(spans: seq<Span>, t: int)
    requires Separated(spans) && spans != [] && spans[0].start <= t <= spans[0].end
    ensures CoveredBy(spans, t) <==> t < spans[0].end
  {
    if t < spans[0].end {
      assert Covers(spans[0], t);
    }
    if CoveredBy(spans, t) {
      var i :| 0 <= i < |spans| && Covers(spans[i], t);
      if i > 0 {
        SeparatedFar(spans, 0, i);
      }
    }
  }

  lemma RestCovers(spans: seq<Span>, t: int)
    requires Separated(spans) && spans != []
    ensures Separated(spans[1..])
    ensures CoveredBy(spans[1..], t) <==> CoveredBy(spans, t) && t > spans[0].end
  {
    if CoveredBy(spans[1..], t) {
      var i :| 0 <= i < |spans[1..]| && Covers(spans[1..][i], t);
      assert Covers(spans[i + 1], t);
      SeparatedFar(spans, 0, i + 1);
    }
    if CoveredBy(spans, t) && t > spans[0].end {
      var i :| 0 <= i < |spans| && Covers(spans[i], t);
      assert Covers(spans[1..][i - 1], t);
    }
  }

  lemma StartCovered(spans: seq<Span>)
    requires Separated(spans) && spans != []
    ensures CoveredBy(spans, spans[0].start)
  {
    assert Covers(spans[0], spans[0].start);
  }

  lemma SameHead(a: seq<Span>, b: seq<Span>)
    requires Separated(a) && Separated(b) && a != [] && b != []
    requires forall t :: CoveredBy(a, t) <==> CoveredBy(b, t)
    ensures a[0] == b[0]
  {
    hide CoveredBy;
    StartCovered(a);
    StartCovered(b);
    FirstStart(b, a[0].start);
    FirstStart(a, b[0].start);
    var least := if a[0].end < b[0].end then a[0].end else b[0].end;
    FirstEnd(a, least);
    FirstEnd(b, least);
  }

  /** Two separated lists that cover the same instants are the same list. */
  lemma {:induction false} SeparatedUnique(a: seq<Span>, b: seq<Span>)
    requires Separated(a) && Separated(b)
    requires forall t :: CoveredBy(a, t) <==> CoveredBy(b, t)
    ensures a == b
    decreases |a|
  {
    hide CoveredBy, Separated;
    if a != [] {
      StartCovered(a);
      FirstStart(b, a[0].start);
      SameHead(a, b);
      RestCovers(a, 0);
      RestCovers(b, 0);
      forall t
        ensures CoveredBy(a[1..], t) <==> CoveredBy(b[1..], t)
      {
        RestCovers(a, t);
        RestCovers(b, t);
      }
      SeparatedUnique(a[1..], b[1..]);
      assert a == [a[0]] + a[1..] && b == [b[0]] + b[1..];
    } else if b != [] {
      StartCovered(b);
      FirstStart(a, b[0].start);
    }
  }

  ghost predicate SameCover(a: seq<Span>, b: seq<Span>) {
    forall t :: CoveredBy(a, t) <==> CoveredBy(b, t)
  }

  /** So the order, the overlaps and the duplicates of the inputs leave no trace. */
  lemma MergingIsCanonical(a: seq<TimeRange>, b: seq<TimeRange>)
    ensures Components(a) == Components(b) <==> SameCover(Usable(a), Usable(b))
  {
    hide Components, Usable, CoveredBy;
    ComponentsMeaning(a);
    ComponentsMeaning(b);
    forall t
      ensures CoveredBy(Components(a), t) <==> CoveredBy(Usable(a), t)
      ensures CoveredBy(Components(b), t) <==> CoveredBy(Usable(b), t)
    {
    }
    if SameCover(Usable(a), Usable(b)) {
      SeparatedUnique(Components(a), Components(b));
    }
  }

  // ----- What the limit leaves -----

  lemma SliceMeaning<T>(s: seq<T>, limit: int)
    ensures limit >= 0 ==> |Slice(s, limit)| == if |s| <= limit then |s| else limit
    ensures limit < 0 ==> |Slice(s, limit)| == if |s| + limit >= 0 then |s| + limit else 0
    ensures forall i :: 0 <= i < |Slice(s, limit)| ==> Slice(s, limit)[i] == s[i]
  {
  }

  /** The answer is the first `limit` components, or all but the last `-limit` for a negative one. */
  lemma MergedMeaning(ranges: seq<TimeRange>, limit: int)
    ensures var all, n := Components(ranges), |Merged(ranges, limit)|;
            && (0 <= limit <= |all| ==> n == limit) && (limit > |all| ==> n == |all|)
            && (-|all| <= limit < 0 ==> n == |all| + limit) && (limit < -|all| ==> n == 0)
            && n <= |all|
            && forall i :: 0 <= i < n ==> Merged(ranges, limit)[i] == TimeRange(Some(all[i].start), Some(all[i].end))
  {
    hide Components, Slice;
    SliceMeaning(Components(ranges), limit);
  }

  /** The usable inputs cover an instant exactly when one of them parses and holds it. */
  lemma {:induction false} UsableMeaning(ranges: seq<TimeRange>, t: int)
    ensures CoveredBy(Usable(ranges), t) <==> exists r :: r in ranges && Holds(r, t)
  {
    if ranges != [] {
      var r, rest := ranges[0], ranges[1..];
      UsableMeaning(rest, t);
      assert ranges == [r] + rest;
      if r.startTime.Some? && r.endTime.Some? {
        CoveredCons(Span(r.startTime.value, r.endTime.value), Usable(rest), t);
      }
      assert (exists x :: x in ranges && Holds(x, t)) <==> Holds(r, t) || exists x :: x in rest && Holds(x, t);
    }
  }

  predicate Holds(r: TimeRange, t: int) {
    r.startTime.Some? && r.endTime.Some? && r.startTime.value <= t < r.endTime.value
  }

  // ----- The exclusion clause -----

  /** The SQL condition `NOT (t >= start AND t < end)` for each range, conjoined. */
  predicate Kept(exclude: seq<TimeRange>, t: int)
    requires forall r :: r in exclude ==> r.startTime.Some? && r.endTime.Some?
  {
    forall i :: 0 <= i < |exclude| ==> !(t >= exclude[i].startTime.value && t < exclude[i].endTime.value)
  }

  predicate Parsed(ranges: seq<TimeRange>) {
    forall r :: r in ranges ==> r.startTime.Some? && r.endTime.Some?
  }

  lemma {:induction false} KeptUsable(ranges: seq<TimeRange>, t: int)
    requires Parsed(ranges)
    ensures Kept(ranges, t) <==> !CoveredBy(Usable(ranges), t)
  {
    if ranges != [] {
      var rest := Usable(ranges[1..]);
      KeptUsable(ranges[1..], t);
      assert ranges == [ranges[0]] + ranges[1..];
      var r := Span(ranges[0].startTime.value, ranges[0].endTime.value);
      if Usable(ranges) == [r] + rest {
        CoveredCons(r, rest, t);
      }
    }
  }

  lemma CoveredCons(r: Span, rest: seq<Span>, t: int)
    ensures CoveredBy([r] + rest, t) <==> Covers(r, t) || CoveredBy(rest, t)
  {
    if Covers(r, t) {
      assert Covers(([r] + rest)[0], t);
    }
    if CoveredBy(rest, t) {
      var i :| 0 <= i < |rest| && Covers(rest[i], t);
      assert Covers(([r] + rest)[i + 1], t);
    }
  }

  lemma KeptMerged(ranges: seq<TimeRange>, limit: int, t: int)
    ensures Parsed(Merged(ranges, limit))
    ensures Kept(Merged(ranges, limit), t) <==> !CoveredBy(Slice(Components(ranges), limit), t)
  {
    hide Components;
    var cut, merged := Slice(Components(ranges), limit), Merged(ranges, limit);
    assert forall i :: 0 <= i < |cut| ==> merged[i] == TimeRange(Some(cut[i].start), Some(cut[i].end));
    if CoveredBy(cut, t) {
      var i :| 0 <= i < |cut| && Covers(cut[i], t);
      assert !Kept(merged, t);
    }
  }

  /** Every instant the merged clause rejects, the original ranges reject as well. */
  lemma MergedRejectsNothingElse(ranges: seq<TimeRange>, limit: int, t: int)
    requires Parsed(ranges) && Kept(ranges, t)
    ensures Parsed(Merged(ranges, limit)) && Kept(Merged(ranges, limit), t)
  {
    hide Components, Usable, Merged;
    KeptMerged(ranges, limit, t);
    KeptUsable(ranges, t);
    ComponentsMeaning(ranges);
    PrefixCovered(Slice(Components(ranges), limit), Components(ranges), t);
  }

  lemma PrefixCovered(cut: seq<Span>, all: seq<Span>, t: int)
    requires cut <= all
    ensures CoveredBy(cut, t) ==> CoveredBy(all, t)
  {
    if CoveredBy(cut, t) {
      var i :| 0 <= i < |cut| && Covers(cut[i], t);
      assert Covers(all[i], t);
    }
  }

  /**
   * The merged clause keeps exactly the samples the original ranges keep if and only if
   * the limit cuts no component off.
   */
  lemma MergedClauseIsExact(ranges: seq<TimeRange>, limit: int)
    requires Parsed(ranges)
    ensures Parsed(Merged(ranges, limit))
    ensures limit >= 0 ==>
              ((forall t :: Kept(Merged(ranges, limit), t) <==> Kept(ranges, t)) <==> |Components(ranges)| <= limit)
    ensures limit < 0 ==>
              ((forall t :: Kept(Merged(ranges, limit), t) <==> Kept(ranges, t)) <==> Components(ranges) == [])
  {
    hide Components, Usable, Merged, Kept;
    var all, cut := Components(ranges), Slice(Components(ranges), limit);
    ComponentsMeaning(ranges);
    SliceMeaning(all, limit);
    KeptMerged(ranges, limit, 0);
    forall t
      ensures Kept(Merged(ranges, limit), t) <==> !CoveredBy(cut, t)
      ensures Kept(ranges, t) <==> !CoveredBy(all, t)
    {
      KeptMerged(ranges, limit, t);
      KeptUsable(ranges, t);
    }
    if cut != all {
      var k := |cut|;
      var t := all[k].start;
      assert Covers(all[k], t);
      if CoveredBy(cut, t) {
        var i :| 0 <= i < |cut| && Covers(cut[i], t);
        SeparatedFar(all, i, k);
      }
      assert Kept(Merged(ranges, limit), t) && !Kept(ranges, t);
    }
  }
}
