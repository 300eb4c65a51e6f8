/** Interpolated percentiles and summaries of sample sets, over exact reals. */
module Summaries {
  import opened Basics
  import opened Sorting
  import opened Statistics

  predicate AtMost(a: real, b: real) {
    a <= b
  }

  function Ceiling(p: real): int {
    if p == p.Floor as real then p.Floor else p.Floor + 1
  }

  function Position(level: real, n: nat): real {
    level * (n - 1) as real
  }

  /**
   * Linear interpolation between order statistics. Reading past either end of the list
   * gives `undefined` or NaN in the source, which is None here.
   */
  function Percentile(sorted: seq<real>, level: real): Option<real> {
    if sorted == [] then None
    else if |sorted| == 1 then Some(sorted[0])
    else
      var position := Position(level, |sorted|);
      var lower, upper := position.Floor, Ceiling(position);
      if lower < 0 || upper >= |sorted| then None
      else if lower == upper then Some(sorted[lower])
      else Some(sorted[lower] + Mul(sorted[upper] - sorted[lower], position - lower as real))
  }

  /** The interpolation as a function of the position in the list. */
  function At(sorted: seq<real>, p: real): real
    requires sorted != [] && 0.0 <= p <= (|sorted| - 1) as real
  {
    var lower, upper := p.Floor, Ceiling(p);
    if lower == upper then sorted[lower]
    else sorted[lower] + Mul(sorted[upper] - sorted[lower], p - lower as real)
  }

  lemma MulMonotone(d: real, x: real, y: real)
    requires d >= 0.0 && 0.0 <= x <= y <= 1.0
    ensures 0.0 <= Mul(d, x) <= Mul(d, y) <= d
  {
  }

  /** Each value lies between the two samples around its position. */
  lemma AtBetween(sorted: seq<real>, p: real)
    requires Ordered(AtMost, sorted) && sorted != [] && 0.0 <= p <= (|sorted| - 1) as real
    ensures sorted[p.Floor] <= At(sorted, p) <= sorted[Ceiling(p)]
  {
    hide Mul;
    var lower, upper := p.Floor, Ceiling(p);
    if lower != upper {
      assert AtMost(sorted[lower], sorted[upper]);
      MulMonotone(sorted[upper] - sorted[lower], p - lower as real, 1.0);
    }
  }

  /** Interpolation is monotone, also across the samples it interpolates between. */
  lemma AtMonotone(sorted: seq<real>, p: real, q: real)
    requires Ordered(AtMost, sorted) && sorted != [] && 0.0 <= p <= q <= (|sorted| - 1) as real
    ensures At(sorted, p) <= At(sorted, q)
  {
    hide Mul;
    AtBetween(sorted, p);
    AtBetween(sorted, q);
    if p.Floor == q.Floor && p != q && p != p.Floor as real {
      assert AtMost(sorted[p.Floor], sorted[Ceiling(p)]);
      MulMonotone(sorted[Ceiling(p)] - sorted[p.Floor], p - p.Floor as real, q - q.Floor as real);
    } else if p != q && p.Floor != q.Floor {
      assert Ceiling(p) <= q.Floor;
      if Ceiling(p) < q.Floor {
        assert AtMost(sorted[Ceiling(p)], sorted[q.Floor]);
      }
    }
  }

  lemma ProductSign(x: real, k: real)
    requires k > 0.0
    ensures x >= 0.0 ==> x * k >= 0.0
    ensures x > 0.0 ==> x * k > 0.0
    ensures x < 0.0 ==> x * k < 0.0
  {
  }

  lemma PositionDifference(low: real, high: real, n: nat)
    ensures Position(high, n) - Position(low, n) == (high - low) * (n - 1) as real
  {
  }

  lemma PositionRange(level: real, n: nat)
    requires n > 1
    ensures 0.0 <= level <= 1.0 ==> 0.0 <= Position(level, n) <= (n - 1) as real
    ensures level < 0.0 ==> Position(level, n) < 0.0
    ensures level > 1.0 ==> Position(level, n) > (n - 1) as real
  {
    var last := (n - 1) as real;
    ProductSign(level, last);
    ProductSign(1.0 - level, last);
    PositionComplement(level, n);
    hide Position;
    assert last > 0.0;
  }

  lemma PositionComplement(level: real, n: nat)
    ensures Position(level, n) == level * (n - 1) as real
    ensures (1.0 - level) * (n - 1) as real == (n - 1) as real - Position(level, n)
  {
  }

  lemma PositionMonotone(low: real, high: real, n: nat)
    requires low <= high && n > 1
    ensures Position(low, n) <= Position(high, n)
  {
    hide Position;
    PositionDifference(low, high, n);
    ProductSign(high - low, (n - 1) as real);
  }

  /** A percentile is defined on non-empty lists, for levels in [0, 1] or a single sample. */
  lemma PercentileDefined(sorted: seq<real>, level: real)
    ensures Percentile(sorted, level).Some? <==> sorted != [] && (|sorted| == 1 || 0.0 <= level <= 1.0)
  {
    hide Position, Mul;
    if |sorted| > 1 {
      PositionRange(level, |sorted|);
    }
  }

  lemma PercentileIsAt(sorted: seq<real>, level: real)
    requires |sorted| > 1 && 0.0 <= level <= 1.0
    ensures 0.0 <= Position(level, |sorted|) <= (|sorted| - 1) as real
    ensures Percentile(sorted, level) == Some(At(sorted, Position(level, |sorted|)))
  {
    hide Position, Mul;
    PositionRange(level, |sorted|);
  }

  /** Percentiles are monotone in the level and stay within the samples. */
  lemma PercentileMonotone(sorted: seq<real>, low: real, high: real)
    requires Ordered(AtMost, sorted) && sorted != [] && 0.0 <= low <= high <= 1.0
    ensures Percentile(sorted, low).Some? && Percentile(sorted, high).Some?
    ensures sorted[0] <= Percentile(sorted, low).value <= Percentile(sorted, high).value <= sorted[|sorted| - 1]
  {
    if |sorted| > 1 {
      hide Percentile, At, Position, Mul, Ordered;
      var n := |sorted|;
      PercentileIsAt(sorted, low);
      PercentileIsAt(sorted, high);
      PositionMonotone(low, high, n);
      AtMonotone(sorted, 0.0, Position(low, n));
      AtMonotone(sorted, Position(low, n), Position(high, n));
      AtMonotone(sorted, Position(high, n), (n - 1) as real);
      AtKnot(sorted, 0);
      AtKnot(sorted, n - 1);
    }
  }

  lemma AtKnot(sorted: seq<real>, i: nat)
    requires i < |sorted|
    ensures At(sorted, i as real) == sorted[i]
  {
  }

  // ----- Summaries -----

  datatype Summary = Summary(sampleCount: nat, mean: real, min: real, max: real, variance: real,
                             p50: Option<real>, p95: Option<real>, p99: Option<real>)

  function FiniteValues(values: seq<Number>): seq<real> {
    if values == [] then []
    else if values[0].Finite? then [values[0].value] + FiniteValues(values[1..])
    else FiniteValues(values[1..])
  }

  /** The standard deviation of the source is the square root of `variance`. */
  function Summarize(values: seq<Number>): Option<Summary> {
    var finite := FiniteValues(values);
    if finite == [] then None
    else
      var sorted, n := SortBy(AtMost, finite), |finite|;
      var deviations := Shifted(finite, Mean(finite));
      Some(Summary(n, Mean(finite), sorted[0], sorted[n - 1], Dot(deviations, deviations) / n as real,
                   Percentile(sorted, 0.5), Percentile(sorted, 0.95), Percentile(sorted, 0.99)))
  }

  lemma AtMostIsTotal()
    ensures TotalPreorder(AtMost)
  {
  }

  lemma {:induction false} SumBounds(s: seq<real>, low: real, high: real)
    requires forall i :: 0 <= i < |s| ==> low <= s[i] <= high
    ensures |s| as real * low <= Sum(s) <= |s| as real * high
  {
    if s != [] {
      SumBounds(s[..|s| - 1], low, high);
    }
  }

  lemma MeanBounds(sum: real, n: nat, low: real, high: real)
    requires n > 0 && n as real * low <= sum <= n as real * high
    ensures low <= sum / n as real <= high
  {
  }

  lemma NonNegativeQuotient(x: real, n: nat)
    requires n > 0 && x >= 0.0
    ensures x / n as real >= 0.0
  {
  }

  lemma SortedEnds(s: seq<real>, i: nat)
    requires i < |s|
    ensures SortBy(AtMost, s)[0] <= s[i] <= SortBy(AtMost, s)[|s| - 1]
  {
    var sorted := SortBy(AtMost, s);
    AtMostIsTotal();
    SortOrdered(AtMost, s);
    SortMember(AtMost, s, s[i]);
    var j :| 0 <= j < |sorted| && sorted[j] == s[i];
    assert j > 0 ==> AtMost(sorted[0], sorted[j]);
    assert j < |s| - 1 ==> AtMost(sorted[j], sorted[|s| - 1]);
  }

  /** min <= p50 <= p95 <= p99 <= max, min <= mean <= max, and the variance is not negative. */
  lemma SummaryIsOrdered(values: seq<Number>)
    ensures Summarize(values).Some? <==> FiniteValues(values) != []
    ensures Summarize(values).Some? ==>
              var r := Summarize(values).value;
              && r.p50.Some? && r.p95.Some? && r.p99.Some?
              && r.min <= r.p50.value <= r.p95.value <= r.p99.value <= r.max
              && r.min <= r.mean <= r.max
              && r.variance >= 0.0
  {
    hide Percentile, Dot, Sum, Shifted, SortBy, Mul;
    var finite := FiniteValues(values);
    if finite != [] {
      var sorted, n := SortBy(AtMost, finite), |finite|;
      AtMostIsTotal();
      SortOrdered(AtMost, finite);
      PercentileMonotone(sorted, 0.5, 0.95);
      PercentileMonotone(sorted, 0.95, 0.99);
      forall i | 0 <= i < n
        ensures sorted[0] <= finite[i] <= sorted[n - 1]
      {
        SortedEnds(finite, i);
      }
      SumBounds(finite, sorted[0], sorted[n - 1]);
      MeanBounds(Sum(finite), n, sorted[0], sorted[n - 1]);
      SquaresNonNegative(Shifted(finite, Mean(finite)));
      NonNegativeQuotient(Dot(Shifted(finite, Mean(finite)), Shifted(finite, Mean(finite))), n);
    }
  }

  // ----- What a summary says -----

  /** The finite samples, each as often as it was given. */
  lemma {:induction false} FiniteMeaning(values: seq<Number>, x: real)
    ensures multiset(FiniteValues(values))[x] == multiset(values)[Finite(x)]
  {
    if values != [] {
      FiniteMeaning(values[1..], x);
      assert values == [values[0]] + values[1..];
    }
  }

  function Square(x: real): real {
    x * x
  }

  /** The sum of the squared distances from a centre. */
  function Scatter(s: seq<real>, centre: real): real {
    if s == [] then 0.0 else Scatter(s[..|s| - 1], centre) + Square(s[|s| - 1] - centre)
  }

  lemma SquareMoved(x: real, m: real, c: real)
    ensures Square(x - c) == Mul(x - m, x - m) + 2.0 * (m - c) * (x - m) + Square(m - c)
  {
  }

  lemma ScatterStep(d: real, sum: real, x: real, n: nat, sq: real)
    ensures 2.0 * d * sum + n as real * sq + (2.0 * d * x + sq) == 2.0 * d * (sum + x) + (n + 1) as real * sq
  {
  }

  lemma {:induction false} ScatterMoved(s: seq<real>, m: real, c: real)
    ensures Scatter(s, c)
         == Dot(Shifted(s, m), Shifted(s, m)) + 2.0 * (m - c) * Sum(Shifted(s, m)) + |s| as real * Square(m - c)
  {
    hide Mul, Square;
    if s != [] {
      var n := |s| - 1;
      ScatterMoved(s[..n], m, c);
      ShiftedInit(s, m);
      SquareMoved(s[n], m, c);
      ScatterStep(m - c, Sum(Shifted(s[..n], m)), s[n] - m, n, Square(m - c));
    }
  }

  /** The scatter around any centre exceeds the least one by the centre's squared distance from the mean. */
  lemma ScatterAround(s: seq<real>, c: real)
    requires s != []
    ensures var m := Mean(s);
            Scatter(s, c) == Dot(Shifted(s, m), Shifted(s, m)) + |s| as real * Square(m - c)
  {
    hide Dot, Shifted, Sum, Scatter, Square;
    var m := Mean(s);
    ScatterMoved(s, m, c);
    DeviationsCancel(s);
    assert 2.0 * (m - c) * 0.0 == 0.0;
  }

  /** The value on the line between the two order statistics around `level * (n - 1)`. */
  predicate IsQuantile(sorted: seq<real>, level: real, v: real)
    requires sorted != []
  {
    var position := level * (|sorted| - 1) as real;
    && (|sorted| == 1 ==> v == sorted[0])
    && forall k :: 0 <= k < |sorted| - 1 && k as real <= position <= (k + 1) as real ==>
      v == sorted[k] + Mul(sorted[k + 1] - sorted[k], position - k as real)
  }

  lemma PercentileMeaning(sorted: seq<real>, level: real)
    requires sorted != [] && 0.0 <= level <= 1.0
    ensures Percentile(sorted, level).Some? && IsQuantile(sorted, level, Percentile(sorted, level).value)
  {
    if |sorted| > 1 {
      PercentileIsAt(sorted, level);
      var position := Position(level, |sorted|);
      hide Percentile, Position, Mul;
      forall k | 0 <= k < |sorted| - 1 && k as real <= position <= (k + 1) as real
        ensures At(sorted, position) == sorted[k] + Mul(sorted[k + 1] - sorted[k], position - k as real)
      {
        AtSegment(sorted, position, k);
      }
      assert position == level * (|sorted| - 1) as real by { PositionComplement(level, |sorted|); }
    }
  }

  lemma AtSegment(sorted: seq<real>, p: real, k: nat)
    requires k < |sorted| - 1 && k as real <= p <= (k + 1) as real
    ensures p <= (|sorted| - 1) as real
    ensures At(sorted, p) == sorted[k] + Mul(sorted[k + 1] - sorted[k], p - k as real)
  {
    if p == k as real || p == (k + 1) as real {
      assert p.Floor as real == p;
    } else {
      assert p.Floor == k;
    }
  }

  /**
   * A summary counts the samples; its mean and variance give the scatter around every
   * centre; its ends are the least and the greatest sample, and its percentiles the
   * quantiles at 0.5, 0.95 and 0.99.
   */
  lemma SummaryMeaning(values: seq<Number>, c: real)
    requires FiniteValues(values) != []
    ensures Summarize(values).Some?
    ensures var finite, r := FiniteValues(values), Summarize(values).value;
            && r.sampleCount == |finite|
            && Scatter(finite, c) == |finite| as real * (r.variance + Square(r.mean - c))
            && r.min in finite && r.max in finite && (forall x :: x in finite ==> r.min <= x <= r.max)
    ensures var sorted, r := SortBy(AtMost, FiniteValues(values)), Summarize(values).value;
            && r.p50.Some? && IsQuantile(sorted, 0.5, r.p50.value)
            && r.p95.Some? && IsQuantile(sorted, 0.95, r.p95.value)
            && r.p99.Some? && IsQuantile(sorted, 0.99, r.p99.value)
  {
    hide FiniteValues, Percentile, Dot, Shifted, Scatter, Square, IsQuantile, Mean, SortBy;
    var finite, r := FiniteValues(values), Summarize(values).value;
    var sorted := SortBy(AtMost, finite);
    PercentileMeaning(sorted, 0.5);
    PercentileMeaning(sorted, 0.95);
    PercentileMeaning(sorted, 0.99);
    ScatterAround(finite, c);
    MeanScales(Dot(Shifted(finite, Mean(finite)), Shifted(finite, Mean(finite))), Square(r.mean - c), |finite|);
    SortMember(AtMost, finite, sorted[0]);
    SortMember(AtMost, finite, sorted[|finite| - 1]);
    forall x | x in finite
      ensures r.min <= x <= r.max
    {
      var i :| 0 <= i < |finite| && finite[i] == x;
      SortedEnds(finite, i);
    }
  }

  lemma MeanScales(x: real, sq: real, n: nat)
    requires n > 0
    ensures n as real * (x / n as real + sq) == x + n as real * sq
  {
  }

  // ----- The order of the samples does not matter -----

  lemma FirstIsLeast(s: seq<real>, x: real)
    requires Ordered(AtMost, s) && x in multiset(s)
    ensures s != [] && s[0] <= x
  {
    var i :| 0 <= i < |s| && s[i] == x;
    assert i > 0 ==> AtMost(s[0], s[i]);
  }

  lemma TailMultiset(s: seq<real>)
    requires s != []
    ensures s[0] in multiset(s) && multiset(s[1..]) == multiset(s) - multiset{s[0]}
  {
    assert s == [s[0]] + s[1..];
  }

  lemma OrderedTail(s: seq<real>)
    requires Ordered(AtMost, s) && s != []
    ensures Ordered(AtMost, s[1..])
  {
    forall i, j | 0 <= i < j < |s[1..]|
      ensures AtMost(s[1..][i], s[1..][j])
    {
      assert AtMost(s[i + 1], s[j + 1]);
    }
  }

  lemma SameFirst(a: seq<real>, b: seq<real>)
    requires Ordered(AtMost, a) && Ordered(AtMost, b) && multiset(a) == multiset(b) && a != []
    ensures b != [] && a[0] == b[0]
  {
    hide Ordered;
    TailMultiset(a);
    FirstIsLeast(b, a[0]);
    TailMultiset(b);
    FirstIsLeast(a, b[0]);
  }

  lemma {:induction false} OrderedUnique(a: seq<real>, b: seq<real>)
    requires Ordered(AtMost, a) && Ordered(AtMost, b) && multiset(a) == multiset(b)
    ensures a == b
    decreases a
  {
    if a == [] {
      assert |multiset(b)| == 0;
    } else {
      SameFirst(a, b);
      TailMultiset(a);
      TailMultiset(b);
      OrderedTail(a);
      OrderedTail(b);
      OrderedUnique(a[1..], b[1..]);
      hide Ordered;
      assert a == [a[0]] + a[1..] && b == [b[0]] + b[1..];
    }
  }

  lemma {:induction false} SumConcat(a: seq<real>, b: seq<real>)
    ensures Sum(a + b) == Sum(a) + Sum(b)
  {
    if b == [] {
      assert a + b == a;
    } else {
      SumConcat(a, b[..|b| - 1]);
      assert (a + b)[..|a + b| - 1] == a + b[..|b| - 1];
    }
  }

  lemma SumOne(x: real)
    ensures Sum([x]) == x
  {
    assert [x][..0] == [];
  }

  lemma {:induction false} SumInsert(x: real, s: seq<real>)
    ensures Sum(Insert(AtMost, x, s)) == x + Sum(s)
  {
    if s == [] || AtMost(x, s[0]) {
      SumConcat([x], s);
      SumOne(x);
    } else {
      SumInsert(x, s[1..]);
      SumConcat([s[0]], Insert(AtMost, x, s[1..]));
      SumConcat([s[0]], s[1..]);
      SumOne(s[0]);
      assert s == [s[0]] + s[1..];
    }
  }

  lemma {:induction false} SumSorted(s: seq<real>)
    ensures Sum(SortBy(AtMost, s)) == Sum(s)
  {
    if s != [] {
      hide Insert, Sum;
      SumSorted(s[1..]);
      SumInsert(s[0], SortBy(AtMost, s[1..]));
      SumConcat([s[0]], s[1..]);
      SumOne(s[0]);
      assert s == [s[0]] + s[1..];
    }
  }

  lemma SamplesSortEqually(a: seq<real>, b: seq<real>)
    requires multiset(a) == multiset(b)
    ensures SortBy(AtMost, a) == SortBy(AtMost, b)
  {
    hide SortBy;
    AtMostIsTotal();
    SortOrdered(AtMost, a);
    SortOrdered(AtMost, b);
    SortPermutes(AtMost, a);
    SortPermutes(AtMost, b);
    OrderedUnique(SortBy(AtMost, a), SortBy(AtMost, b));
  }

  lemma SumsAgree(a: seq<real>, b: seq<real>)
    requires multiset(a) == multiset(b)
    ensures |a| == |b| && Sum(a) == Sum(b)
  {
    hide SortBy, Sum;
    assert |a| == |multiset(a)| == |multiset(b)| == |b|;
    SamplesSortEqually(a, b);
    SumSorted(a);
    SumSorted(b);
  }

  /** The squared deviations, one by one. */
  function Squares(s: seq<real>, m: real): (r: seq<real>)
    ensures |r| == |s| && forall i :: 0 <= i < |s| ==> r[i] == Mul(s[i] - m, s[i] - m)
  {
    seq(|s|, i requires 0 <= i < |s| => Mul(s[i] - m, s[i] - m))
  }

  lemma {:induction false} SumOfSquares(s: seq<real>, m: real)
    ensures Sum(Squares(s, m)) == Dot(Shifted(s, m), Shifted(s, m))
  {
    if s != [] {
      hide Mul;
      var init := s[..|s| - 1];
      SumOfSquares(init, m);
      ShiftedInit(s, m);
      assert Squares(s, m)[..|s| - 1] == Squares(init, m);
    }
  }

  lemma SquaresCons(x: real, s: seq<real>, m: real)
    ensures Sum(Squares([x] + s, m)) == Mul(x - m, x - m) + Sum(Squares(s, m))
  {
    hide Mul, Sum;
    var y := Mul(x - m, x - m);
    assert Squares([x] + s, m) == [y] + Squares(s, m);
    SumConcat([y], Squares(s, m));
    SumOne(y);
  }

  lemma {:induction false} SquaresInsert(x: real, s: seq<real>, m: real)
    ensures Sum(Squares(Insert(AtMost, x, s), m)) == Mul(x - m, x - m) + Sum(Squares(s, m))
  {
    hide Mul, Sum, Squares;
    if s == [] || AtMost(x, s[0]) {
      SquaresCons(x, s, m);
    } else {
      SquaresInsert(x, s[1..], m);
      SquaresCons(s[0], Insert(AtMost, x, s[1..]), m);
      SquaresCons(s[0], s[1..], m);
      assert s == [s[0]] + s[1..];
    }
  }

  lemma {:induction false} SquaresSorted(s: seq<real>, m: real)
    ensures Sum(Squares(SortBy(AtMost, s), m)) == Sum(Squares(s, m))
  {
    if s != [] {
      hide Mul, Sum, Squares, Insert;
      SquaresSorted(s[1..], m);
      SquaresInsert(s[0], SortBy(AtMost, s[1..]), m);
      SquaresCons(s[0], s[1..], m);
      assert s == [s[0]] + s[1..];
    }
  }

  /** A summary depends on the samples, not on the order they arrive in. */
  lemma SummaryIgnoresOrder(a: seq<Number>, b: seq<Number>)
    requires multiset(FiniteValues(a)) == multiset(FiniteValues(b))
    ensures Summarize(a) == Summarize(b)
  {
    hide Mul, Sum, Dot, Squares, Shifted, SortBy, Percentile;
    var x, y := FiniteValues(a), FiniteValues(b);
    SumsAgree(x, y);
    if x != [] {
      var m := Mean(x);
      SamplesSortEqually(x, y);
      SquaresSorted(x, m);
      SquaresSorted(y, m);
      SumOfSquares(x, m);
      SumOfSquares(y, m);
    }
  }
}
