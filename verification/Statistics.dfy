/**
 * Baseline statistics over exact reals: the least-squares trend, interpolated
 * percentiles and the summary of a sample set.
 */
module Statistics {
  import opened Basics
  import opened Sorting

  // ----- Sums -----

  function Sum(s: seq<real>): real {
    if s == [] then 0.0 else Sum(s[..|s| - 1]) + s[|s| - 1]
  }

  /** Multiplication as a function, so that proofs can treat products as atoms. */
  function Mul(a: real, b: real): real {
    a * b
  }

  function Abs(a: real): real {
    if a < 0.0 then -a else a
  }

  function Dot(a: seq<real>, b: seq<real>): real
    requires |a| == |b|
  {
    if a == [] then 0.0 else Dot(a[..|a| - 1], b[..|b| - 1]) + Mul(a[|a| - 1], b[|b| - 1])
  }

  function Shifted(s: seq<real>, by_: real): (r: seq<real>)
    ensures |r| == |s| && forall i :: 0 <= i < |s| ==> r[i] == s[i] - by_
  {
    seq(|s|, i requires 0 <= i < |s| => s[i] - by_)
  }

  function Mean(s: seq<real>): real
    requires s != []
  {
    Sum(s) / |s| as real
  }

  lemma ShiftedInit(s: seq<real>, m: real)
    requires s != []
    ensures Shifted(s, m)[..|s| - 1] == Shifted(s[..|s| - 1], m)
  {
  }

  lemma DotSnoc(a: seq<real>, b: seq<real>, i: nat)
    requires |a| == |b| && i < |a|
    ensures Dot(a[..i + 1], b[..i + 1]) == Dot(a[..i], b[..i]) + Mul(a[i], b[i])
  {
    assert a[..i + 1][..i] == a[..i] && b[..i + 1][..i] == b[..i];
  }

  lemma {:induction false} SumShifted(s: seq<real>, m: real)
    ensures Sum(Shifted(s, m)) == Sum(s) - |s| as real * m
  {
    if s != [] {
      SumShifted(s[..|s| - 1], m);
      ShiftedInit(s, m);
    }
  }

  lemma DeviationsCancel(s: seq<real>)
    requires s != []
    ensures Sum(Shifted(s, Mean(s))) == 0.0
  {
    SumShifted(s, Mean(s));
  }

  lemma PositiveProduct(x: real, y: real)
    requires x > 0.0 && y > 0.0
    ensures Mul(x, y) > 0.0
  {
  }

  lemma MulNegated(x: real)
    ensures Mul(-x, -x) == Mul(x, x)
  {
  }

  lemma SquareSign(x: real)
    ensures Mul(x, x) >= 0.0 && (Mul(x, x) == 0.0 <==> x == 0.0)
  {
    if x == 0.0 {
      assert Mul(0.0, 0.0) == 0.0;
    } else {
      hide Mul;
      MulNegated(x);
      PositiveProduct(Abs(x), Abs(x));
    }
  }

  lemma {:induction false} SquaresNonNegative(s: seq<real>)
    ensures Dot(s, s) >= 0.0
    ensures Dot(s, s) == 0.0 <==> forall i :: 0 <= i < |s| ==> s[i] == 0.0
  {
    if s != [] {
      var init, last := s[..|s| - 1], s[|s| - 1];
      SquaresNonNegative(init);
      SquareSign(last);
      assert forall i :: 0 <= i < |init| ==> s[i] == init[i];
      if Dot(s, s) == 0.0 {
        assert Dot(init, init) == 0.0 && last == 0.0;
      }
    }
  }

  // ----- The trend line -----

  datatype Reading = Reading(timestamp: Number, value: Number)
  datatype Sample = Sample(time: real, value: real)

  datatype Trend = Trend(
    slopePerMs: real, rSquared: real, first: real, last: real, changePercent: Option<real>,
    durationMs: real, sampleCount: nat, monotonicFraction: real)

  function FiniteSamples(readings: seq<Reading>): seq<Sample> {
    if readings == [] then []
    else if readings[0].timestamp.Finite? && readings[0].value.Finite? then
      [Sample(readings[0].timestamp.value, readings[0].value.value)] + FiniteSamples(readings[1..])
    else FiniteSamples(readings[1..])
  }

  predicate Earlier(a: Sample, b: Sample) {
    a.time <= b.time
  }

  function ByTime(readings: seq<Reading>): seq<Sample> {
    SortBy(Earlier, FiniteSamples(readings))
  }

  /** Times as offsets from the first sample. */
  function Times(ordered: seq<Sample>): (r: seq<real>)
    requires ordered != []
    ensures |r| == |ordered| && forall i :: 0 <= i < |r| ==> r[i] == ordered[i].time - ordered[0].time
  {
    seq(|ordered|, i requires 0 <= i < |ordered| => ordered[i].time - ordered[0].time)
  }

  function Values(ordered: seq<Sample>): (r: seq<real>)
    ensures |r| == |ordered| && forall i :: 0 <= i < |r| ==> r[i] == ordered[i].value
  {
    seq(|ordered|, i requires 0 <= i < |ordered| => ordered[i].value)
  }

  function NonDecreasingSteps(values: seq<real>): (n: nat)
    ensures n <= if |values| == 0 then 0 else |values| - 1
  {
    if |values| <= 1 then 0
    else NonDecreasingSteps(values[..|values| - 1])
         + (if values[|values| - 1] >= values[|values| - 2] then 1 else 0)
  }

  function Min(a: real, b: real): real {
    if a < b then a else b
  }

  function RSquared(covariance: real, timeVariance: real, valueVariance: real): real
    requires timeVariance > 0.0
  {
    if valueVariance <= 0.0 then 0.0
    else
      assert timeVariance * valueVariance > 0.0;
      Min(1.0, (covariance * covariance) / (timeVariance * valueVariance))
  }

  function ChangePercent(first: real, last: real): Option<real> {
    if first != 0.0 then Some((last - first) / Abs(first) * 100.0) else None
  }

  function MonotonicFraction(nonDecreasing: nat, n: nat): real
    requires n > 1
  {
    nonDecreasing as real / (n - 1) as real
  }

  function TrendOf(readings: seq<Reading>): Option<Trend> {
    var ordered := ByTime(readings);
    if |ordered| < 3 then None
    else
      var n := |ordered|;
      var first, last := ordered[0], ordered[n - 1];
      var durationMs := last.time - first.time;
      if durationMs <= 0.0 then None
      else
        var times, values := Times(ordered), Values(ordered);
        var dts, dvs := Shifted(times, Mean(times)), Shifted(values, Mean(values));
        var covariance, timeVariance, valueVariance := Dot(dts, dvs), Dot(dts, dts), Dot(dvs, dvs);
        if timeVariance <= 0.0 then None
        else Some(Trend(
          covariance / timeVariance, RSquared(covariance, timeVariance, valueVariance),
          first.value, last.value, ChangePercent(first.value, last.value),
          durationMs, n, MonotonicFraction(NonDecreasingSteps(values), n)))
  }

  lemma DotEmpty(a: seq<real>, b: seq<real>)
    ensures Dot(a[..0], b[..0]) == Dot(a[..0], a[..0]) == Dot(b[..0], b[..0]) == 0.0
  {
  }

  lemma StepsOfOne(values: seq<real>)
    requires values != []
    ensures NonDecreasingSteps(values[..1]) == 0
  {
  }

  lemma StepsSnoc(values: seq<real>, i: nat)
    requires 0 < i < |values|
    ensures NonDecreasingSteps(values[..i + 1])
         == NonDecreasingSteps(values[..i]) + (if values[i] >= values[i - 1] then 1 else 0)
  {
    assert values[..i + 1][..i] == values[..i];
  }

  method MeanLoop(s: seq<real>) returns (mean: real)
    requires s != []
    ensures mean == Mean(s)
  {
    var sum := 0.0;
    for i := 0 to |s|
      invariant sum == Sum(s[..i])
    {
      assert s[..i + 1][..i] == s[..i];
      sum := sum + s[i];
    }
    assert s[..|s|] == s;
    return sum / |s| as real;
  }

  method LinearTrend(readings: seq<Reading>) returns (trend: Option<Trend>)
    ensures trend == TrendOf(readings)
  {
    hide Mul, Dot, Mean, RSquared, ByTime, NonDecreasingSteps, ChangePercent, MonotonicFraction, Shifted, Times, Values;
    var ordered := ByTime(readings);
    if |ordered| < 3 {
      return None;
    }
    var first, last := ordered[0], ordered[|ordered| - 1];
    var durationMs := last.time - first.time;
    if durationMs <= 0.0 {
      return None;
    }
    var n := |ordered|;
    var times, values := Times(ordered), Values(ordered);
    var meanTime := MeanLoop(times);
    var meanValue := MeanLoop(values);
    ghost var dts, dvs := Shifted(times, meanTime), Shifted(values, meanValue);
    var covariance, timeVariance, valueVariance := 0.0, 0.0, 0.0;
    DotEmpty(dts, dvs);
    for index := 0 to n
      invariant covariance == Dot(dts[..index], dvs[..index])
      invariant timeVariance == Dot(dts[..index], dts[..index])
      invariant valueVariance == Dot(dvs[..index], dvs[..index])
    {
      var dt, dv := times[index] - meanTime, values[index] - meanValue;
      DotSnoc(dts, dvs, index);
      DotSnoc(dts, dts, index);
      DotSnoc(dvs, dvs, index);
      covariance := covariance + Mul(dt, dv);
      timeVariance := timeVariance + Mul(dt, dt);
      valueVariance := valueVariance + Mul(dv, dv);
    }
    assert dts[..n] == dts && dvs[..n] == dvs;
    if timeVariance <= 0.0 {
      return None;
    }
    var slopePerMs := covariance / timeVariance;
    var rSquared := RSquared(covariance, timeVariance, valueVariance);
    var nonDecreasing := 0;
    StepsOfOne(values);
    for index := 1 to n
      invariant nonDecreasing == NonDecreasingSteps(values[..index])
    {
      StepsSnoc(values, index);
      if values[index] >= values[index - 1] {
        nonDecreasing := nonDecreasing + 1;
      }
    }
    assert values[..n] == values;
    return Some(Trend(slopePerMs, rSquared, first.value, last.value, ChangePercent(first.value, last.value),
                      durationMs, n, MonotonicFraction(nonDecreasing, n)));
  }

  // ----- Least squares -----

  /** The sum of squared distances of the points from the line `slope * t + intercept`. */
  function SquaredError(times: seq<real>, values: seq<real>, slope: real, intercept: real): real
    requires |times| == |values|
  {
    if times == [] then 0.0
    else
      var n := |times| - 1;
      var e := values[n] - Mul(slope, times[n]) - intercept;
      SquaredError(times[..n], values[..n], slope, intercept) + Mul(e, e)
  }

  /** The error of a line written in sums of products of deviations. */
  function Expansion(vv: real, tv: real, tt: real, sv: real, st: real, n: real, a: real, c: real): real {
    vv - 2.0 * a * tv + a * a * tt + 2.0 * c * (sv - a * st) + n * (c * c)
  }

  lemma SquareExpanded(a: real, c: real, dt: real, dv: real)
    ensures Mul(dv - Mul(a, dt) + c, dv - Mul(a, dt) + c)
         == Expansion(Mul(dv, dv), Mul(dt, dv), Mul(dt, dt), dv, dt, 1.0, a, c)
  {
    var f := dv - a * dt;
    assert (f + c) * (f + c) == f * f + 2.0 * c * f + c * c;
    assert f * f == dv * dv - 2.0 * a * (dt * dv) + a * a * (dt * dt);
  }

  lemma ExpansionAdds(vv: real, tv: real, tt: real, sv: real, st: real, n: real,
                      vv': real, tv': real, tt': real, sv': real, st': real, n': real, a: real, c: real)
    ensures Expansion(vv, tv, tt, sv, st, n, a, c) + Expansion(vv', tv', tt', sv', st', n', a, c)
         == Expansion(vv + vv', tv + tv', tt + tt', sv + sv', st + st', n + n', a, c)
  {
    assert 2.0 * a * (tv + tv') == 2.0 * a * tv + 2.0 * a * tv';
    assert a * a * (tt + tt') == a * a * tt + a * a * tt';
    assert a * (st + st') == a * st + a * st';
    assert 2.0 * c * ((sv - a * st) + (sv' - a * st')) == 2.0 * c * (sv - a * st) + 2.0 * c * (sv' - a * st');
    assert (n + n') * (c * c) == n * (c * c) + n' * (c * c);
  }

  lemma Recentre(v: real, mv: real, a: real, t: real, mt: real, b: real)
    ensures v - Mul(a, t) - b == (v - mv) - Mul(a, t - mt) + (mv - Mul(a, mt) - b)
  {
  }

  /** The error of any line, in terms of the deviations from any two centres. */
  lemma {:induction false} ErrorExpansion(times: seq<real>, values: seq<real>, mt: real, mv: real, a: real, b: real)
    requires |times| == |values|
    ensures SquaredError(times, values, a, b)
         == Expansion(Dot(Shifted(values, mv), Shifted(values, mv)), Dot(Shifted(times, mt), Shifted(values, mv)),
                      Dot(Shifted(times, mt), Shifted(times, mt)), Sum(Shifted(values, mv)), Sum(Shifted(times, mt)),
                      |times| as real, a, mv - Mul(a, mt) - b)
  {
    if times == [] {
      assert Expansion(0.0, 0.0, 0.0, 0.0, 0.0, 0.0, a, mv - Mul(a, mt) - b) == 0.0;
    } else {
      hide Expansion, Mul;
      var n, c := |times| - 1, mv - Mul(a, mt) - b;
      var dts, dvs := Shifted(times, mt), Shifted(values, mv);
      var pts, pvs := Shifted(times[..n], mt), Shifted(values[..n], mv);
      ErrorExpansion(times[..n], values[..n], mt, mv, a, b);
      ShiftedInit(times, mt);
      ShiftedInit(values, mv);
      SquareExpanded(a, c, dts[n], dvs[n]);
      ExpansionAdds(Dot(pvs, pvs), Dot(pts, pvs), Dot(pts, pts), Sum(pvs), Sum(pts), n as real,
                    Mul(dvs[n], dvs[n]), Mul(dts[n], dvs[n]), Mul(dts[n], dts[n]), dvs[n], dts[n], 1.0, a, c);
      Recentre(values[n], mv, a, times[n], mt, b);
    }
  }

  /** Completing the square: every line errs by the residual plus two squares. */
  lemma CompletedSquare(vv: real, tv: real, tt: real, n: real, a: real, c: real)
    requires tt > 0.0
    ensures Expansion(vv, tv, tt, 0.0, 0.0, n, a, c)
         == (vv - Mul(tv / tt, tv)) + Mul(tt, Mul(a - tv / tt, a - tv / tt)) + Mul(n, Mul(c, c))
  {
    var s := tv / tt;
    assert s * tt == tv;
    assert (a - s) * (a - s) == a * a - 2.0 * a * s + s * s;
    assert tt * (a * a - 2.0 * a * s + s * s) == a * a * tt - 2.0 * a * (s * tt) + s * (s * tt);
  }

  /** The fitted line of an ordered sample set with some spread in time. */
  datatype Fit = Fit(times: seq<real>, values: seq<real>) {
    ghost predicate Valid() {
      times != [] && |times| == |values| && Tt() > 0.0
    }
    function Dts(): (r: seq<real>) requires times != [] ensures |r| == |times| { Shifted(times, Mean(times)) }
    function Dvs(): (r: seq<real>) requires values != [] ensures |r| == |values| { Shifted(values, Mean(values)) }
    function Tt(): real requires times != [] { Dot(Dts(), Dts()) }
    function Tv(): real requires times != [] && |times| == |values| { Dot(Dts(), Dvs()) }
    function Vv(): real requires values != [] { Dot(Dvs(), Dvs()) }
    function Slope(): real requires Valid() { Tv() / Tt() }
    function Intercept(): real requires Valid() { Mean(values) - Mul(Slope(), Mean(times)) }
    function Residual(): real requires Valid() { SquaredError(times, values, Slope(), Intercept()) }
  }

  /** The distance of a line from the centre of the points, in value. */
  function Offset(f: Fit, a: real, b: real): real
    requires f.Valid()
  {
    Mean(f.values) - Mul(a, Mean(f.times)) - b
  }

  lemma ErrorOfLine(f: Fit, a: real, b: real)
    requires f.Valid()
    ensures SquaredError(f.times, f.values, a, b)
         == (f.Vv() - Mul(f.Slope(), f.Tv())) + Mul(f.Tt(), Mul(a - f.Slope(), a - f.Slope()))
            + Mul(|f.times| as real, Mul(Offset(f, a, b), Offset(f, a, b)))
  {
    hide Dot, Sum, Mean, SquaredError, Expansion, Mul, Shifted;
    ErrorExpansion(f.times, f.values, Mean(f.times), Mean(f.values), a, b);
    DeviationsCancel(f.times);
    DeviationsCancel(f.values);
    CompletedSquare(f.Vv(), f.Tv(), f.Tt(), |f.times| as real, a, Offset(f, a, b));
  }

  lemma ScaledSquare(k: real, x: real)
    requires k > 0.0
    ensures Mul(k, Mul(x, x)) >= 0.0 && (Mul(k, Mul(x, x)) == 0.0 <==> x == 0.0)
  {
    SquareSign(x);
    if x != 0.0 {
      PositiveProduct(k, Mul(x, x));
    } else {
      assert Mul(x, x) == 0.0;
    }
  }

  lemma ResidualIs(f: Fit)
    requires f.Valid()
    ensures f.Residual() == f.Vv() - Mul(f.Slope(), f.Tv())
  {
    hide Dot, Sum, Mean, SquaredError, Mul, Shifted;
    ErrorOfLine(f, f.Slope(), f.Intercept());
    ScaledSquare(f.Tt(), f.Slope() - f.Slope());
    ScaledSquare(|f.times| as real, Offset(f, f.Slope(), f.Intercept()));
  }

  /** No line fits better than the fitted one, and no other line fits as well. */
  lemma LeastSquares(f: Fit, a: real, b: real)
    requires f.Valid()
    ensures SquaredError(f.times, f.values, a, b) >= f.Residual()
    ensures SquaredError(f.times, f.values, a, b) == f.Residual() <==> a == f.Slope() && b == f.Intercept()
  {
    hide Dot, Sum, Mean, SquaredError, Mul, Shifted;
    ErrorOfLine(f, a, b);
    ResidualIs(f);
    ScaledSquare(f.Tt(), a - f.Slope());
    ScaledSquare(|f.times| as real, Offset(f, a, b));
  }

  predicate OnLine(times: seq<real>, values: seq<real>, a: real, b: real)
    requires |times| == |values|
  {
    forall i :: 0 <= i < |times| ==> values[i] == Mul(a, times[i]) + b
  }

  lemma {:induction false} ErrorSign(times: seq<real>, values: seq<real>, a: real, b: real)
    requires |times| == |values|
    ensures SquaredError(times, values, a, b) >= 0.0
    ensures SquaredError(times, values, a, b) == 0.0 <==> OnLine(times, values, a, b)
  {
    if times != [] {
      hide Mul;
      var n := |times| - 1;
      var t, v := times[..n], values[..n];
      ErrorSign(t, v, a, b);
      SquareSign(values[n] - Mul(a, times[n]) - b);
      assert forall i :: 0 <= i < n ==> t[i] == times[i] && v[i] == values[i];
      if SquaredError(times, values, a, b) == 0.0 {
        assert OnLine(t, v, a, b);
      }
    }
  }

  lemma CauchySchwarzArithmetic(tv: real, tt: real, vv: real)
    requires tt > 0.0 && vv - Mul(tv / tt, tv) >= 0.0
    ensures tv * tv <= tt * vv
  {
    var s := tv / tt;
    assert s * tt == tv;
    assert tt * (vv - s * tv) >= 0.0;
    assert tt * (vv - s * tv) == tt * vv - (s * tt) * tv;
  }

  /** Covariance squared never exceeds the product of the variances. */
  lemma CauchySchwarz(f: Fit)
    requires f.Valid()
    ensures f.Tv() * f.Tv() <= f.Tt() * f.Vv()
  {
    hide Dot, Mean, SquaredError, Mul, Shifted;
    ResidualIs(f);
    ErrorSign(f.times, f.values, f.Slope(), f.Intercept());
    CauchySchwarzArithmetic(f.Tv(), f.Tt(), f.Vv());
  }

  lemma QuotientUnique(x: real, d: real, q: real)
    requires d > 0.0 && x == q * d
    ensures x / d == q
  {
  }

  lemma QuotientBounds(x: real, d: real)
    requires d > 0.0 && 0.0 <= x <= d
    ensures 0.0 <= x / d <= 1.0
    ensures x / d == 1.0 <==> x == d
  {
    var q := x / d;
    assert x == q * d;
  }

  lemma CancelFactor(x: real, t: real, v: real)
    requires t > 0.0 && v > 0.0 && t * v > 0.0
    ensures (x * t) / (t * v) == x / v
  {
    var q := x / v;
    assert x == q * v;
    assert x * t == q * (t * v);
    QuotientUnique(x * t, t * v, q);
  }

  lemma RSquaredArithmetic(tv: real, tt: real, vv: real)
    requires tt > 0.0 && vv > 0.0 && tv * tv <= tt * vv
    ensures tt * vv > 0.0
    ensures 0.0 <= (tv * tv) / (tt * vv) <= 1.0
    ensures RSquared(tv, tt, vv) == (tv * tv) / (tt * vv) == 1.0 - (vv - Mul(tv / tt, tv)) / vv
  {
    PositiveProduct(tt, vv);
    SquareSign(tv);
    QuotientBounds(tv * tv, tt * vv);
    var m := Mul(tv / tt, tv);
    assert m * tt == tv * tv by {
      var s := tv / tt;
      assert s * tt == tv;
      assert (s * tv) * tt == (s * tt) * tv;
    }
    CancelFactor(m, tt, vv);
    QuotientUnique(vv - m, vv, 1.0 - m / vv);
  }

  /**
   * R squared lies in [0, 1] and the clamp to 1 never acts. When the values vary, it is
   * the explained part of the variance, and 1 exactly when every point is on a line.
   */
  lemma RSquaredMeaning(f: Fit)
    requires f.Valid()
    ensures var r := RSquared(f.Tv(), f.Tt(), f.Vv());
            && 0.0 <= r <= 1.0
            && (f.Vv() == 0.0 ==> r == 0.0)
            && (f.Vv() > 0.0 ==> && f.Tt() * f.Vv() > 0.0
                                 && r == (f.Tv() * f.Tv()) / (f.Tt() * f.Vv())
                                 && r == 1.0 - f.Residual() / f.Vv())
            && (r == 1.0 <==> f.Vv() > 0.0 && OnLine(f.times, f.values, f.Slope(), f.Intercept()))
  {
    hide Dot, Mean, SquaredError, Mul, Shifted, OnLine;
    CauchySchwarz(f);
    ResidualIs(f);
    ErrorSign(f.times, f.values, f.Slope(), f.Intercept());
    if f.Vv() > 0.0 {
      RSquaredArithmetic(f.Tv(), f.Tt(), f.Vv());
    }
  }

  // ----- The trend the source reports -----

  function FitOf(readings: seq<Reading>): Fit
    requires ByTime(readings) != []
  {
    Fit(Times(ByTime(readings)), Values(ByTime(readings)))
  }

  /** The guard on the time variance cannot fire once the samples span some time. */
  lemma SpanGivesSpread(times: seq<real>)
    requires times != [] && times[0] != times[|times| - 1]
    ensures Dot(Shifted(times, Mean(times)), Shifted(times, Mean(times))) > 0.0
  {
    hide Dot, Mean;
    var dts := Shifted(times, Mean(times));
    SquaresNonNegative(dts);
    assert dts[0] != dts[|dts| - 1];
  }

  lemma EarlierIsTotal()
    ensures TotalPreorder(Earlier)
  {
  }

  /**
   * A trend is reported exactly for three or more finite samples that span some time,
   * and then it is the least-squares line with the statistics its fields promise.
   */
  lemma TrendMeaning(readings: seq<Reading>)
    ensures var ordered := ByTime(readings);
            && Ordered(Earlier, ordered)
            && multiset(ordered) == multiset(FiniteSamples(readings))
            && (TrendOf(readings).Some? <==> |ordered| >= 3 && ordered[0].time < ordered[|ordered| - 1].time)
    ensures TrendOf(readings).Some? ==>
              var f, trend := FitOf(readings), TrendOf(readings).value;
              && f.Valid()
              && trend.slopePerMs == f.Slope()
              && trend.rSquared == RSquared(f.Tv(), f.Tt(), f.Vv())
  {
    hide Dot, Mean, Mul, Shifted, RSquared, MonotonicFraction, ChangePercent, NonDecreasingSteps, SortBy;
    EarlierIsTotal();
    SortOrdered(Earlier, FiniteSamples(readings));
    SortPermutes(Earlier, FiniteSamples(readings));
    var ordered := ByTime(readings);
    if |ordered| >= 3 && ordered[0].time < ordered[|ordered| - 1].time {
      SpanGivesSpread(Times(ordered));
    }
  }

  predicate NonDecreasing(values: seq<real>) {
    forall i :: 0 < i < |values| ==> values[i - 1] <= values[i]
  }

  lemma {:induction false} StepsCountAll(values: seq<real>)
    requires values != []
    ensures NonDecreasingSteps(values) == |values| - 1 <==> NonDecreasing(values)
  {
    if |values| > 1 {
      var init := values[..|values| - 1];
      StepsCountAll(init);
      assert forall i :: 0 <= i < |init| ==> values[i] == init[i];
      assert NonDecreasing(values) ==> NonDecreasing(init);
    }
  }

  lemma FractionBounds(k: nat, n: nat)
    requires n > 1 && k <= n - 1
    ensures 0.0 <= MonotonicFraction(k, n) <= 1.0
    ensures MonotonicFraction(k, n) == 1.0 <==> k == n - 1
  {
    QuotientBounds(k as real, (n - 1) as real);
  }

  /** The monotonic fraction is 1 exactly when no step decreases; level steps count. */
  lemma MonotonicFractionMeaning(readings: seq<Reading>)
    requires TrendOf(readings).Some?
    ensures var fraction := TrendOf(readings).value.monotonicFraction;
            && 0.0 <= fraction <= 1.0
            && (fraction == 1.0 <==> NonDecreasing(Values(ByTime(readings))))
  {
    hide Dot, Mean, Mul, Shifted, RSquared, MonotonicFraction, ChangePercent, SortBy;
    var values := Values(ByTime(readings));
    StepsCountAll(values);
    FractionBounds(NonDecreasingSteps(values), |values|);
  }

  // ----- The other fields of a trend -----

  /** The readings whose time and value are finite, each as often as it was given. */
  lemma {:induction false} SamplesMeaning(readings: seq<Reading>, x: Sample)
    ensures multiset(FiniteSamples(readings))[x] == multiset(readings)[Reading(Finite(x.time), Finite(x.value))]
  {
    if readings != [] {
      SamplesMeaning(readings[1..], x);
      assert readings == [readings[0]] + readings[1..];
    }
  }

  predicate Rises(values: seq<real>, i: nat) {
    0 < i < |values| && values[i - 1] <= values[i]
  }

  function RisesUpTo(values: seq<real>, n: nat): set<nat> {
    set i: nat | i < n && Rises(values, i)
  }

  /** The counter of the loop counts the steps that do not decrease. */
  lemma {:induction false} StepsAreCounted(values: seq<real>, n: nat)
    requires n <= |values|
    ensures NonDecreasingSteps(values[..n]) == |RisesUpTo(values, n)|
  {
    if n <= 1 {
      assert RisesUpTo(values, n) == {};
    } else {
      StepsAreCounted(values, n - 1);
      assert values[..n][..n - 1] == values[..n - 1];
      var last: set<nat> := if values[n - 2] <= values[n - 1] then {n - 1} else {};
      assert RisesUpTo(values, n) == RisesUpTo(values, n - 1) + last;
    }
  }

  /** The change from first to last in hundredths of the first's size; none from zero. */
  lemma ChangeMeaning(first: real, last: real)
    ensures ChangePercent(first, last).None? <==> first == 0.0
    ensures first > 0.0 ==> last - first == ChangePercent(first, last).value * first / 100.0
    ensures first < 0.0 ==> last - first == ChangePercent(first, last).value * (-first) / 100.0
  {
    if first != 0.0 {
      var size, change := Abs(first), last - first;
      var share := change / size;
      assert share * size == change;
      assert share * 100.0 * size / 100.0 == share * size;
    }
  }

  /** A trend reports the ends of the samples in time order, their number, and the share of rises. */
  lemma TrendReports(readings: seq<Reading>)
    requires TrendOf(readings).Some?
    ensures var ordered, trend := ByTime(readings), TrendOf(readings).value;
            var n := |ordered|;
            && n == |FiniteSamples(readings)| == trend.sampleCount && n >= 3
            && trend.first == ordered[0].value && trend.last == ordered[n - 1].value
            && trend.durationMs == ordered[n - 1].time - ordered[0].time
            && trend.changePercent == ChangePercent(ordered[0].value, ordered[n - 1].value)
            && trend.monotonicFraction * (n - 1) as real == |RisesUpTo(Values(ordered), n)| as real
  {
    hide Dot, Mean, Mul, Shifted, RSquared, ChangePercent, SortBy, NonDecreasingSteps, MonotonicFraction, RisesUpTo;
    var values := Values(ByTime(readings));
    AllStepsAreCounted(values);
    FractionScales(NonDecreasingSteps(values), |values|);
  }

  lemma AllStepsAreCounted(values: seq<real>)
    ensures NonDecreasingSteps(values) == |RisesUpTo(values, |values|)|
  {
    StepsAreCounted(values, |values|);
    assert values[..|values|] == values;
  }

  lemma FractionScales(k: nat, n: nat)
    requires n > 1
    ensures MonotonicFraction(k, n) * (n - 1) as real == k as real
  {
  }
}
