// Mean, spread and percentiles of measured times. Standard deviations are modelled by their squares.
module TwoPassStatistics {
  import opened Folding
  import opened Moments
  import opened Quantiles

  predicate IsMin(xs: seq<real>, x: real) {
    x in xs && forall i :: 0 <= i < |xs| ==> x <= xs[i]
  }

  predicate IsMax(xs: seq<real>, x: real) {
    x in xs && forall i :: 0 <= i < |xs| ==> xs[i] <= x
  }

  // The mean and the variance of the numbers xs.
  predicate IsVariance(xs: seq<real>, mean: real, v: real) {
    IsMean(xs, mean) && Shares(|xs| as real, Deviation(xs, mean), v)
  }

  // v is total / n, said without the division.
  predicate Shares(n: real, total: real, v: real) {
    n * v == total
  }

  method FirstPass(values: seq<real>) returns (sum: real, min: real, max: real)
    requires |values| > 0
    ensures IsMin(values, min) && IsMax(values, max) && sum == Sum(values)
  {
    sum, min, max := 0.0, values[0], values[0];
    var i := 0;
    while i < |values|
      invariant 0 <= i <= |values|
      invariant sum == Sum(values[..i])
      invariant min in values && max in values
      invariant forall k :: 0 <= k < i ==> min <= values[k] <= max
    {
      Extend(values, i);
      sum := sum + values[i];
      if values[i] < min { min := values[i]; }
      if values[i] > max { max := values[i]; }
      i := i + 1;
    }
    assert values[..i] == values;
  }

  method SecondPass(values: seq<real>, mean: real) returns (total: real)
    ensures total == Deviation(values, mean)
  {
    total := 0.0;
    var i := 0;
    while i < |values|
      invariant 0 <= i <= |values|
      invariant total == Deviation(values[..i], mean)
    {
      var diff := values[i] - mean;
      DeviationStep(values, i, mean);
      total := total + diff * diff;
      i := i + 1;
    }
    assert values[..i] == values;
  }

  method Average(values: seq<real>) returns (mean: real, variance: real)
    requires |values| > 0
    ensures IsVariance(values, mean, variance)
  {
    mean := Divide(Sum(values), |values| as real);
    var total := SecondPass(values, mean);
    variance := Divide(total, |values| as real);
  }

  // calculate_stats of the C scheduler analyzer.
  method CalculateStats(values: seq<real>) returns (mean: real, variance: real, min: real, max: real)
    requires |values| > 0
    ensures IsMin(values, min) && IsMax(values, max)
    ensures IsVariance(values, mean, variance)
  {
    var sum, total;
    sum, min, max := FirstPass(values);
    mean := Divide(sum, |values| as real);
    total := SecondPass(values, mean);
    variance := Divide(total, |values| as real);
  }

  /* ----- inequalities every input satisfies ----- */

  predicate AtExtremes(xs: seq<real>, lo: real, hi: real) {
    forall i :: 0 <= i < |xs| ==> xs[i] == lo || xs[i] == hi
  }

  // v <= (hi - m) * (m - lo), with equality in the extreme case only.
  predicate VarianceBound(v: real, m: real, lo: real, hi: real, extreme: bool) {
    v <= (hi - m) * (m - lo) && (v == (hi - m) * (m - lo) <==> extreme)
  }

  lemma BoundFrom(n: real, s: real, q: real, m: real, d: real, v: real, lo: real, hi: real, slack: real)
    requires n > 0.0 && Around(n, s, q, m, d) && Shares(n, d, v) && slack >= 0.0
    requires slack == ExpandedSlack(q, s, n, lo, hi)
    ensures VarianceBound(v, m, lo, hi, slack == 0.0)
  {
    var gap := (hi - m) * (m - lo) - v;
    calc {
      n * n * gap;
      n * ((n * (hi - m)) * (m - lo)) - n * (n * v);
      (n * hi - n * m) * (n * m - n * lo) - n * d;
      (n * hi - s) * (s - n * lo) - (n * q - s * s);
      { assert (n * hi - s) * (s - n * lo) == n * (hi * s) - n * hi * (n * lo) - s * s + s * (n * lo); }
      n * (hi * s) - n * hi * (n * lo) + s * (n * lo) - n * q;
      n * ((lo + hi) * s - q - n * (lo * hi));
      n * slack;
    }
    assert n * (n * gap - slack) == 0.0;
    assert n * gap == slack;
    Signs(n, gap, slack);
  }

  lemma Signs(n: real, gap: real, slack: real)
    requires n > 0.0 && n * gap == slack && slack >= 0.0
    ensures gap >= 0.0 && (gap == 0.0 <==> slack == 0.0)
  {
    assert gap < 0.0 ==> n * (-gap) > 0.0;
  }

  predicate Between(lo: real, m: real, hi: real) {
    lo <= m <= hi
  }

  predicate SumWithin(n: real, s: real, lo: real, hi: real) {
    n * lo <= s <= n * hi
  }

  lemma {:induction false} SumBetween(xs: seq<real>, lo: real, hi: real)
    requires forall i :: 0 <= i < |xs| ==> lo <= xs[i] <= hi
    ensures SumWithin(|xs| as real, Sum(xs), lo, hi)
  {
    if |xs| > 0 {
      SumBetween(xs[..|xs| - 1], lo, hi);
      Distribute(|xs|, lo);
      Distribute(|xs|, hi);
    }
  }

  lemma Distribute(n: nat, x: real)
    requires n > 0
    ensures n as real * x == (n - 1) as real * x + x
  {
  }

  lemma MeanBetween(n: real, s: real, m: real, lo: real, hi: real)
    requires n > 0.0 && n * m == s && SumWithin(n, s, lo, hi)
    ensures Between(lo, m, hi)
  {
    assert n * (m - lo) >= 0.0 && n * (hi - m) >= 0.0;
    assert m < lo ==> n * (lo - m) > 0.0;
    assert hi < m ==> n * (m - hi) > 0.0;
  }

  // The mean lies between minimum and maximum.
  lemma MeanInRange(xs: seq<real>, mean: real, lo: real, hi: real)
    requires IsMean(xs, mean) && IsMin(xs, lo) && IsMax(xs, hi)
    ensures Between(lo, mean, hi)
  {
    SumBetween(xs, lo, hi);
    MeanBetween(|xs| as real, Sum(xs), mean, lo, hi);
  }

  // The variance is at most (max - mean) * (mean - min), exactly that when every value is one of the two.
  lemma VarianceInRange(xs: seq<real>, mean: real, v: real, lo: real, hi: real)
    requires IsVariance(xs, mean, v) && IsMin(xs, lo) && IsMax(xs, hi)
    ensures VarianceBound(v, mean, lo, hi, AtExtremes(xs, lo, hi))
  {
    MeanDeviation(xs, mean);
    SlackExpands(xs, lo, hi);
    SlackZero(xs, lo, hi);
    BoundFrom(|xs| as real, Sum(xs), SumOfSquares(xs), mean, Deviation(xs, mean), v, lo, hi, Slack(xs, lo, hi));
  }

  // So the standard deviation is at most half the range.
  lemma SpreadBelowHalfRange(xs: seq<real>, mean: real, v: real, lo: real, hi: real)
    requires IsVariance(xs, mean, v) && IsMin(xs, lo) && IsMax(xs, hi)
    ensures 0.0 <= v && 4.0 * v <= (hi - lo) * (hi - lo)
  {
    VarianceInRange(xs, mean, v, lo, hi);
    DeviationZero(xs, mean);
    HalfRange(|xs| as real, mean, v, lo, hi, AtExtremes(xs, lo, hi), Deviation(xs, mean));
  }

  lemma HalfRange(n: real, m: real, v: real, lo: real, hi: real, extreme: bool, d: real)
    requires VarianceBound(v, m, lo, hi, extreme) && n > 0.0 && Shares(n, d, v) && d >= 0.0
    ensures 0.0 <= v && 4.0 * v <= (hi - lo) * (hi - lo)
  {
    Signs(n, v, d);
    var a, b := hi - m, m - lo;
    SquareSign(a - b);
    assert (a + b) * (a + b) == (a - b) * (a - b) + 4.0 * (a * b);
    assert a + b == hi - lo;
  }

  /* ----- percentiles of a sorted list ----- */

  predicate Sorted(xs: seq<real>) {
    forall i, j :: 0 <= i < j < |xs| ==> xs[i] <= xs[j]
  }

  // k is p * n rounded down.
  predicate IsFloor(k: nat, p: real, n: real) {
    k as real <= p * n < k as real + 1.0
  }

  // static_cast<size_t>(p * n), cut off at the last index.
  function PercentileIndex(n: nat, p: real): (k: nat)
    requires n > 0 && p >= 0.0
    ensures k < n
    ensures p < 1.0 ==> IsFloor(k, p, n as real)
  {
    ProductSign(p, n as real);
    var k := (p * n as real).Floor;
    if p < 1.0 then
      BelowWhole(p, n as real);
      assert k as real < n as real;
      k
    else if k >= n then n - 1 else k
  }

  lemma BelowWhole(p: real, n: real)
    requires 0.0 <= p < 1.0 && n > 0.0
    ensures p * n < n
  {
    assert (1.0 - p) * n > 0.0;
  }

  function Percentile(sorted: seq<real>, p: real): real
    requires |sorted| > 0 && p >= 0.0
  {
    sorted[PercentileIndex(|sorted|, p)]
  }

  // Larger percentages have larger percentiles.
  lemma PercentilesOrdered(sorted: seq<real>, p: real, p': real)
    requires Sorted(sorted) && |sorted| > 0 && 0.0 <= p <= p' < 1.0
    ensures sorted[0] <= Percentile(sorted, p) <= Percentile(sorted, p') <= sorted[|sorted| - 1]
  {
    var n := |sorted|;
    var k, k' := PercentileIndex(n, p), PercentileIndex(n, p');
    LargerFloor(k, p, k', p', n as real);
  }

  lemma LargerFloor(k: nat, p: real, k': nat, p': real, n: real)
    requires p <= p' && n >= 0.0 && IsFloor(k, p, n) && IsFloor(k', p', n)
    ensures k <= k'
  {
    ProductSign(p' - p, n);
    assert p' * n - p * n >= 0.0;
    assert k as real < k' as real + 1.0;
  }

  lemma {:induction false} CountSorted(sorted: seq<real>, k: nat)
    requires Sorted(sorted) && k < |sorted|
    ensures CountBelow(sorted, sorted[k]) <= k < CountNotAbove(sorted, sorted[k])
  {
    var rest := sorted[1..];
    if k == 0 {
      CountBounds(sorted, StrictlyBelow(sorted[0]));
      CountBounds(rest, NotAbove(sorted[0]));
    } else {
      CountSorted(rest, k - 1);
    }
  }

  predicate IsQuantile(below: int, p: real, n: real, notAbove: int) {
    below as real <= p * n < notAbove as real
  }

  lemma QuantileFrom(below: int, k: nat, notAbove: int, p: real, n: real)
    requires below <= k < notAbove && IsFloor(k, p, n)
    ensures IsQuantile(below, p, n, notAbove)
  {
    assert below as real <= k as real && k as real + 1.0 <= notAbove as real;
  }

  // It is a quantile: at most p * n samples lie strictly below it, more than p * n not above it.
  lemma PercentileIsQuantile(sorted: seq<real>, p: real)
    requires Sorted(sorted) && |sorted| > 0 && 0.0 <= p < 1.0
    ensures var x := Percentile(sorted, p);
            IsQuantile(CountBelow(sorted, x), p, |sorted| as real, CountNotAbove(sorted, x))
  {
    var k := PercentileIndex(|sorted|, p);
    CountSorted(sorted, k);
    QuantileFrom(CountBelow(sorted, sorted[k]), k, CountNotAbove(sorted, sorted[k]), p, |sorted| as real);
  }

  function PValues(): seq<real> {
    [0.5, 0.75, 0.9, 0.95, 0.99, 0.999]
  }

  ghost predicate QuantileAt(sorted: seq<real>, p: real, x: real) {
    x in sorted && IsQuantile(CountBelow(sorted, x), p, |sorted| as real, CountNotAbove(sorted, x))
  }

  // The first percentiles of the list, in order.
  ghost predicate PercentilesOf(sorted: seq<real>, percentiles: seq<real>) {
    && |sorted| > 0 && |percentiles| <= |PValues()| && Sorted(percentiles)
    && (forall k :: 0 <= k < |percentiles| ==> percentiles[k] == Percentile(sorted, PValues()[k]))
    && (forall k :: 0 <= k < |percentiles| ==> QuantileAt(sorted, PValues()[k], percentiles[k]))
  }

  lemma OneMorePercentile(sorted: seq<real>, percentiles: seq<real>)
    requires Sorted(sorted) && PercentilesOf(sorted, percentiles) && |percentiles| < |PValues()|
    ensures PercentilesOf(sorted, percentiles + [Percentile(sorted, PValues()[|percentiles|])])
  {
    var k := |percentiles|;
    PercentileIsQuantile(sorted, PValues()[k]);
    forall j | 0 <= j < k ensures percentiles[j] <= Percentile(sorted, PValues()[k]) {
      PercentilesOrdered(sorted, PValues()[j], PValues()[k]);
    }
  }

  lemma SixPercentiles(sorted: seq<real>, percentiles: seq<real>)
    requires PercentilesOf(sorted, percentiles) && |percentiles| == 6
    ensures QuantileAt(sorted, 0.5, percentiles[0]) && QuantileAt(sorted, 0.75, percentiles[1])
    ensures QuantileAt(sorted, 0.9, percentiles[2]) && QuantileAt(sorted, 0.95, percentiles[3])
    ensures QuantileAt(sorted, 0.99, percentiles[4]) && QuantileAt(sorted, 0.999, percentiles[5])
  {
    assert QuantileAt(sorted, PValues()[0], percentiles[0]) && QuantileAt(sorted, PValues()[1], percentiles[1]);
    assert QuantileAt(sorted, PValues()[2], percentiles[2]) && QuantileAt(sorted, PValues()[3], percentiles[3]);
    assert QuantileAt(sorted, PValues()[4], percentiles[4]) && QuantileAt(sorted, PValues()[5], percentiles[5]);
  }

  // get_percentiles of the network statistics; `sorted` is what std::sort makes of a copy of the samples.
  method GetPercentiles(samples: seq<real>, sorted: seq<real>) returns (percentiles: seq<real>)
    requires Sorted(sorted) && multiset(sorted) == multiset(samples)
    ensures samples == [] ==> percentiles == []
    ensures samples != [] ==>
              && |percentiles| == |PValues()| && Sorted(percentiles)
              && QuantileAt(sorted, 0.5, percentiles[0]) && QuantileAt(sorted, 0.75, percentiles[1])
              && QuantileAt(sorted, 0.9, percentiles[2]) && QuantileAt(sorted, 0.95, percentiles[3])
              && QuantileAt(sorted, 0.99, percentiles[4]) && QuantileAt(sorted, 0.999, percentiles[5])
  {
    percentiles := [];
    if samples == [] { return; }
    SameLength(sorted, samples);
    var k := 0;
    while k < |PValues()|
      invariant 0 <= k <= |PValues()| && |percentiles| == k && PercentilesOf(sorted, percentiles)
    {
      OneMorePercentile(sorted, percentiles);
      percentiles := percentiles + [Percentile(sorted, PValues()[k])];
      k := k + 1;
    }
    SixPercentiles(sorted, percentiles);
  }

  // ContextSwitchStats. The variance stands for the square of std_dev.
  class ContextSwitchStats {
    var times: seq<real>
    var mean: real
    var median: real
    var minTime: real
    var maxTime: real
    var variance: real
    var percentile95: real
    var percentile99: real

    constructor ()
      ensures times == [] && mean == median == minTime == maxTime == variance == percentile95 == percentile99 == 0.0
    {
      times, mean, median, minTime, maxTime := [], 0.0, 0.0, 0.0, 0.0;
      variance, percentile95, percentile99 := 0.0, 0.0, 0.0;
    }

    // `sorted` is what std::sort leaves in times.
    method Calculate(sorted: seq<real>)
      requires Sorted(sorted) && multiset(sorted) == multiset(times)
      modifies this
      ensures old(times) == [] ==> unchanged(this)
      ensures old(times) != [] ==>
                && times == sorted && |times| > 0
                && IsMin(times, minTime) && IsMax(times, maxTime) && IsVariance(times, mean, variance)
                && median == times[|times| / 2]
                && percentile95 == (if |times| >= 20 then Percentile(times, 0.95) else old(percentile95))
                && percentile99 == (if |times| >= 100 then Percentile(times, 0.99) else old(percentile99))
    {
      if times == [] { return; }
      SameLength(sorted, times);
      times := sorted;
      minTime, maxTime := sorted[0], sorted[|sorted| - 1];
      mean, variance := Average(sorted);
      median := sorted[|sorted| / 2];
      if |sorted| >= 20 {
        percentile95 := Percentile(sorted, 0.95);
      }
      if |sorted| >= 100 {
        percentile99 := Percentile(sorted, 0.99);
      }
    }
  }

  lemma SameLength(xs: seq<real>, ys: seq<real>)
    requires multiset(xs) == multiset(ys)
    ensures |xs| == |ys|
  {
    assert |xs| == |multiset(xs)|;
  }

  // min <= median <= p95 <= p99 <= max of one sorted list; the summary prints them in this order.
  lemma SummaryOrdered(times: seq<real>)
    requires Sorted(times) && |times| > 0
    ensures times[0] <= times[|times| / 2] <= Percentile(times, 0.95) <= Percentile(times, 0.99) <= times[|times| - 1]
  {
    var n := |times|;
    PercentilesOrdered(times, 0.95, 0.99);
    var k := PercentileIndex(n, 0.95);
    assert n / 2 <= k by {
      assert 0.95 * n as real < k as real + 1.0;
      if n == 1 {
        assert k == 0;
      }
    }
  }
}
