// Jain's fairness index and the coefficient of variation of the scheduler analyzers, over the reals.
module Fairness {
  import opened Moments

  // A division 0 / 0 gives NaN.
  datatype Double = NaN | Number(value: real)

  function Ratio(a: real, b: real): Double
    requires b == 0.0 ==> a == 0.0
  {
    if b == 0.0 then NaN else Number(Divide(a, b))
  }

  lemma {:induction false} NoSquaresNoSum(xs: seq<real>)
    ensures SumOfSquares(xs) >= 0.0
    ensures SumOfSquares(xs) == 0.0 ==> Sum(xs) == 0.0
  {
    if |xs| > 0 {
      NoSquaresNoSum(xs[..|xs| - 1]);
      SquareSign(xs[|xs| - 1]);
    }
  }

  function Index(sum: real, squares: real, n: nat): Double
    requires n == 0 || squares == 0.0 ==> sum == 0.0
  {
    Zeros(sum, squares, n);
    Ratio(sum * sum, n as real * squares)
  }

  lemma Zeros(sum: real, squares: real, n: nat)
    requires n == 0 || squares == 0.0 ==> sum == 0.0
    ensures n as real * squares == 0.0 ==> sum * sum == 0.0
  {
    if n > 0 && squares != 0.0 {
      assert n as real * squares != 0.0;
    }
  }

  // FairnessAnalyzer::calculate_jains_index
  function JainsIndex(values: seq<real>): Double {
    if |values| == 0 then Number(0.0) else
    NoSquaresNoSum(values);
    Index(Sum(values), SumOfSquares(values), |values|)
  }

  function Square(x: real): (r: real)
    ensures r == 0.0 <==> x == 0.0
  {
    SquareSign(x);
    x * x
  }

  // The square of FairnessAnalyzer::calculate_coefficient_of_variation.
  function VariationSquared(values: seq<real>): real {
    if |values| < 2 then 0.0 else
    var mean := Divide(Sum(values), |values| as real);
    var variance := Divide(Deviation(values, mean), (|values| - 1) as real);
    if mean != 0.0 then Divide(variance, Square(mean)) else 0.0
  }

  function Positive(values: seq<real>): seq<real> {
    if |values| == 0 then []
    else
      var rest, x := Positive(values[..|values| - 1]), values[|values| - 1];
      if x > 0.0 then rest + [x] else rest
  }

  lemma PositiveStep(values: seq<real>, i: nat)
    requires i < |values|
    ensures var before, after, x := Positive(values[..i]), Positive(values[..i + 1]), values[i];
            if x > 0.0 then Sum(after) == Sum(before) + x && SumOfSquares(after) == SumOfSquares(before) + x * x
            else after == before
  {
    Extend(values, i);
    assert (Positive(values[..i]) + [values[i]])[..|Positive(values[..i])|] == Positive(values[..i]);
  }

  // The loop of print_results: threads without CPU time are skipped but still counted in the divisor.
  method PrintedIndex(cpuTimes: seq<real>) returns (fairness: Double)
    ensures SumOfSquares(Positive(cpuTimes)) == 0.0 ==> Sum(Positive(cpuTimes)) == 0.0
    ensures |cpuTimes| == 0 ==> Sum(Positive(cpuTimes)) == 0.0
    ensures fairness == Index(Sum(Positive(cpuTimes)), SumOfSquares(Positive(cpuTimes)), |cpuTimes|)
  {
    var squares, sum := 0.0, 0.0;
    var i := 0;
    while i < |cpuTimes|
      invariant 0 <= i <= |cpuTimes|
      invariant sum == Sum(Positive(cpuTimes[..i])) && squares == SumOfSquares(Positive(cpuTimes[..i]))
    {
      PositiveStep(cpuTimes, i);
      if cpuTimes[i] > 0.0 {
        sum := sum + cpuTimes[i];
        squares := squares + cpuTimes[i] * cpuTimes[i];
      }
      i := i + 1;
    }
    assert cpuTimes[..i] == cpuTimes;
    NoSquaresNoSum(Positive(cpuTimes));
    fairness := Index(sum, squares, |cpuTimes|);
  }

  /* ----- the index and the variation determine each other ----- */

  lemma IndexTimes(sum: real, squares: real, n: nat)
    requires n > 0 && squares > 0.0
    ensures Index(sum, squares, n).Number?
    ensures Index(sum, squares, n).value * (n as real * squares) == sum * sum && n as real * squares > 0.0
  {
    ProductSign(n as real, squares);
  }

  // j is s * s / (n * q), said without the division.
  predicate IsIndex(n: real, s: real, q: real, j: real) {
    n > 0.0 && q > 0.0 && j * (n * q) == s * s
  }

  lemma JainsIndexIs(values: seq<real>)
    requires |values| > 0 && SumOfSquares(values) > 0.0
    ensures JainsIndex(values).Number?
    ensures IsIndex(|values| as real, Sum(values), SumOfSquares(values), JainsIndex(values).value)
  {
    IndexTimes(Sum(values), SumOfSquares(values), |values|);
  }

  lemma NoIndex(values: seq<real>)
    requires |values| > 0 && SumOfSquares(values) == 0.0
    ensures JainsIndex(values) == NaN
  {
    assert |values| as real * SumOfSquares(values) == 0.0;
  }

  // m is the mean s / n, d the deviation around it, and v the sample variance divided by m squared.
  predicate IsVariation(n: real, s: real, q: real, m: real, d: real, v: real) {
    Around(n, s, q, m, d) && v * (m * m) * (n - 1.0) == d
  }

  lemma VariationTimes(n: real, s: real, q: real, m: real, d: real)
    requires n > 1.0 && s != 0.0 && Around(n, s, q, m, d)
    ensures m != 0.0 && IsVariation(n, s, q, m, d, Divide(Divide(d, n - 1.0), Square(m)))
  {
    assert Square(m) * Divide(Divide(d, n - 1.0), Square(m)) == Divide(d, n - 1.0);
  }

  lemma VariationIs(values: seq<real>) returns (m: real, d: real)
    requires |values| >= 2 && Sum(values) != 0.0
    ensures IsVariation(|values| as real, Sum(values), SumOfSquares(values), m, d, VariationSquared(values))
  {
    m := Divide(Sum(values), |values| as real);
    d := Deviation(values, m);
    MeanDeviation(values, m);
    VariationTimes(|values| as real, Sum(values), SumOfSquares(values), m, d);
    assert (|values| - 1) as real == |values| as real - 1.0;
  }

  lemma ProductReorders(a: real, b: real, c: real)
    ensures (a * b) * c == a * (b * c) == b * (a * c) == b * c * a
  {
  }

  // J * (1 + (n-1)/n * cv^2) = 1
  predicate Identity(n: real, j: real, v: real)
    requires n != 0.0
  {
    j * (1.0 + Divide(n - 1.0, n) * v) == 1.0
  }

  // Pure arithmetic: y is ((n - 1) / n) * v, with v the squared variation.
  lemma SquaresFromVariation(n: real, s: real, q: real, m: real, d: real, v: real, y: real)
    requires IsVariation(n, s, q, m, d, v) && n * y == (n - 1.0) * v
    ensures (1.0 + y) * (s * s) == n * q
  {
    ProductReorders(n - 1.0, v, m * m);
    assert y * (s * s) == ((n * y) * (m * m)) * n by {
      assert s == n * m;
    }
  }

  lemma ReciprocalFrom(j: real, z: real, s2: real, nq: real)
    requires s2 != 0.0 && j * nq == s2 && z * s2 == nq
    ensures j * z == 1.0
  {
    SubstituteFactor(j, z, s2, nq);
    CancelFactor(j * z, s2, j * nq);
  }

  lemma SubstituteFactor(j: real, z: real, a: real, b: real)
    requires z * a == b
    ensures (j * z) * a == j * b
  {
  }

  lemma CancelFactor(a: real, b: real, c: real)
    requires b != 0.0 && a * b == c && c == b
    ensures a == 1.0
  {
    assert (a - 1.0) * b == 0.0;
  }

  lemma Weight(n: real, v: real)
    requires n != 0.0
    ensures n * (Divide(n - 1.0, n) * v) == (n - 1.0) * v
  {
    ProductReorders(n, Divide(n - 1.0, n), v);
  }

  lemma IdentityFrom(n: real, s: real, q: real, m: real, d: real, v: real, j: real)
    requires IsIndex(n, s, q, j) && IsVariation(n, s, q, m, d, v) && s != 0.0
    ensures Identity(n, j, v)
  {
    var y := Divide(n - 1.0, n) * v;
    Weight(n, v);
    SquaresFromVariation(n, s, q, m, d, v, y);
    SquareSign(s);
    ReciprocalFrom(j, 1.0 + y, s * s, n * q);
  }

  // The fairness index and the coefficient of variation say the same thing.
  lemma FairnessIdentity(values: seq<real>)
    requires |values| >= 2 && Sum(values) != 0.0
    ensures JainsIndex(values).Number?
    ensures Identity(|values| as real, JainsIndex(values).value, VariationSquared(values))
  {
    NoSquaresNoSum(values);
    JainsIndexIs(values);
    var m, d := VariationIs(values);
    IdentityFrom(|values| as real, Sum(values), SumOfSquares(values), m, d,
                 VariationSquared(values), JainsIndex(values).value);
  }

  /* ----- bounds ----- */

  predicate AllEqual(values: seq<real>) {
    forall i, j :: 0 <= i < j < |values| ==> values[i] == values[j]
  }

  // Cauchy and Schwarz, with the case of equality.
  predicate Spread(n: real, s: real, q: real, equal: bool) {
    s * s <= n * q && (s * s == n * q <==> equal)
  }

  lemma SpreadFrom(n: real, s: real, q: real, m: real, d: real)
    requires n > 0.0 && d >= 0.0 && Around(n, s, q, m, d)
    ensures Spread(n, s, q, d == 0.0)
  {
    ProductSign(n, d);
  }

  lemma SquareBelowSquares(values: seq<real>)
    requires |values| > 0
    ensures Spread(|values| as real, Sum(values), SumOfSquares(values), AllEqual(values))
  {
    var n := |values| as real;
    var m := Divide(Sum(values), n);
    MeanDeviation(values, m);
    DeviationZero(values, m);
    SpreadFrom(n, Sum(values), SumOfSquares(values), m, Deviation(values, m));
    if AllEqual(values) {
      EqualMean(values, values[0]);
      SameMean(n, Sum(values), m, values[0]);
    }
  }

  lemma SameMean(n: real, s: real, m: real, x: real)
    requires n > 0.0 && n * m == s && n * x == s
    ensures m == x
  {
    assert n * (m - x) == 0.0;
  }

  lemma {:induction false} EqualMean(values: seq<real>, x: real)
    requires forall i :: 0 <= i < |values| ==> values[i] == x
    ensures |values| as real * x == Sum(values)
  {
    if |values| > 0 {
      EqualMean(values[..|values| - 1], x);
      assert (|values| - 1) as real * x + x == |values| as real * x;
    }
  }

  lemma Compare(j: real, b: real, a: real)
    requires b > 0.0 && j * b == a
    ensures j <= 1.0 <==> a <= b
    ensures j == 1.0 <==> a == b
  {
    assert j > 1.0 ==> (j - 1.0) * b > 0.0;
    assert j < 1.0 ==> (1.0 - j) * b > 0.0;
  }

  // 1/n <= j <= 1; j is 1 in the equal case only and 1/n in the single case only.
  predicate WithinBounds(n: real, j: real, equal: bool, single: bool) {
    && 1.0 <= n * j && j <= 1.0
    && (j == 1.0 <==> equal)
    && (n * j == 1.0 <==> single)
  }

  lemma IndexBounds(n: real, s: real, q: real, j: real, equal: bool, single: bool)
    requires IsIndex(n, s, q, j) && Spread(n, s, q, equal) && Concentrated(s, q, single)
    ensures WithinBounds(n, j, equal, single)
  {
    ProductSign(n, q);
    Compare(j, n * q, s * s);
    ProductReorders(n, j, q);
    Compare(n * j, q, s * s);
  }

  predicate ShareAtMost(n: real, j: real, k: real) {
    n * j <= k
  }

  lemma AtMostShare(n: real, s: real, q: real, j: real, k: real, equal: bool)
    requires IsIndex(n, s, q, j) && Spread(k, s, q, equal)
    ensures ShareAtMost(n, j, k)
  {
    ProductReorders(n, j, q);
    Below(n * j, k, q);
  }

  lemma Below(a: real, b: real, q: real)
    requires q > 0.0 && a * q <= b * q
    ensures a <= b
  {
    assert (b - a) * q >= 0.0;
    assert a > b ==> (a - b) * q > 0.0;
  }

  // The index lies between 1/n and 1; it is 1 exactly when all values are equal, 1/n exactly when one value
  // has everything, and a number at all exactly when some value is not zero.
  lemma FairnessBounds(values: seq<real>)
    requires |values| > 0 && NonNegative(values)
    ensures JainsIndex(values).Number? <==> exists i :: 0 <= i < |values| && values[i] != 0.0
    ensures JainsIndex(values).Number? ==>
              WithinBounds(|values| as real, JainsIndex(values).value, AllEqual(values), AtMostOneNonZero(values))
  {
    SumSign(values);
    if Sum(values) != 0.0 {
      JainsIndexIs(values);
      BoundsFrom(values, JainsIndex(values).value);
    } else {
      NoIndex(values);
    }
  }

  lemma BoundsFrom(values: seq<real>, j: real)
    requires NonNegative(values) && |values| > 0 && IsIndex(|values| as real, Sum(values), SumOfSquares(values), j)
    ensures WithinBounds(|values| as real, j, AllEqual(values), AtMostOneNonZero(values))
  {
    SquareBelowSquares(values);
    SquaresBelowSquare(values);
    IndexBounds(|values| as real, Sum(values), SumOfSquares(values), j, AllEqual(values), AtMostOneNonZero(values));
  }

  // Without values the index is 0, and without spread or mean the variation is.
  lemma EdgeCases(values: seq<real>)
    ensures |values| == 0 ==> JainsIndex(values) == Number(0.0)
    ensures |values| < 2 || Sum(values) == 0.0 ==> VariationSquared(values) == 0.0
  {
    if |values| >= 2 && Sum(values) == 0.0 {
      NoMean(|values| as real, Divide(Sum(values), |values| as real));
    }
  }

  lemma NoMean(n: real, m: real)
    requires n > 0.0 && n * m == 0.0
    ensures m == 0.0
  {
  }

  /* ----- the C loop ----- */

  // Exactly the positive entries are counted, each as often as it occurs.
  lemma {:induction false} PositiveAre(values: seq<real>, x: real)
    ensures multiset(Positive(values))[x] == if x > 0.0 then multiset(values)[x] else 0
  {
    if |values| > 0 {
      var ys := values[..|values| - 1];
      PositiveAre(ys, x);
      assert values == ys + [values[|values| - 1]];
    }
  }

  lemma {:induction false} PositiveKeepsSums(values: seq<real>)
    requires NonNegative(values)
    ensures Sum(Positive(values)) == Sum(values) && SumOfSquares(Positive(values)) == SumOfSquares(values)
    ensures |Positive(values)| <= |values| && NonNegative(Positive(values))
  {
    if |values| > 0 {
      var ys, x := values[..|values| - 1], values[|values| - 1];
      PositiveKeepsSums(ys);
      if x > 0.0 {
        assert (Positive(ys) + [x])[..|Positive(ys)|] == Positive(ys);
      }
    }
  }

  // Skipping idle threads changes nothing.
  lemma PrintedIndexIsJains(values: seq<real>)
    requires |values| > 0 && NonNegative(values)
    ensures SumOfSquares(Positive(values)) == 0.0 ==> Sum(Positive(values)) == 0.0
    ensures Index(Sum(Positive(values)), SumOfSquares(Positive(values)), |values|) == JainsIndex(values)
  {
    PositiveKeepsSums(values);
    NoSquaresNoSum(values);
  }

  lemma ActiveShare(values: seq<real>, active: seq<real>, j: real)
    requires |active| > 0 && IsIndex(|values| as real, Sum(active), SumOfSquares(active), j)
    ensures ShareAtMost(|values| as real, j, |active| as real)
  {
    SquareBelowSquares(active);
    AtMostShare(|values| as real, Sum(active), SumOfSquares(active), j, |active| as real, AllEqual(active));
  }

  // As idle threads still count in the divisor, the index is at most active / n.
  lemma IndexBelowActiveShare(values: seq<real>)
    requires |values| > 0 && NonNegative(values)
    ensures JainsIndex(values).Number? ==>
              ShareAtMost(|values| as real, JainsIndex(values).value, |Positive(values)| as real)
  {
    PositiveKeepsSums(values);
    SumSign(values);
    if Sum(values) == 0.0 {
      NoIndex(values);
    } else {
      JainsIndexIs(values);
      ActiveShare(values, Positive(values), JainsIndex(values).value);
    }
  }
}
