// Sums, sums of squares and squared deviations of a list of numbers, and the inequalities between them.
module Moments {

  function Sum(xs: seq<real>): real {
    if |xs| == 0 then 0.0 else Sum(xs[..|xs| - 1]) + xs[|xs| - 1]
  }

  function SumOfSquares(xs: seq<real>): real {
    if |xs| == 0 then 0.0 else SumOfSquares(xs[..|xs| - 1]) + xs[|xs| - 1] * xs[|xs| - 1]
  }

  // The sum of (x - m) * (x - m).
  function Deviation(xs: seq<real>, m: real): real {
    if |xs| == 0 then 0.0 else Deviation(xs[..|xs| - 1], m) + (xs[|xs| - 1] - m) * (xs[|xs| - 1] - m)
  }

  function Gap(x: real, lo: real, hi: real): real {
    (hi - x) * (x - lo)
  }

  function Slack(xs: seq<real>, lo: real, hi: real): real {
    if |xs| == 0 then 0.0 else Slack(xs[..|xs| - 1], lo, hi) + Gap(xs[|xs| - 1], lo, hi)
  }

  predicate IsMean(xs: seq<real>, m: real) {
    |xs| > 0 && |xs| as real * m == Sum(xs)
  }

  function Divide(a: real, b: real): (r: real)
    requires b != 0.0
    ensures b * r == a
  {
    a / b
  }

  predicate NonNegative(xs: seq<real>) {
    forall i :: 0 <= i < |xs| ==> xs[i] >= 0.0
  }

  lemma Extend<T>(xs: seq<T>, i: nat)
    requires i < |xs|
    ensures xs[..i + 1][..i] == xs[..i] && xs[..i + 1][i] == xs[i]
  {
  }

  lemma DeviationStep(xs: seq<real>, i: nat, m: real)
    requires i < |xs|
    ensures Deviation(xs[..i + 1], m) == Deviation(xs[..i], m) + (xs[i] - m) * (xs[i] - m)
  {
    Extend(xs, i);
  }

  // q - 2 m s + n m m
  function Expanded(q: real, s: real, n: real, m: real): real {
    q - 2.0 * m * s + n * m * m
  }

  lemma ExpandedStep(d: real, q: real, s: real, n: real, m: real, x: real, d': real, q': real, s': real, n': real)
    requires d == Expanded(q, s, n, m)
    requires d' == d + (x - m) * (x - m) && q' == q + x * x && s' == s + x && n' == n + 1.0
    ensures d' == Expanded(q', s', n', m)
  {
    assert (x - m) * (x - m) == x * x - 2.0 * m * x + m * m;
    assert n' * m * m == n * m * m + m * m;
  }

  lemma {:induction false} DeviationExpands(xs: seq<real>, m: real)
    ensures Deviation(xs, m) == Expanded(SumOfSquares(xs), Sum(xs), |xs| as real, m)
  {
    if |xs| > 0 {
      var ys, x := xs[..|xs| - 1], xs[|xs| - 1];
      DeviationExpands(ys, m);
      ExpandedStep(Deviation(ys, m), SumOfSquares(ys), Sum(ys), |ys| as real, m, x,
                   Deviation(xs, m), SumOfSquares(xs), Sum(xs), |xs| as real);
    }
  }

  // (lo + hi) s - q - n lo hi
  function ExpandedSlack(q: real, s: real, n: real, lo: real, hi: real): real {
    (lo + hi) * s - q - n * (lo * hi)
  }

  predicate IsExpandedSlack(d: real, q: real, s: real, n: real, lo: real, hi: real) {
    d == ExpandedSlack(q, s, n, lo, hi)
  }

  lemma SlackStep(d: real, q: real, s: real, n: real, lo: real, hi: real, x: real)
    requires IsExpandedSlack(d, q, s, n, lo, hi)
    ensures IsExpandedSlack(d + Gap(x, lo, hi), q + x * x, s + x, n + 1.0, lo, hi)
  {
    assert (hi - x) * (x - lo) == (lo + hi) * x - x * x - lo * hi;
    assert (n + 1.0) * (lo * hi) == n * (lo * hi) + lo * hi;
  }

  lemma {:induction false} SlackIsExpanded(xs: seq<real>, lo: real, hi: real)
    ensures IsExpandedSlack(Slack(xs, lo, hi), SumOfSquares(xs), Sum(xs), |xs| as real, lo, hi)
  {
    if |xs| > 0 {
      var ys, x := xs[..|xs| - 1], xs[|xs| - 1];
      SlackIsExpanded(ys, lo, hi);
      SlackStep(Slack(ys, lo, hi), SumOfSquares(ys), Sum(ys), |ys| as real, lo, hi, x);
    }
  }

  lemma SlackExpands(xs: seq<real>, lo: real, hi: real)
    ensures Slack(xs, lo, hi) == ExpandedSlack(SumOfSquares(xs), Sum(xs), |xs| as real, lo, hi)
  {
    SlackIsExpanded(xs, lo, hi);
  }

  lemma ProductSign(a: real, b: real)
    requires a >= 0.0 && b >= 0.0
    ensures a * b >= 0.0 && (a * b == 0.0 <==> a == 0.0 || b == 0.0)
  {
  }

  lemma SquareSign(d: real)
    ensures d * d >= 0.0 && (d * d == 0.0 <==> d == 0.0)
  {
    if d < 0.0 {
      ProductSign(-d, -d);
    } else {
      ProductSign(d, d);
    }
  }

  // A sum of squares is not negative, and zero only when every deviation is.
  lemma {:induction false} DeviationZero(xs: seq<real>, m: real)
    ensures Deviation(xs, m) >= 0.0
    ensures Deviation(xs, m) == 0.0 <==> forall i :: 0 <= i < |xs| ==> xs[i] == m
  {
    if |xs| > 0 {
      var d := xs[|xs| - 1] - m;
      DeviationZero(xs[..|xs| - 1], m);
      SquareSign(d);
    }
  }

  lemma GapSign(x: real, lo: real, hi: real)
    requires lo <= x <= hi
    ensures Gap(x, lo, hi) >= 0.0 && (Gap(x, lo, hi) == 0.0 <==> x == lo || x == hi)
  {
    ProductSign(hi - x, x - lo);
  }

  lemma {:induction false} SlackZero(xs: seq<real>, lo: real, hi: real)
    requires forall i :: 0 <= i < |xs| ==> lo <= xs[i] <= hi
    ensures Slack(xs, lo, hi) >= 0.0
    ensures Slack(xs, lo, hi) == 0.0 <==> forall i :: 0 <= i < |xs| ==> xs[i] == lo || xs[i] == hi
  {
    if |xs| > 0 {
      var ys, x := xs[..|xs| - 1], xs[|xs| - 1];
      assert forall i :: 0 <= i < |ys| ==> ys[i] == xs[i];
      SlackZero(ys, lo, hi);
      GapSign(x, lo, hi);
      assert Slack(xs, lo, hi) == Slack(ys, lo, hi) + Gap(x, lo, hi);
    }
  }

  // Around the mean m of n numbers with sum s the deviation d is what the squares q have left over.
  predicate Around(n: real, s: real, q: real, m: real, d: real) {
    n * m == s && n * d == n * q - s * s
  }

  lemma MeanDeviation(xs: seq<real>, m: real)
    requires IsMean(xs, m)
    ensures Around(|xs| as real, Sum(xs), SumOfSquares(xs), m, Deviation(xs, m))
  {
    DeviationExpands(xs, m);
    CompleteSquare(|xs| as real, Sum(xs), SumOfSquares(xs), m, Deviation(xs, m));
  }

  lemma CompleteSquare(n: real, s: real, q: real, m: real, d: real)
    requires n * m == s && d == Expanded(q, s, n, m)
    ensures Around(n, s, q, m, d)
  {
    assert n * m * m == s * m && 2.0 * m * s == 2.0 * (s * m);
    assert d == q - s * m;
    assert n * (s * m) == s * (n * m);
  }

  lemma {:induction false} SumSign(xs: seq<real>)
    requires NonNegative(xs)
    ensures Sum(xs) >= 0.0 && SumOfSquares(xs) >= 0.0
    ensures Sum(xs) == 0.0 <==> forall i :: 0 <= i < |xs| ==> xs[i] == 0.0
    ensures SumOfSquares(xs) == 0.0 <==> Sum(xs) == 0.0
  {
    if |xs| > 0 {
      var x := xs[|xs| - 1];
      SumSign(xs[..|xs| - 1]);
      ProductSign(x, x);
    }
  }

  predicate AtMostOneNonZero(xs: seq<real>) {
    forall i, j :: 0 <= i < j < |xs| ==> xs[i] == 0.0 || xs[j] == 0.0
  }

  // The square of the sum is at least the sum of squares, and equal to it in the single case only.
  predicate Concentrated(s: real, q: real, single: bool) {
    q <= s * s && (q == s * s <==> single)
  }

  lemma ConcentratedAppend(s: real, q: real, single: bool, x: real)
    requires Concentrated(s, q, single) && s >= 0.0 && x >= 0.0
    ensures Concentrated(s + x, q + x * x, single && (x == 0.0 || s == 0.0))
  {
    ProductSign(s, x);
    assert (s + x) * (s + x) == s * s + 2.0 * (s * x) + x * x;
  }

  lemma {:induction false} SquaresBelowSquare(xs: seq<real>)
    requires NonNegative(xs)
    ensures Concentrated(Sum(xs), SumOfSquares(xs), AtMostOneNonZero(xs))
  {
    if |xs| > 0 {
      var ys, x := xs[..|xs| - 1], xs[|xs| - 1];
      SquaresBelowSquare(ys);
      SumSign(ys);
      ConcentratedAppend(Sum(ys), SumOfSquares(ys), AtMostOneNonZero(ys), x);
      LastNonZero(ys, x);
      assert xs == ys + [x];
    }
  }

  lemma LastNonZero(ys: seq<real>, x: real)
    requires NonNegative(ys)
    ensures AtMostOneNonZero(ys + [x]) <==> AtMostOneNonZero(ys) && (x == 0.0 || Sum(ys) == 0.0)
  {
    SumSign(ys);
    var xs := ys + [x];
    if AtMostOneNonZero(xs) {
      forall i | 0 <= i < |ys| ensures x == 0.0 || ys[i] == 0.0 {
        assert xs[i] == ys[i] && xs[|ys|] == x;
      }
      forall i, j | 0 <= i < j < |ys| ensures ys[i] == 0.0 || ys[j] == 0.0 {
        assert xs[i] == ys[i] && xs[j] == ys[j];
      }
    }
  }
}
