// How many values lie below a value, and the value that stands at a given rank.
module Quantiles {
  import opened Folding

  function StrictlyBelow(x: real): real -> int {
    (y: real) => if y < x then 1 else 0
  }

  function NotAbove(x: real): real -> int {
    (y: real) => if y <= x then 1 else 0
  }

  ghost function CountBelow(xs: seq<real>, x: real): int {
    Total(xs, StrictlyBelow(x))
  }

  ghost function CountNotAbove(xs: seq<real>, x: real): int {
    Total(xs, NotAbove(x))
  }

  // Counting from the smallest, rank t is reached at x: fewer than t values are smaller, at least t not larger.
  ghost predicate HasRank(xs: seq<real>, t: real, x: real) {
    x in xs && CountBelow(xs, x) as real < t <= CountNotAbove(xs, x) as real
  }

  // The largest of the values that satisfy f.
  lemma {:induction false} Largest(xs: seq<real>, f: real -> bool) returns (x: real)
    requires exists i :: 0 <= i < |xs| && f(xs[i])
    ensures x in xs && f(x) && forall y :: y in xs && f(y) ==> y <= x
  {
    var rest := xs[1..];
    assert forall y :: y in xs <==> y == xs[0] || y in rest;
    if i :| 0 <= i < |rest| && f(rest[i]) {
      x := Largest(rest, f);
      if f(xs[0]) && xs[0] > x {
        x := xs[0];
      }
    } else {
      assert forall y :: y in rest ==> !f(y);
      x := xs[0];
      assert forall i :: 0 < i < |xs| ==> xs[i] == rest[i - 1];
    }
  }

  // Going down from m, which is not too small, to the value at rank t.
  lemma {:induction false} GoDown(xs: seq<real>, t: real, m: real) returns (x: real)
    requires 0.0 < t <= CountNotAbove(xs, m) as real && m in xs
    ensures HasRank(xs, t, x)
    decreases CountBelow(xs, m)
  {
    CountBounds(xs, StrictlyBelow(m));
    if CountBelow(xs, m) as real < t {
      x := m;
    } else {
      var y := Largest(xs, z => z < m);
      forall i | 0 <= i < |xs| ensures NotAbove(y)(xs[i]) == StrictlyBelow(m)(xs[i]) {
        assert xs[i] in xs;
      }
      FoldAgree(INTEGERS, xs, xs, NotAbove(y), StrictlyBelow(m));
      var k :| 0 <= k < |xs| && xs[k] == y;
      TotalRises(xs, xs, k, StrictlyBelow(y), StrictlyBelow(m));
      x := GoDown(xs, t, y);
    }
  }

  lemma RankExists(xs: seq<real>, t: real) returns (x: real)
    requires 0.0 < t <= |xs| as real
    ensures HasRank(xs, t, x)
  {
    assert |xs| > 0;
    var all := (y: real) => true;
    assert all(xs[0]);
    var m := Largest(xs, all);
    forall i | 0 <= i < |xs| ensures NotAbove(m)(xs[i]) == 1 {
      assert xs[i] in xs;
    }
    CountBounds(xs, NotAbove(m));
    x := GoDown(xs, t, m);
  }
}
