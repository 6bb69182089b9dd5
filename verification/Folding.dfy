// Sums of a per-thread contribution over all threads of a machine, for any commutative monoid.
// The one fact every protocol proof needs is FoldUpdate: when one thread steps, only its own
// contribution changes.
module Folding {

  datatype Monoid<!M> = Monoid(zero: M, plus: (M, M) -> M)

  ghost predicate Lawful<M(!new)>(m: Monoid<M>) {
    && (forall a: M, b: M :: m.plus(a, b) == m.plus(b, a))
    && (forall a: M, b: M, c: M :: m.plus(m.plus(a, b), c) == m.plus(a, m.plus(b, c)))
    && (forall a: M :: m.plus(m.zero, a) == a)
  }

  ghost const INTEGERS: Monoid<int> := Monoid(0, (a: int, b: int) => a + b)
  ghost const REALS: Monoid<real> := Monoid(0.0, (a: real, b: real) => a + b)
  ghost const BAGS: Monoid<multiset<real>> := Monoid(multiset{}, (a: multiset<real>, b: multiset<real>) => a + b)

  ghost function Fold<T, M>(m: Monoid<M>, ts: seq<T>, f: T -> M): M {
    if |ts| == 0 then m.zero else m.plus(f(ts[0]), Fold(m, ts[1..], f))
  }

  lemma {:induction false} FoldUpdate<T, M(!new)>(m: Monoid<M>, ts: seq<T>, i: nat, t: T, f: T -> M)
    requires Lawful(m) && i < |ts|
    ensures m.plus(Fold(m, ts[i := t], f), f(ts[i])) == m.plus(Fold(m, ts, f), f(t))
  {
    var us := ts[i := t];
    if i == 0 {
      assert us[1..] == ts[1..];
    } else {
      assert us[1..] == ts[1..][i - 1 := t];
      FoldUpdate(m, ts[1..], i - 1, t, f);
    }
  }

  // Two contributions that agree on every thread have the same fold.
  lemma {:induction false} FoldAgree<T, U, M>(m: Monoid<M>, ts: seq<T>, us: seq<U>, f: T -> M, g: U -> M)
    requires |ts| == |us| && forall i :: 0 <= i < |ts| ==> f(ts[i]) == g(us[i])
    ensures Fold(m, ts, f) == Fold(m, us, g)
  {
    if |ts| == 0 {
    } else {
      FoldAgree(m, ts[1..], us[1..], f, g);
    }
  }

  /* ----- integer totals: counts of threads and sums of counters ----- */

  ghost function Total<T>(ts: seq<T>, f: T -> int): int {
    Fold(INTEGERS, ts, f)
  }

  lemma TotalUpdate<T>(ts: seq<T>, i: nat, t: T, f: T -> int)
    requires i < |ts|
    ensures Total(ts[i := t], f) == Total(ts, f) - f(ts[i]) + f(t)
  {
    FoldUpdate(INTEGERS, ts, i, t, f);
  }

  function Same(n: nat): int { n }

  lemma {:induction false} TotalConcat<T>(xs: seq<T>, ys: seq<T>, f: T -> int)
    ensures Total(xs + ys, f) == Total(xs, f) + Total(ys, f)
  {
    if |xs| == 0 {
      assert xs + ys == ys;
    } else {
      TotalConcat(xs[1..], ys, f);
      assert (xs + ys)[1..] == xs[1..] + ys;
    }
  }

  lemma TotalAppend<T>(xs: seq<T>, x: T, f: T -> int)
    ensures Total(xs + [x], f) == Total(xs, f) + f(x)
  {
    TotalConcat(xs, [x], f);
    assert Total([x], f) == f(x) + Total([x][1..], f);
  }

  lemma {:induction false} TotalAtMost<T, U>(ts: seq<T>, us: seq<U>, f: T -> int, g: U -> int)
    requires |ts| == |us| && forall i :: 0 <= i < |ts| ==> f(ts[i]) <= g(us[i])
    ensures Total(ts, f) <= Total(us, g)
  {
    if |ts| > 0 {
      TotalAtMost(ts[1..], us[1..], f, g);
    }
  }

  // If one contribution grows and none shrinks, so does the total.
  lemma TotalRises<T>(ts: seq<T>, us: seq<T>, k: nat, f: T -> int, g: T -> int)
    requires k < |ts| == |us| && f(ts[k]) < g(us[k])
    requires forall i :: 0 <= i < |ts| ==> f(ts[i]) <= g(us[i])
    ensures Total(ts, f) < Total(us, g)
  {
    TotalSplit(ts, k, f);
    TotalSplit(us, k, g);
    TotalAtMost(ts[..k], us[..k], f, g);
    TotalAtMost(ts[k + 1..], us[k + 1..], f, g);
  }

  lemma {:induction false} TotalSplit<T>(ts: seq<T>, k: nat, f: T -> int)
    requires k < |ts|
    ensures Total(ts, f) == Total(ts[..k], f) + f(ts[k]) + Total(ts[k + 1..], f)
  {
    if k > 0 {
      TotalSplit(ts[1..], k - 1, f);
      assert ts[1..][..k - 1] == ts[..k][1..] && ts[1..][k..] == ts[k + 1..];
      assert Total(ts[..k], f) == f(ts[0]) + Total(ts[..k][1..], f);
    } else {
      assert ts[..0] == [];
    }
  }

  // Contributions between 0 and c add up to at most c for each thread.
  lemma {:induction false} TotalBounds<T>(ts: seq<T>, f: T -> int, c: nat)
    requires forall i :: 0 <= i < |ts| ==> 0 <= f(ts[i]) <= c
    ensures 0 <= Total(ts, f) <= c * |ts|
  {
    if |ts| > 0 {
      TotalBounds(ts[1..], f, c);
      assert Total(ts, f) == f(ts[0]) + Total(ts[1..], f);
      assert c * |ts| == c * |ts[1..]| + c;
    }
  }

  // Contributions of 0 or 1 count threads: the total is bounded by their number, reaches it only
  // when every thread contributes, and is zero only when none does.
  lemma {:induction false} CountBounds<T>(ts: seq<T>, f: T -> int)
    requires forall t: T :: 0 <= f(t) <= 1
    ensures 0 <= Total(ts, f) <= |ts|
    ensures Total(ts, f) == |ts| <==> forall i :: 0 <= i < |ts| ==> f(ts[i]) == 1
    ensures Total(ts, f) == 0 <==> forall i :: 0 <= i < |ts| ==> f(ts[i]) == 0
  {
    if |ts| == 0 {
    } else {
      var rest := ts[1..];
      CountBounds(rest, f);
      assert Total(ts, f) == f(ts[0]) + Total(rest, f);
      assert forall i :: 0 < i < |ts| ==> ts[i] == rest[i - 1];
      assert forall i :: 0 <= i < |rest| ==> rest[i] == ts[i + 1];
    }
  }

  // Two different threads that both contribute make the total at least two.
  lemma {:induction false} CountPair<T>(ts: seq<T>, f: T -> int, i: nat, j: nat)
    requires forall t: T :: 0 <= f(t) <= 1
    requires i < j < |ts| && f(ts[i]) == 1 && f(ts[j]) == 1
    ensures Total(ts, f) >= 2
  {
    var rest := ts[1..];
    assert Total(ts, f) == f(ts[0]) + Total(rest, f);
    if i == 0 {
      CountBounds(rest, f);
      assert rest[j - 1] == ts[j];
    } else {
      CountPair(rest, f, i - 1, j - 1);
    }
  }

  /* ----- real totals and bags of samples ----- */

  ghost function RealTotal<T>(ts: seq<T>, f: T -> real): real {
    Fold(REALS, ts, f)
  }

  lemma RealTotalUpdate<T>(ts: seq<T>, i: nat, t: T, f: T -> real)
    requires i < |ts|
    ensures RealTotal(ts[i := t], f) == RealTotal(ts, f) - f(ts[i]) + f(t)
  {
    FoldUpdate(REALS, ts, i, t, f);
  }

  ghost function Bag<T>(ts: seq<T>, f: T -> multiset<real>): multiset<real> {
    Fold(BAGS, ts, f)
  }

  lemma BagsLawful()
    ensures Lawful(BAGS)
  {
    forall a: multiset<real>, b: multiset<real> ensures BAGS.plus(a, b) == BAGS.plus(b, a) {
      assert a + b == b + a;
    }
    forall a: multiset<real>, b: multiset<real>, c: multiset<real>
      ensures BAGS.plus(BAGS.plus(a, b), c) == BAGS.plus(a, BAGS.plus(b, c))
    {
      assert a + b + c == a + (b + c);
    }
    forall a: multiset<real> ensures BAGS.plus(BAGS.zero, a) == a {
      assert multiset{} + a == a;
    }
  }

  lemma BagUpdate<T>(ts: seq<T>, i: nat, t: T, f: T -> multiset<real>)
    requires i < |ts|
    ensures Bag(ts[i := t], f) + f(ts[i]) == Bag(ts, f) + f(t)
  {
    BagsLawful();
    FoldUpdate(BAGS, ts, i, t, f);
  }

  // A value is in the bag exactly when some thread contributes it.
  lemma {:induction false} BagMember<T>(ts: seq<T>, f: T -> multiset<real>, x: real)
    ensures x in Bag(ts, f) <==> exists i :: 0 <= i < |ts| && x in f(ts[i])
  {
    if |ts| == 0 {
    } else {
      var rest := ts[1..];
      BagMember(rest, f, x);
      assert Bag(ts, f) == f(ts[0]) + Bag(rest, f);
      if i :| 0 <= i < |ts| && x in f(ts[i]) && i > 0 {
        assert rest[i - 1] == ts[i];
      }
      if i :| 0 <= i < |rest| && x in f(rest[i]) {
        assert ts[i + 1] == rest[i];
      }
    }
  }
}
