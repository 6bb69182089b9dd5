// Runs of a transition system, and the rule that lifts an inductive invariant to every run.
module Runs {

  ghost predicate IsRun<S>(run: seq<S>, init: S -> bool, next: (S, S) -> bool) {
    && |run| > 0
    && init(run[0])
    && forall k :: 0 <= k < |run| - 1 ==> next(run[k], run[k + 1])
  }

  ghost predicate Reachable<S(!new)>(s: S, init: S -> bool, next: (S, S) -> bool) {
    exists run: seq<S> :: IsRun(run, init, next) && run[|run| - 1] == s
  }

  ghost predicate Inductive<S(!new)>(inv: S -> bool, init: S -> bool, next: (S, S) -> bool) {
    && (forall s: S :: init(s) ==> inv(s))
    && (forall s: S, s': S :: inv(s) && next(s, s') ==> inv(s'))
  }

  lemma {:induction false} InvariantHolds<S(!new)>(
      run: seq<S>, k: nat, init: S -> bool, next: (S, S) -> bool, inv: S -> bool)
    requires IsRun(run, init, next) && Inductive(inv, init, next) && k < |run|
    ensures inv(run[k])
  {
    if k > 0 {
      InvariantHolds(run, k - 1, init, next, inv);
      assert next(run[k - 1], run[k - 1 + 1]);
    }
  }

  lemma ReachableKeeps<S(!new)>(s: S, init: S -> bool, next: (S, S) -> bool, inv: S -> bool)
    requires Reachable(s, init, next) && Inductive(inv, init, next)
    ensures inv(s)
  {
    var run: seq<S> :| IsRun(run, init, next) && run[|run| - 1] == s;
    InvariantHolds(run, |run| - 1, init, next, inv);
  }

  lemma ReachableStart<S(!new)>(s: S, init: S -> bool, next: (S, S) -> bool)
    requires init(s)
    ensures Reachable(s, init, next)
  {
    assert IsRun([s], init, next);
    assert [s][|[s]| - 1] == s;
  }

  lemma ReachableStep<S(!new)>(s: S, s': S, init: S -> bool, next: (S, S) -> bool)
    requires Reachable(s, init, next) && next(s, s')
    ensures Reachable(s', init, next)
  {
    var run: seq<S> :| IsRun(run, init, next) && run[|run| - 1] == s;
    var longer := run + [s'];
    assert IsRun(longer, init, next);
    assert longer[|longer| - 1] == s';
  }

  // Nothing can happen any more.
  ghost predicate Final<S(!new)>(s: S, next: (S, S) -> bool) {
    forall s': S :: !next(s, s')
  }

  // A measure that every step raises and no state exceeds bounds the length of every run.
  ghost predicate Rises<S(!new)>(inv: S -> bool, next: (S, S) -> bool, measure: S -> int, bound: int) {
    && (forall s: S :: inv(s) ==> 0 <= measure(s) <= bound)
    && (forall s: S, s': S :: inv(s) && next(s, s') ==> measure(s) < measure(s'))
  }

  lemma {:induction false} MeasureCounts<S(!new)>(
      run: seq<S>, k: nat, init: S -> bool, next: (S, S) -> bool, inv: S -> bool, measure: S -> int, bound: int)
    requires IsRun(run, init, next) && Inductive(inv, init, next) && Rises(inv, next, measure, bound) && k < |run|
    ensures k <= measure(run[k])
  {
    InvariantHolds(run, k, init, next, inv);
    if k > 0 {
      MeasureCounts(run, k - 1, init, next, inv, measure, bound);
      InvariantHolds(run, k - 1, init, next, inv);
      assert next(run[k - 1], run[k - 1 + 1]);
    }
  }

  lemma RunsAreShort<S(!new)>(
      run: seq<S>, init: S -> bool, next: (S, S) -> bool, inv: S -> bool, measure: S -> int, bound: int)
    requires IsRun(run, init, next) && Inductive(inv, init, next) && Rises(inv, next, measure, bound)
    ensures |run| <= bound + 1 && inv(run[|run| - 1])
  {
    MeasureCounts(run, |run| - 1, init, next, inv, measure, bound);
    InvariantHolds(run, |run| - 1, init, next, inv);
  }

  // A machine refines a specification when every step from an invariant state is a step of the
  // specification or leaves its view unchanged. Then every reachable state shows a reachable view.
  ghost predicate Refines<S(!new), A(!new)>(
    inv: S -> bool, init: S -> bool, next: (S, S) -> bool,
    view: S -> A, specInit: A -> bool, specNext: (A, A) -> bool)
  {
    && (forall s: S :: init(s) ==> specInit(view(s)))
    && (forall s: S, s': S :: inv(s) && next(s, s') ==> view(s') == view(s) || specNext(view(s), view(s')))
  }

  lemma {:induction false} RefinementLifts<S(!new), A(!new)>(
      run: seq<S>, k: nat, inv: S -> bool, init: S -> bool, next: (S, S) -> bool,
      view: S -> A, specInit: A -> bool, specNext: (A, A) -> bool)
    requires IsRun(run, init, next) && Inductive(inv, init, next) && k < |run|
    requires Refines(inv, init, next, view, specInit, specNext)
    ensures Reachable(view(run[k]), specInit, specNext)
  {
    if k == 0 {
      ReachableStart(view(run[0]), specInit, specNext);
    } else {
      RefinementLifts(run, k - 1, inv, init, next, view, specInit, specNext);
      InvariantHolds(run, k - 1, init, next, inv);
      assert next(run[k - 1], run[k - 1 + 1]);
      if view(run[k]) != view(run[k - 1]) {
        ReachableStep(view(run[k - 1]), view(run[k]), specInit, specNext);
      }
    }
  }

  lemma ReachableRefines<S(!new), A(!new)>(
      s: S, inv: S -> bool, init: S -> bool, next: (S, S) -> bool,
      view: S -> A, specInit: A -> bool, specNext: (A, A) -> bool)
    requires Reachable(s, init, next) && Inductive(inv, init, next)
    requires Refines(inv, init, next, view, specInit, specNext)
    ensures Reachable(view(s), specInit, specNext)
  {
    var run: seq<S> :| IsRun(run, init, next) && run[|run| - 1] == s;
    RefinementLifts(run, |run| - 1, inv, init, next, view, specInit, specNext);
  }
}
