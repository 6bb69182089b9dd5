// Latency statistics kept in atomics by compare-exchange loops, with any number of threads submitting any
// samples in any interleaving. A weak compare-exchange may fail for no reason.
module CasStatistics {
  import opened ExtendedReals
  import opened Folding
  import opened Moments
  import opened Runs

  datatype Pc = LoadTotal | CasTotal | Count | LoadMin | CasMin | LoadMax | CasMax | Push

  // `work` is what the thread submits over its whole life, `done` how many samples it has finished.
  datatype Thread = Thread(work: seq<real>, done: nat, pc: Pc, seenTotal: real, seenMin: Extended, seenMax: real)

  datatype Shared = Shared(total: real, count: int, min: Extended, max: real, samples: seq<real>)

  datatype State = State(shared: Shared, threads: seq<Thread>)

  ghost predicate Init(s: State, works: seq<seq<real>>) {
    && s.shared == Shared(0.0, 0, Infinity, 0.0, [])
    && s.threads == seq(|works|, i requires 0 <= i < |works| => Thread(works[i], 0, LoadTotal, 0.0, Infinity, 0.0))
  }

  predicate Busy(t: Thread) {
    t.done < |t.work|
  }

  // One operation of a thread that has a sample in hand; `fails` lets a compare-exchange fail spuriously.
  // A failed compare-exchange reloads the expected value.
  function Operation(sh: Shared, t: Thread, fails: bool): (Shared, Thread)
    requires Busy(t)
  {
    var x := t.work[t.done];
    match t.pc
    case LoadTotal => (sh, t.(pc := CasTotal, seenTotal := sh.total))
    case CasTotal =>
      if sh.total == t.seenTotal && !fails then (sh.(total := t.seenTotal + x), t.(pc := Count))
      else (sh, t.(seenTotal := sh.total))
    case Count => (sh.(count := sh.count + 1), t.(pc := LoadMin))
    case LoadMin => (sh, t.(pc := CasMin, seenMin := sh.min))
    case CasMin =>
      if !Below(x, t.seenMin) then (sh, t.(pc := LoadMax))
      else if sh.min == t.seenMin && !fails then (sh.(min := Finite(x)), t.(pc := LoadMax))
      else (sh, t.(seenMin := sh.min))
    case LoadMax => (sh, t.(pc := CasMax, seenMax := sh.max))
    case CasMax =>
      if x <= t.seenMax then (sh, t.(pc := Push))
      else if sh.max == t.seenMax && !fails then (sh.(max := x), t.(pc := Push))
      else (sh, t.(seenMax := sh.max))
    case Push => (sh.(samples := sh.samples + [x]), t.(pc := LoadTotal, done := t.done + 1))
  }

  ghost predicate ThreadStep(s: State, s': State, i: nat, fails: bool) {
    && i < |s.threads| && Busy(s.threads[i])
    && var (sh, t) := Operation(s.shared, s.threads[i], fails);
       s' == State(sh, s.threads[i := t])
  }

  ghost predicate Next(s: State, s': State) {
    exists i: nat, fails: bool :: ThreadStep(s, s', i, fails)
  }

  ghost predicate InRun(works: seq<seq<real>>, s: State) {
    Reachable(s, s => Init(s, works), (s, s') => Next(s, s'))
  }

  /* ----- samples in flight: added to an accumulator but not yet pushed ----- */

  predicate PastTotal(t: Thread) {
    Busy(t) && !t.pc.LoadTotal? && !t.pc.CasTotal?
  }

  predicate PastCount(t: Thread) {
    PastTotal(t) && !t.pc.Count?
  }

  predicate PastMin(t: Thread) {
    Busy(t) && (t.pc.LoadMax? || t.pc.CasMax? || t.pc.Push?)
  }

  predicate PastMax(t: Thread) {
    Busy(t) && t.pc.Push?
  }

  function TotalInFlight(t: Thread): real {
    if PastTotal(t) then t.work[t.done] else 0.0
  }

  function CountInFlight(t: Thread): int {
    if PastCount(t) then 1 else 0
  }

  function MinInFlight(t: Thread): multiset<real> {
    if PastMin(t) then multiset{t.work[t.done]} else multiset{}
  }

  function MaxInFlight(t: Thread): multiset<real> {
    if PastMax(t) then multiset{t.work[t.done]} else multiset{}
  }

  function Pushed(t: Thread): multiset<real> {
    if t.done <= |t.work| then multiset(t.work[..t.done]) else multiset{}
  }

  /* ----- the invariant ----- */

  predicate ThreadInv(sh: Shared, t: Thread) {
    && t.done <= |t.work|
    && (!Busy(t) ==> t.pc.LoadTotal?)
    && (t.pc.CasMin? ==> AtMost(sh.min, t.seenMin))
    && (t.pc.CasMax? ==> t.seenMax <= sh.max)
  }

  ghost predicate Books(s: State) {
    && s.shared.total == Sum(s.shared.samples) + RealTotal(s.threads, TotalInFlight)
    && s.shared.count == |s.shared.samples| + Total(s.threads, CountInFlight)
    && multiset(s.shared.samples) == Bag(s.threads, Pushed)
    && IsMinimum(multiset(s.shared.samples) + Bag(s.threads, MinInFlight), s.shared.min)
    && IsMaximum(multiset(s.shared.samples) + Bag(s.threads, MaxInFlight), s.shared.max)
  }

  ghost predicate Inv(works: seq<seq<real>>, s: State) {
    && Books(s)
    && |s.threads| == |works|
    && (forall i :: 0 <= i < |works| ==> s.threads[i].work == works[i])
    && (forall t :: t in s.threads ==> ThreadInv(s.shared, t))
  }

  lemma {:induction false} NothingYet(ts: seq<Thread>)
    requires forall t :: t in ts ==> t.done == 0 && t.pc.LoadTotal?
    ensures RealTotal(ts, TotalInFlight) == 0.0 && Total(ts, CountInFlight) == 0
    ensures Bag(ts, Pushed) == Bag(ts, MinInFlight) == Bag(ts, MaxInFlight) == multiset{}
  {
    if |ts| > 0 {
      NothingYet(ts[1..]);
      assert ts[0] in ts;
    }
  }

  // The minimum never rises and the maximum never falls.
  lemma Monotone(s: State, s': State)
    requires Next(s, s') && forall t :: t in s.threads ==> ThreadInv(s.shared, t)
    ensures AtMost(s'.shared.min, s.shared.min) && s.shared.max <= s'.shared.max
  {
    var i: nat, fails: bool :| ThreadStep(s, s', i, fails);
    assert ThreadInv(s.shared, s.threads[i]);
  }

  lemma SumAppend(xs: seq<real>, x: real)
    ensures Sum(xs + [x]) == Sum(xs) + x
  {
    assert (xs + [x])[..|xs|] == xs;
  }

  function Sample(t: Thread): real
    requires Busy(t)
  {
    t.work[t.done]
  }

  // What one operation does to the accumulators, balanced against what it does to the samples in flight.
  lemma OperationTotals(sh: Shared, t: Thread, fails: bool)
    requires Busy(t)
    ensures var (sh', t') := Operation(sh, t, fails);
            && sh'.samples == (if t.pc.Push? then sh.samples + [Sample(t)] else sh.samples)
            && sh'.total - sh.total ==
                 TotalInFlight(t') - TotalInFlight(t) + (if t.pc.Push? then Sample(t) else 0.0)
            && sh'.count - sh.count ==
                 CountInFlight(t') - CountInFlight(t) + (if t.pc.Push? then 1 else 0)
  {
  }

  lemma OperationPushes(sh: Shared, t: Thread, fails: bool)
    requires Busy(t)
    ensures Pushed(Operation(sh, t, fails).1) == Pushed(t) + Pushing(t)
  {
    if t.pc.Push? {
      assert t.work[..t.done + 1] == t.work[..t.done] + [t.work[t.done]];
    }
  }

  // A thread leaves its minimum loop having lowered the minimum to its sample or having seen it lower.
  lemma OperationMinimum(sh: Shared, t: Thread, fails: bool)
    requires Busy(t) && ThreadInv(sh, t)
    ensures var (sh', t') := Operation(sh, t, fails);
            sh'.min == if t.pc.CasMin? && t'.pc.LoadMax? && Below(Sample(t), sh.min) then Finite(Sample(t)) else sh.min
  {
  }

  predicate SameSample(t: Thread, t': Thread) {
    t'.work == t.work && t'.done == t.done
  }

  // Which loops a thread has passed changes only when it leaves one, or when its sample is pushed.
  lemma OperationStages(sh: Shared, t: Thread, fails: bool)
    requires Busy(t)
    ensures var t' := Operation(sh, t, fails).1;
            if t.pc.Push? then !PastMin(t') && !PastMax(t')
            else
              && SameSample(t, t')
              && (PastMin(t') <==> PastMin(t) || (t.pc.CasMin? && t'.pc.LoadMax?))
              && (PastMax(t') <==> PastMax(t) || (t.pc.CasMax? && t'.pc.Push?))
  {
  }

  function Pushing(t: Thread): multiset<real>
    requires Busy(t)
  {
    if t.pc.Push? then multiset{Sample(t)} else multiset{}
  }

  lemma OperationMaximum(sh: Shared, t: Thread, fails: bool)
    requires Busy(t) && ThreadInv(sh, t)
    ensures var (sh', t') := Operation(sh, t, fails);
            sh'.max == if t.pc.CasMax? && t'.pc.Push? && Sample(t) > sh.max then Sample(t) else sh.max
  {
  }

  lemma StepTotals(s: State, s': State, i: nat, fails: bool)
    requires Books(s) && ThreadStep(s, s', i, fails)
    ensures s'.shared.total == Sum(s'.shared.samples) + RealTotal(s'.threads, TotalInFlight)
    ensures s'.shared.count == |s'.shared.samples| + Total(s'.threads, CountInFlight)
  {
    OperationTotals(s.shared, s.threads[i], fails);
    SumAppend(s.shared.samples, Sample(s.threads[i]));
    RealTotalUpdate(s.threads, i, s'.threads[i], TotalInFlight);
    TotalUpdate(s.threads, i, s'.threads[i], CountInFlight);
  }

  lemma StepSamples(s: State, s': State, i: nat, fails: bool)
    requires Books(s) && ThreadStep(s, s', i, fails)
    ensures multiset(s'.shared.samples) == Bag(s'.threads, Pushed)
  {
    var t, t' := s.threads[i], s'.threads[i];
    OperationTotals(s.shared, t, fails);
    OperationPushes(s.shared, t, fails);
    BagUpdate(s.threads, i, t', Pushed);
    var push := Pushing(t);
    Cancel(Bag(s'.threads, Pushed), Pushed(t), Bag(s.threads, Pushed), push);
    assert multiset(s'.shared.samples) == multiset(s.shared.samples) + push;
  }

  lemma Cancel(b': multiset<real>, f: multiset<real>, b: multiset<real>, gain: multiset<real>)
    requires b' + f == b + (f + gain)
    ensures b' == b + gain
  {
    forall x ensures b'[x] == (b + gain)[x] {
      assert (b' + f)[x] == (b + (f + gain))[x];
    }
  }

  // Bags b and b' differ by what the moving thread contributes, f and f'; pushed samples move from one to s.
  lemma Rebalance(s: multiset<real>, push: multiset<real>, b: multiset<real>, f: multiset<real>,
                  b': multiset<real>, f': multiset<real>, gain: multiset<real>)
    requires b' + f == b + f' && f' + push == f + gain
    ensures s + push + b' == s + b + gain
  {
    forall x ensures (s + push + b')[x] == (s + b + gain)[x] {
      assert (b' + f)[x] == (b + f')[x] && (f' + push)[x] == (f + gain)[x];
    }
  }

  lemma StepMinimum(s: State, s': State, i: nat, fails: bool)
    requires Books(s) && ThreadStep(s, s', i, fails) && ThreadInv(s.shared, s.threads[i])
    ensures IsMinimum(multiset(s'.shared.samples) + Bag(s'.threads, MinInFlight), s'.shared.min)
  {
    var t := s.threads[i];
    var b := multiset(s.shared.samples) + Bag(s.threads, MinInFlight);
    OperationTotals(s.shared, t, fails);
    OperationMinimum(s.shared, t, fails);
    OperationStages(s.shared, t, fails);
    BagUpdate(s.threads, i, s'.threads[i], MinInFlight);
    MinimumGrows(b, s.shared.min, Sample(t));
    var push := Pushing(t);
    var gain := if t.pc.CasMin? && s'.threads[i].pc.LoadMax? then multiset{Sample(t)} else multiset{};
    assert MinInFlight(s'.threads[i]) + push == MinInFlight(t) + gain;
    Rebalance(multiset(s.shared.samples), push, Bag(s.threads, MinInFlight), MinInFlight(t),
              Bag(s'.threads, MinInFlight), MinInFlight(s'.threads[i]), gain);
    assert multiset(s'.shared.samples) == multiset(s.shared.samples) + push;
    assert b + multiset{} == b;
  }

  lemma StepMaximum(s: State, s': State, i: nat, fails: bool)
    requires Books(s) && ThreadStep(s, s', i, fails) && ThreadInv(s.shared, s.threads[i])
    ensures IsMaximum(multiset(s'.shared.samples) + Bag(s'.threads, MaxInFlight), s'.shared.max)
  {
    var t := s.threads[i];
    var b := multiset(s.shared.samples) + Bag(s.threads, MaxInFlight);
    OperationTotals(s.shared, t, fails);
    OperationMaximum(s.shared, t, fails);
    OperationStages(s.shared, t, fails);
    BagUpdate(s.threads, i, s'.threads[i], MaxInFlight);
    MaximumGrows(b, s.shared.max, Sample(t));
    var push := Pushing(t);
    var gain := if t.pc.CasMax? && s'.threads[i].pc.Push? then multiset{Sample(t)} else multiset{};
    assert MaxInFlight(s'.threads[i]) + push == MaxInFlight(t) + gain;
    Rebalance(multiset(s.shared.samples), push, Bag(s.threads, MaxInFlight), MaxInFlight(t),
              Bag(s'.threads, MaxInFlight), MaxInFlight(s'.threads[i]), gain);
    assert multiset(s'.shared.samples) == multiset(s.shared.samples) + push;
    assert b + multiset{} == b;
  }

  lemma OperationKeepsThread(sh: Shared, t: Thread, fails: bool)
    requires Busy(t) && ThreadInv(sh, t)
    ensures var (sh', t') := Operation(sh, t, fails); ThreadInv(sh', t') && t'.work == t.work
    ensures var (sh', t') := Operation(sh, t, fails); AtMost(sh'.min, sh.min) && sh.max <= sh'.max
  {
  }

  lemma StepInv(works: seq<seq<real>>, s: State, s': State, i: nat, fails: bool)
    requires Inv(works, s) && ThreadStep(s, s', i, fails)
    ensures Inv(works, s')
  {
    OperationKeepsThread(s.shared, s.threads[i], fails);
    StepTotals(s, s', i, fails);
    StepSamples(s, s', i, fails);
    StepMinimum(s, s', i, fails);
    StepMaximum(s, s', i, fails);
    forall u | u in s'.threads ensures ThreadInv(s'.shared, u) {
      var j :| 0 <= j < |works| && u == s'.threads[j];
      if j != i {
        assert ThreadInv(s.shared, s.threads[j]);
      }
    }
  }

  lemma InvInductive(works: seq<seq<real>>)
    ensures Inductive(s => Inv(works, s), s => Init(s, works), (s, s') => Next(s, s'))
  {
    var init, next, inv := s => Init(s, works), (s, s') => Next(s, s'), s => Inv(works, s);
    forall s | init(s) ensures inv(s) {
      NothingYet(s.threads);
    }
    forall s, s' | inv(s) && next(s, s') ensures inv(s') {
      var i: nat, fails: bool :| ThreadStep(s, s', i, fails);
      StepInv(works, s, s', i, fails);
    }
  }

  lemma InRunInv(works: seq<seq<real>>, s: State)
    requires InRun(works, s)
    ensures Inv(works, s)
  {
    InvInductive(works);
    ReachableKeeps(s, s => Init(s, works), (s, s') => Next(s, s'), s => Inv(works, s));
  }

  /* ----- main results ----- */

  predicate Quiet(s: State) {
    forall t :: t in s.threads ==> !Busy(t)
  }

  function Work(w: seq<real>): multiset<real> {
    multiset(w)
  }

  lemma QuietSamples(works: seq<seq<real>>, s: State)
    requires Inv(works, s) && Quiet(s)
    ensures Bag(s.threads, Pushed) == Bag(works, Work)
  {
    forall i | 0 <= i < |works| ensures Pushed(s.threads[i]) == Work(works[i]) {
      assert s.threads[i] in s.threads;
      assert works[i][..|works[i]|] == works[i];
    }
    FoldAgree(BAGS, s.threads, works, Pushed, Work);
  }

  // Whatever the interleaving, once every submission is over the samples are exactly those submitted, the
  // total their sum, the count their number, the minimum and maximum theirs (with 0 as initial maximum).
  lemma Quiescence(works: seq<seq<real>>, s: State)
    requires InRun(works, s) && Quiet(s)
    ensures multiset(s.shared.samples) == Bag(works, Work)
    ensures s.shared.total == Sum(s.shared.samples)
    ensures s.shared.count == |s.shared.samples|
    ensures IsMinimum(multiset(s.shared.samples), s.shared.min)
    ensures IsMaximum(multiset(s.shared.samples), s.shared.max)
  {
    InRunInv(works, s);
    QuietBooks(s.threads);
    QuietSamples(works, s);
    var b := multiset(s.shared.samples);
    assert b + multiset{} == b;
  }

  lemma {:induction false} QuietBooks(ts: seq<Thread>)
    requires forall t :: t in ts ==> !Busy(t)
    ensures RealTotal(ts, TotalInFlight) == 0.0 && Total(ts, CountInFlight) == 0
    ensures Bag(ts, MinInFlight) == Bag(ts, MaxInFlight) == multiset{}
  {
    if |ts| > 0 {
      QuietBooks(ts[1..]);
      assert ts[0] in ts;
    }
  }

  // The recorded maximum is the largest of the samples, of which there is at least one.
  predicate MaximumRecorded(sh: Shared) {
    sh.max in sh.samples && forall x :: x in sh.samples ==> x <= sh.max
  }

  predicate Submits(works: seq<seq<real>>, x: real) {
    exists i :: 0 <= i < |works| && x in works[i]
  }

  predicate SomeNotNegative(works: seq<seq<real>>) {
    exists i, k :: 0 <= i < |works| && 0 <= k < |works[i]| && works[i][k] >= 0.0
  }

  lemma SubmittedSample(works: seq<seq<real>>, s: State, x: real)
    requires multiset(s.shared.samples) == Bag(works, Work)
    ensures x in s.shared.samples <==> Submits(works, x)
  {
    BagMember(works, Work, x);
    assert x in s.shared.samples <==> x in multiset(s.shared.samples);
    assert forall i :: 0 <= i < |works| ==> (x in Work(works[i]) <==> x in works[i]);
  }

  lemma MaximumInState(works: seq<seq<real>>, s: State)
    requires InRun(works, s) && Quiet(s)
    ensures MaximumRecorded(s.shared) <==> SomeNotNegative(works)
  {
    Quiescence(works, s);
    assert forall x :: x in s.shared.samples <==> x in multiset(s.shared.samples);
    if MaximumRecorded(s.shared) {
      SubmittedSample(works, s, s.shared.max);
      var i :| 0 <= i < |works| && s.shared.max in works[i];
      var k :| 0 <= k < |works[i]| && works[i][k] == s.shared.max;
    }
    if i, k :| 0 <= i < |works| && 0 <= k < |works[i]| && works[i][k] >= 0.0 {
      SubmittedSample(works, s, works[i][k]);
    }
  }

  // The maximum recorded in the end is the largest submitted sample exactly when some sample is not below the
  // initial 0.
  lemma MaximumIff(works: seq<seq<real>>)
    ensures (forall s :: InRun(works, s) && Quiet(s) ==> MaximumRecorded(s.shared)) <==> SomeNotNegative(works)
  {
    forall s | InRun(works, s) && Quiet(s) ensures MaximumRecorded(s.shared) <==> SomeNotNegative(works) {
      MaximumInState(works, s);
    }
    var s := QuietFromStart(works);
  }

  // Whatever negative samples are submitted, a 0 that is none of them is recorded.
  lemma NegativesLost(works: seq<seq<real>>) returns (s: State)
    requires !SomeNotNegative(works)
    ensures InRun(works, s) && Quiet(s) && s.shared.max == 0.0 && 0.0 !in s.shared.samples
    ensures multiset(s.shared.samples) == Bag(works, Work)
  {
    s := QuietFromStart(works);
    Quiescence(works, s);
    SubmittedSample(works, s, s.shared.max);
    SubmittedSample(works, s, 0.0);
  }

  // Counts operations, with one extra for a compare-exchange whose expected value is up to date.
  function Rank(sh: Shared, t: Thread): nat {
    16 * t.done
    + match t.pc
      case LoadTotal => 0
      case CasTotal => if sh.total == t.seenTotal then 2 else 1
      case Count => 4
      case LoadMin => 5
      case CasMin => if sh.min == t.seenMin then 7 else 6
      case LoadMax => 8
      case CasMax => if sh.max == t.seenMax then 10 else 9
      case Push => 11
  }

  lemma AloneRankRises(sh: Shared, t: Thread)
    requires Busy(t)
    ensures var (sh', t') := Operation(sh, t, false); Rank(sh, t) < Rank(sh', t') <= 16 * |t.work|
  {
  }

  // A thread left alone finishes all its submissions, with at most 16 operations for each.
  lemma {:induction false} AloneItFinishes(run: seq<State>, i: nat, k: nat)
    requires k < |run| && i < |run[0].threads|
    requires forall j :: 0 <= j < |run| - 1 ==> ThreadStep(run[j], run[j + 1], i, false)
    ensures i < |run[k].threads| && run[k].threads[i].work == run[0].threads[i].work
    ensures k <= Rank(run[k].shared, run[k].threads[i])
    ensures k > 0 ==> k <= 16 * |run[0].threads[i].work|
  {
    if k > 0 {
      AloneItFinishes(run, i, k - 1);
      assert ThreadStep(run[k - 1], run[k - 1 + 1], i, false);
      AloneRankRises(run[k - 1].shared, run[k - 1].threads[i]);
    }
  }

  /* ----- all threads together, without spurious failures ----- */

  // The expected value of a compare-exchange is up to date.
  function Current(sh: Shared): Thread -> int {
    (t: Thread) =>
      match t.pc
      case CasTotal => if sh.total == t.seenTotal then 1 else 0
      case CasMin => if sh.min == t.seenMin then 1 else 0
      case CasMax => if sh.max == t.seenMax then 1 else 0
      case _ => 0
  }

  function Stage(t: Thread): int {
    8 * t.done
    + match t.pc
      case LoadTotal => 0
      case CasTotal => 1
      case Count => 2
      case LoadMin => 3
      case CasMin => 4
      case LoadMax => 5
      case CasMax => 6
      case Push => 7
  }

  // An operation completes its stage, or is a compare-exchange with an outdated value that it now brings up to date.
  lemma OperationCompletes(sh: Shared, t: Thread)
    requires Busy(t)
    ensures var (sh', t') := Operation(sh, t, false);
            || Stage(t') == Stage(t) + 1
            || (Stage(t') == Stage(t) && sh' == sh && Current(sh)(t) == 0 && Current(sh)(t') == 1)
  {
  }

  // A completed stage outweighs all the expected values it may have outdated.
  function Weighted(n: nat, stages: int, current: int): int {
    stages * (n + 1) + current
  }

  ghost function Progress(n: nat, s: State): int {
    Weighted(n, Total(s.threads, Stage), Total(s.threads, Current(s.shared)))
  }

  lemma StepProgresses(n: nat, s: State, s': State, i: nat)
    requires ThreadStep(s, s', i, false) && |s.threads| == n
    ensures Progress(n, s) < Progress(n, s')
  {
    var t, t' := s.threads[i], s'.threads[i];
    OperationCompletes(s.shared, t);
    TotalUpdate(s.threads, i, t', Stage);
    if Stage(t') == Stage(t) {
      TotalUpdate(s.threads, i, t', Current(s.shared));
    } else {
      CountBounds(s.threads, Current(s.shared));
      CountBounds(s'.threads, Current(s'.shared));
      Outweighs(n, Total(s.threads, Stage), Total(s.threads, Current(s.shared)), Total(s'.threads, Current(s'.shared)));
    }
  }

  lemma Outweighs(n: nat, stages: int, current: int, current': int)
    requires current <= n && 0 <= current'
    ensures Weighted(n, stages, current) < Weighted(n, stages + 1, current')
  {
    assert (stages + 1) * (n + 1) == stages * (n + 1) + n + 1;
  }

  function Operations(w: seq<real>): int {
    8 * |w|
  }

  // What there is to do when the submissions are `works`.
  ghost function Bound(works: seq<seq<real>>): int {
    Weighted(|works|, Total(works, Operations), |works|)
  }

  lemma StagesBounded(works: seq<seq<real>>, s: State)
    requires Inv(works, s)
    ensures 0 <= Total(s.threads, Stage) <= Total(works, Operations)
  {
    forall i | 0 <= i < |works| ensures 0 <= Stage(s.threads[i]) <= Operations(works[i]) {
      assert ThreadInv(s.shared, s.threads[i]);
    }
    TotalAtMost(s.threads, works, Stage, Operations);
    TotalAtMost(s.threads, s.threads, (t: Thread) => 0, Stage);
    CountBounds(s.threads, (t: Thread) => 0);
  }

  lemma {:induction false} ProgressBounded(works: seq<seq<real>>, s: State)
    requires Inv(works, s)
    ensures 0 <= Progress(|works|, s) <= Bound(works)
  {
    StagesBounded(works, s);
    CountBounds(s.threads, Current(s.shared));
    WeightBounded(|works|, Total(s.threads, Stage), Total(works, Operations), Total(s.threads, Current(s.shared)));
  }

  lemma WeightBounded(n: nat, stages: int, operations: int, current: int)
    requires 0 <= stages <= operations && 0 <= current <= n
    ensures 0 <= Weighted(n, stages, current) <= Weighted(n, operations, n)
  {
    assert 0 <= stages * (n + 1) <= operations * (n + 1);
  }

  ghost predicate SoundNext(s: State, s': State) {
    exists i: nat :: ThreadStep(s, s', i, false)
  }

  // However the threads interleave, a run without spurious failures is over after a bounded number of
  // operations, and only when every submission is: somebody else's success is behind every failure.
  lemma EveryRunEnds(works: seq<seq<real>>, run: seq<State>)
    requires IsRun(run, s => Init(s, works), (s, s') => SoundNext(s, s'))
    ensures |run| <= Bound(works) + 1
    ensures Final(run[|run| - 1], (s, s') => SoundNext(s, s')) ==> Quiet(run[|run| - 1])
  {
    var n, init, next, inv := |works|, s => Init(s, works), (s, s') => SoundNext(s, s'), s => Inv(works, s);
    InvInductive(works);
    forall s | inv(s) ensures 0 <= Progress(n, s) <= Bound(works) {
      ProgressBounded(works, s);
    }
    forall s, s' | inv(s) && next(s, s') ensures inv(s') && Progress(n, s) < Progress(n, s') {
      var i: nat :| ThreadStep(s, s', i, false);
      StepInv(works, s, s', i, false);
      StepProgresses(|works|, s, s', i);
    }
    RunsAreShort(run, init, next, inv, s => Progress(n, s), Bound(works));
    var last := run[|run| - 1];
    if !Quiet(last) {
      var s', i := SomeStep(last);
      assert next(last, s');
    }
  }

  lemma SomeStep(s: State) returns (s': State, i: nat)
    requires !Quiet(s)
    ensures ThreadStep(s, s', i, false)
  {
    var t :| t in s.threads && Busy(t);
    i :| i < |s.threads| && s.threads[i] == t;
    var (sh, u) := Operation(s.shared, t, false);
    s' := State(sh, s.threads[i := u]);
  }

  // All submissions can still be finished, whatever has happened so far.
  lemma {:induction false} QuietFollows(works: seq<seq<real>>, s: State) returns (q: State)
    requires InRun(works, s)
    ensures InRun(works, q) && Quiet(q)
    decreases Bound(works) - Progress(|works|, s)
  {
    q := s;
    if !Quiet(s) {
      var s', i := SomeStep(s);
      assert Next(s, s');
      ReachableStep(s, s', s => Init(s, works), (s, s') => Next(s, s'));
      InRunInv(works, s);
      StepProgresses(|works|, s, s', i);
      InRunInv(works, s');
      ProgressBounded(works, s');
      q := QuietFollows(works, s');
    }
  }

  lemma QuietFromStart(works: seq<seq<real>>) returns (q: State)
    ensures InRun(works, q) && Quiet(q)
  {
    var s := State(Shared(0.0, 0, Infinity, 0.0, []),
                   seq(|works|, i requires 0 <= i < |works| => Thread(works[i], 0, LoadTotal, 0.0, Infinity, 0.0)));
    ReachableStart(s, s => Init(s, works), (s, s') => Next(s, s'));
    q := QuietFollows(works, s);
  }

  // Thread j leaves a compare-exchange loop having changed the shared value.
  ghost predicate Succeeds(s: State, s': State, j: nat) {
    && j < |s.threads| == |s'.threads|
    && (s.threads[j].pc.CasTotal? || s.threads[j].pc.CasMin? || s.threads[j].pc.CasMax?)
    && s'.threads[j].pc != s.threads[j].pc
    && (s'.shared.total != s.shared.total || s'.shared.min != s.shared.min || s'.shared.max != s.shared.max)
  }

  lemma OutdatedBy(s: State, s': State, i: nat)
    requires Next(s, s') && i < |s.threads| == |s'.threads| && s'.threads[i] == s.threads[i]
    requires Current(s.shared)(s.threads[i]) == 1 && Current(s'.shared)(s.threads[i]) == 0
    ensures exists j: nat :: j != i && Succeeds(s, s', j)
  {
    var j: nat, fails: bool :| ThreadStep(s, s', j, fails);
    assert j != i && Succeeds(s, s', j);
  }

  // Thread i has waited since its expected value was current. If its compare-exchange fails now for any reason
  // but a spurious one, another thread has succeeded in the meantime.
  lemma {:induction false} FailureMeansSuccess(run: seq<State>, i: nat, b: nat) returns (k: nat, j: nat)
    requires 0 < b < |run| && i < |run[0].threads| && Current(run[0].shared)(run[0].threads[i]) == 1
    requires forall a :: 0 <= a < |run| - 1 ==> Next(run[a], run[a + 1])
    requires forall a :: 0 <= a < |run| ==>
               |run[a].threads| == |run[0].threads| && run[a].threads[i] == run[0].threads[i]
    requires Current(run[b].shared)(run[0].threads[i]) == 0
    ensures k < b && j != i && Succeeds(run[k], run[k + 1], j)
  {
    assert Next(run[b - 1], run[b - 1 + 1]);
    if Current(run[b - 1].shared)(run[0].threads[i]) == 1 {
      OutdatedBy(run[b - 1], run[b], i);
      k := b - 1;
      j :| j != i && Succeeds(run[b - 1], run[b], j);
    } else {
      k, j := FailureMeansSuccess(run, i, b - 1);
    }
  }
}
