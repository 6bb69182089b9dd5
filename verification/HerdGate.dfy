// The one-shot start gate of the thundering-herd workload. Unlike the barrier it waits in a loop on a
// flag, so its promise holds even when the condition variable wakes threads for no reason.
module HerdGate {
  import opened Folding
  import opened Runs

  datatype Pc =
    | Coming      // wants the mutex
    | Entered     // holds it, will increment ready_threads
    | Comparing   // holds it, will compare ready_threads with num_threads
    | Opening     // holds it, will set all_ready
    | Broadcasting
    | Testing     // holds it, tests all_ready in the wait loop
    | Asleep      // in pthread_cond_wait, mutex released
    | Woken       // wants the mutex back
    | Exiting     // holds it, will unlock and go on
    | Passed

  datatype Owner = Nobody | By(id: nat)

  datatype State = State(owner: Owner, ready: nat, open: bool, threads: seq<Pc>)

  ghost predicate Init(s: State, n: nat) {
    s == State(Nobody, 0, false, seq(n, _ => Coming))
  }

  predicate Enabled(s: State, i: nat) {
    && i < |s.threads|
    && match s.threads[i]
       case Coming => s.owner.Nobody?
       case Woken => s.owner.Nobody?
       case Asleep => false
       case Passed => false
       case _ => true
  }

  function Wake(pc: Pc): Pc {
    if pc.Asleep? then Woken else pc
  }

  function Step(s: State, i: nat): State
    requires i < |s.threads|
  {
    match s.threads[i]
    case Coming => s.(owner := By(i), threads := s.threads[i := Entered])
    case Entered => s.(ready := s.ready + 1, threads := s.threads[i := Comparing])
    case Comparing => s.(threads := s.threads[i := if s.ready == |s.threads| then Opening else Testing])
    case Opening => s.(open := true, threads := s.threads[i := Broadcasting])
    case Broadcasting =>
      s.(threads := seq(|s.threads|, j requires 0 <= j < |s.threads| =>
                          if j == i then Exiting else Wake(s.threads[j])))
    case Testing =>
      if s.open then s.(threads := s.threads[i := Exiting])
      else s.(owner := Nobody, threads := s.threads[i := Asleep])
    case Woken => s.(owner := By(i), threads := s.threads[i := Testing])
    case Exiting => s.(owner := Nobody, threads := s.threads[i := Passed])
    case Asleep => s
    case Passed => s
  }

  ghost predicate SpuriousWake(s: State, s': State, i: nat) {
    i < |s.threads| && s.threads[i].Asleep? && s' == s.(threads := s.threads[i := Woken])
  }

  // An ordinary step or, if `spurious`, a wakeup without a signal.
  ghost predicate Next(spurious: bool, s: State, s': State) {
    || (exists i: nat :: Enabled(s, i) && s' == Step(s, i))
    || (spurious && exists i: nat :: SpuriousWake(s, s', i))
  }

  ghost predicate InRun(spurious: bool, n: nat, s: State) {
    Reachable(s, s => Init(s, n), (s, s') => Next(spurious, s, s'))
  }

  predicate HasMutex(pc: Pc) {
    pc.Entered? || pc.Comparing? || pc.Opening? || pc.Broadcasting? || pc.Testing? || pc.Exiting?
  }

  function Arrived(pc: Pc): int {
    if pc.Coming? || pc.Entered? then 0 else 1
  }

  predicate AtWork(s: State, i: nat, pc: Pc) {
    i < |s.threads| && s.threads[i] == pc && s.owner == By(i)
  }

  // An open gate leaves nobody asleep once the broadcast is done: no wakeup is lost.
  predicate ThreadInv(s: State, i: nat)
    requires i < |s.threads|
  {
    var pc, n := s.threads[i], |s.threads|;
    && (HasMutex(pc) <==> s.owner == By(i))
    && (pc.Comparing? ==> !s.open)
    && (pc.Opening? ==> s.ready == n && !s.open)
    && (pc.Broadcasting? || pc.Exiting? || pc.Passed? ==> s.open)
    && (pc.Asleep? && s.open ==> s.owner.By? && AtWork(s, s.owner.id, Broadcasting))
  }

  ghost predicate Inv(n: nat, s: State) {
    && |s.threads| == n
    && (s.owner.By? ==> s.owner.id < n)
    && (forall i :: 0 <= i < n ==> ThreadInv(s, i))
    && s.ready == Total(s.threads, Arrived)
    && (s.open ==> s.ready == n)
    && (s.ready == n > 0 && !s.open ==>
          s.owner.By? && (AtWork(s, s.owner.id, Comparing) || AtWork(s, s.owner.id, Opening)))
  }

  lemma StepInv(n: nat, s: State, i: nat)
    requires Inv(n, s) && Enabled(s, i)
    ensures Inv(n, Step(s, i))
  {
    var s' := Step(s, i);
    assert ThreadInv(s, i);
    CountBounds(s.threads, Arrived);
    if s.threads[i].Broadcasting? {
      FoldAgree(INTEGERS, s.threads, s'.threads, Arrived, Arrived);
    } else {
      TotalUpdate(s.threads, i, s'.threads[i], Arrived);
    }
    CountBounds(s'.threads, Arrived);
    forall j | 0 <= j < n ensures ThreadInv(s', j) {
      assert ThreadInv(s, j);
    }
  }

  lemma WakeInv(n: nat, s: State, s': State, i: nat)
    requires Inv(n, s) && SpuriousWake(s, s', i)
    ensures Inv(n, s')
  {
    TotalUpdate(s.threads, i, Woken, Arrived);
    forall j | 0 <= j < n ensures ThreadInv(s', j) {
      assert ThreadInv(s, j) && ThreadInv(s, i);
    }
  }

  // Without spurious wakeups only an open gate wakes anybody.
  predicate Prompted(spurious: bool, s: State) {
    !spurious && !s.open ==> Woken !in s.threads
  }

  lemma StepPrompted(n: nat, s: State, i: nat)
    requires Inv(n, s) && Prompted(false, s) && Enabled(s, i)
    ensures Prompted(false, Step(s, i))
  {
    assert ThreadInv(s, i);
  }

  lemma InvInductive(spurious: bool, n: nat)
    ensures Inductive(s => Inv(n, s) && Prompted(spurious, s), s => Init(s, n), (s, s') => Next(spurious, s, s'))
  {
    var init, next := s => Init(s, n), (s, s') => Next(spurious, s, s');
    var inv := s => Inv(n, s) && Prompted(spurious, s);
    forall s | init(s) ensures inv(s) {
      CountBounds(s.threads, Arrived);
    }
    forall s, s' | inv(s) && next(s, s') ensures inv(s') {
      if i: nat :| Enabled(s, i) && s' == Step(s, i) {
        StepInv(n, s, i);
        if !spurious {
          StepPrompted(n, s, i);
        }
      } else {
        var i: nat :| SpuriousWake(s, s', i);
        WakeInv(n, s, s', i);
      }
    }
  }

  lemma InRunInv(spurious: bool, n: nat, s: State)
    requires InRun(spurious, n, s)
    ensures Inv(n, s) && Prompted(spurious, s)
  {
    InvInductive(spurious, n);
    ReachableKeeps(s, s => Init(s, n), (s, s') => Next(spurious, s, s'), s => Inv(n, s) && Prompted(spurious, s));
  }

  /* ----- main results ----- */

  // All threads start together: nobody is through before everybody has come.
  lemma NobodyStartsEarly(spurious: bool, n: nat, s: State, i: nat, j: nat)
    requires InRun(spurious, n, s) && i < n && j < n
    ensures |s.threads| == n && (s.threads[i].Passed? ==> Arrived(s.threads[j]) == 1 && s.ready == n)
  {
    InRunInv(spurious, n, s);
    assert ThreadInv(s, i);
    CountBounds(s.threads, Arrived);
  }

  predicate AllPassed(s: State) {
    forall pc :: pc in s.threads ==> pc.Passed?
  }

  // No wakeup is lost: behind an open gate nobody sleeps except while the broadcast is still to come, and until
  // all have passed some thread can step.
  lemma NoLostWakeup(spurious: bool, n: nat, s: State)
    requires InRun(spurious, n, s)
    ensures s.open && Asleep in s.threads ==> s.owner.By? && AtWork(s, s.owner.id, Broadcasting)
    ensures !AllPassed(s) ==> exists i: nat :: Enabled(s, i)
  {
    InRunInv(spurious, n, s);
    if Asleep in s.threads {
      var i: nat :| i < n && s.threads[i].Asleep?;
      assert ThreadInv(s, i);
    }
    if !AllPassed(s) {
      SomeoneEnabled(n, s);
    }
  }

  lemma SomeoneEnabled(n: nat, s: State)
    requires Inv(n, s) && !AllPassed(s)
    ensures exists i: nat :: Enabled(s, i)
  {
    if s.owner.By? {
      assert ThreadInv(s, s.owner.id);
      assert Enabled(s, s.owner.id);
    } else {
      CountBounds(s.threads, Arrived);
      if s.ready == n {
        var pc :| pc in s.threads && !pc.Passed?;
        var i: nat :| i < n && s.threads[i] == pc;
        assert ThreadInv(s, i);
        assert Enabled(s, i);
      } else {
        var i: nat :| i < n && Arrived(s.threads[i]) != 1;
        assert ThreadInv(s, i);
        assert Enabled(s, i);
      }
    }
  }

  // How far a thread has come; testing an open gate is the last thing before leaving.
  function Position(open: bool): Pc -> int {
    (pc: Pc) =>
      match pc
      case Coming => 0
      case Entered => 1
      case Comparing => 2
      case Testing => if open then 6 else 3
      case Opening => 3
      case Broadcasting => 4
      case Asleep => 4
      case Woken => 5
      case Exiting => 7
      case Passed => 8
  }

  lemma StepRises(n: nat, s: State, i: nat)
    requires Inv(n, s) && Prompted(false, s) && Enabled(s, i)
    ensures Total(s.threads, Position(s.open)) < Total(Step(s, i).threads, Position(Step(s, i).open))
  {
    assert ThreadInv(s, i);
    TotalRises(s.threads, Step(s, i).threads, i, Position(s.open), Position(Step(s, i).open));
  }

  // Without spurious wakeups every run is over after a bounded number of steps, and only when all have passed.
  lemma EveryRunEnds(n: nat, run: seq<State>)
    requires IsRun(run, s => Init(s, n), (s, s') => Next(false, s, s'))
    ensures |run| <= 8 * n + 1
    ensures Final(run[|run| - 1], (s, s') => Next(false, s, s')) ==> AllPassed(run[|run| - 1])
  {
    var init, next := s => Init(s, n), (s, s') => Next(false, s, s');
    var inv, measure := s => Inv(n, s) && Prompted(false, s), (s: State) => Total(s.threads, Position(s.open));
    InvInductive(false, n);
    forall s | inv(s) ensures 0 <= measure(s) <= 8 * n {
      TotalBounds(s.threads, Position(s.open), 8);
    }
    forall s, s' | inv(s) && next(s, s') ensures measure(s) < measure(s') {
      var i: nat :| Enabled(s, i) && s' == Step(s, i);
      StepRises(n, s, i);
    }
    RunsAreShort(run, init, next, inv, measure, 8 * n);
    var last := run[|run| - 1];
    if !AllPassed(last) {
      SomeoneEnabled(n, last);
      var i: nat :| Enabled(last, i);
      assert next(last, Step(last, i));
    }
  }
}
