// The mutex-and-condition barrier that replaces pthread_barrier_t, used `rounds` times by each of n threads.
// Every access to the barrier is one step, made while holding the mutex.
module Barrier {
  import opened Folding
  import opened Runs

  datatype Pc =
    | Outside       // not in the barrier
    | Entered       // holds the mutex, will increment count
    | Testing       // holds the mutex, will compare count with num_threads
    | Waiting       // asleep on the condition, mutex released
    | Woken         // signalled, wants the mutex back
    | Broadcasting  // holds the mutex, has reset count
    | LeavingLast   // holds the mutex, will return 1
    | LeavingWoken  // holds the mutex, will return 0

  // `arrivals` counts increments by this thread and `returned` lists what its waits returned (history).
  datatype Thread = Thread(pc: Pc, arrivals: nat, returned: seq<int>)

  datatype Owner = Nobody | By(id: nat)

  // `winners[k]` is the thread that reset count in round k (history).
  datatype State = State(owner: Owner, count: nat, winners: seq<nat>, threads: seq<Thread>)

  ghost predicate Init(s: State, n: nat) {
    s == State(Nobody, 0, [], seq(n, _ => Thread(Outside, 0, [])))
  }

  predicate Enabled(s: State, i: nat, rounds: nat) {
    && i < |s.threads|
    && match s.threads[i].pc
       case Outside => s.owner.Nobody? && |s.threads[i].returned| < rounds
       case Waiting => false
       case Woken => s.owner.Nobody?
       case _ => true
  }

  function Wake(t: Thread): Thread {
    if t.pc.Waiting? then t.(pc := Woken) else t
  }

  function Step(s: State, i: nat): State
    requires i < |s.threads|
  {
    var t := s.threads[i];
    match t.pc
    case Outside => State(By(i), s.count, s.winners, s.threads[i := t.(pc := Entered)])
    case Entered =>
      State(s.owner, s.count + 1, s.winners, s.threads[i := t.(pc := Testing, arrivals := t.arrivals + 1)])
    case Testing =>
      if s.count >= |s.threads| then State(s.owner, 0, s.winners + [i], s.threads[i := t.(pc := Broadcasting)])
      else State(Nobody, s.count, s.winners, s.threads[i := t.(pc := Waiting)])
    case Broadcasting =>
      State(s.owner, s.count, s.winners,
            seq(|s.threads|, j requires 0 <= j < |s.threads| =>
                  if j == i then t.(pc := LeavingLast) else Wake(s.threads[j])))
    case LeavingLast =>
      State(Nobody, s.count, s.winners, s.threads[i := t.(pc := Outside, returned := t.returned + [1])])
    case Woken => State(By(i), s.count, s.winners, s.threads[i := t.(pc := LeavingWoken)])
    case LeavingWoken =>
      State(Nobody, s.count, s.winners, s.threads[i := t.(pc := Outside, returned := t.returned + [0])])
    case Waiting => s
  }

  // POSIX lets pthread_cond_wait return without a signal; `spurious` says whether that may happen.
  ghost predicate SpuriousWake(s: State, s': State, i: nat) {
    && i < |s.threads|
    && s.threads[i].pc.Waiting?
    && s' == s.(threads := s.threads[i := Wake(s.threads[i])])
  }

  ghost predicate Next(spurious: bool, rounds: nat, s: State, s': State) {
    || (exists i: nat :: Enabled(s, i, rounds) && s' == Step(s, i))
    || (spurious && exists i: nat :: SpuriousWake(s, s', i))
  }

  ghost predicate InRun(spurious: bool, n: nat, rounds: nat, s: State) {
    Reachable(s, s => Init(s, n), (s, s') => Next(spurious, rounds, s, s'))
  }

  /* ----- the invariant ----- */

  predicate HasMutex(pc: Pc) {
    pc.Entered? || pc.Testing? || pc.Broadcasting? || pc.LeavingLast? || pc.LeavingWoken?
  }

  // The round is over (count reset) but the sleepers have not been woken yet.
  predicate Resetting(s: State) {
    s.owner.By? && s.owner.id < |s.threads| && s.threads[s.owner.id].pc.Broadcasting?
  }

  // Has arrived in the round that is being collected, round number |winners|.
  predicate InCurrent(s: State, t: Thread) {
    t.pc.Testing? || (t.pc.Waiting? && !Resetting(s))
  }

  predicate InFinished(s: State, t: Thread) {
    || t.pc.Woken? || t.pc.Broadcasting? || t.pc.LeavingLast? || t.pc.LeavingWoken?
    || (t.pc.Waiting? && Resetting(s))
  }

  predicate Won(s: State, i: nat, k: nat) {
    k < |s.winners| && s.winners[k] == i
  }

  predicate ThreadInv(s: State, rounds: nat, i: nat)
    requires i < |s.threads|
  {
    var t, g := s.threads[i], |s.winners|;
    && (HasMutex(t.pc) <==> s.owner == By(i))
    && t.arrivals == (if InCurrent(s, t) then g + 1 else g)
    && |t.returned| == (if InFinished(s, t) then g - 1 else g)
    && |t.returned| <= rounds
    && (!t.pc.Outside? ==> |t.returned| < rounds)
    && (InFinished(s, t) ==> (Won(s, i, g - 1) <==> t.pc.Broadcasting? || t.pc.LeavingLast?))
    && forall k :: 0 <= k < |t.returned| ==> t.returned[k] == (if Won(s, i, k) then 1 else 0)
  }

  ghost function Arrived(round: nat): Thread -> int {
    (t: Thread) => if t.arrivals == round then 1 else 0
  }

  ghost predicate Inv(n: nat, rounds: nat, s: State) {
    && |s.threads| == n
    && (s.owner.By? ==> s.owner.id < n)
    && (forall k :: 0 <= k < |s.winners| ==> s.winners[k] < n)
    && (forall i :: 0 <= i < n ==> ThreadInv(s, rounds, i))
    && s.count == Total(s.threads, Arrived(|s.winners| + 1))
    && (s.count < n || n == 0 || (s.owner.By? && s.threads[s.owner.id].pc.Testing?))
  }

  lemma InitInv(n: nat, rounds: nat, s: State)
    requires Init(s, n)
    ensures Inv(n, rounds, s)
  {
    CountBounds(s.threads, Arrived(1));
  }

  // When count reaches n, everybody has arrived: all the others are asleep.
  lemma FullHouse(n: nat, rounds: nat, s: State, i: nat)
    requires Inv(n, rounds, s) && i < n && s.threads[i].pc.Testing? && s.count >= n
    ensures forall j :: 0 <= j < n && j != i ==> s.threads[j].pc.Waiting?
  {
    CountBounds(s.threads, Arrived(|s.winners| + 1));
    forall j | 0 <= j < n && j != i ensures s.threads[j].pc.Waiting? {
      assert Arrived(|s.winners| + 1)(s.threads[j]) == 1;
      assert ThreadInv(s, rounds, j) && ThreadInv(s, rounds, i);
    }
  }

  lemma StepThreads(n: nat, rounds: nat, s: State, i: nat, j: nat)
    requires Inv(n, rounds, s) && Enabled(s, i, rounds) && j < n
    ensures |Step(s, i).threads| == n && ThreadInv(Step(s, i), rounds, j)
  {
    assert ThreadInv(s, rounds, i) && ThreadInv(s, rounds, j);
    if s.threads[i].pc.Testing? && s.count >= n {
      FullHouse(n, rounds, s, i);
    }
  }

  lemma StepCount(n: nat, rounds: nat, s: State, i: nat)
    requires Inv(n, rounds, s) && Enabled(s, i, rounds)
    ensures var s' := Step(s, i); s'.count == Total(s'.threads, Arrived(|s'.winners| + 1))
  {
    var s', f := Step(s, i), Arrived(|s.winners| + 1);
    assert ThreadInv(s, rounds, i);
    CountBounds(s.threads, f);
    if s.threads[i].pc.Broadcasting? {
      FoldAgree(INTEGERS, s.threads, s'.threads, f, f);
    } else if s.threads[i].pc.Testing? && s.count >= n {
      FullHouse(n, rounds, s, i);
      var f' := Arrived(|s'.winners| + 1);
      forall j | 0 <= j < n ensures f'(s'.threads[j]) == 0 {
        assert ThreadInv(s, rounds, j);
      }
      CountBounds(s'.threads, f');
    } else {
      TotalUpdate(s.threads, i, s'.threads[i], f);
    }
  }

  lemma StepInv(n: nat, rounds: nat, s: State, i: nat)
    requires Inv(n, rounds, s) && Enabled(s, i, rounds)
    ensures Inv(n, rounds, Step(s, i))
  {
    forall j | 0 <= j < n ensures |Step(s, i).threads| == n && ThreadInv(Step(s, i), rounds, j) {
      StepThreads(n, rounds, s, i, j);
    }
    StepCount(n, rounds, s, i);
    assert ThreadInv(s, rounds, i);
  }

  lemma InvInductive(n: nat, rounds: nat)
    ensures Inductive(s => Inv(n, rounds, s), s => Init(s, n), (s, s') => Next(false, rounds, s, s'))
  {
    var init, next := s => Init(s, n), (s, s') => Next(false, rounds, s, s');
    var inv := s => Inv(n, rounds, s);
    forall s | init(s) ensures inv(s) {
      InitInv(n, rounds, s);
    }
    forall s, s' | inv(s) && next(s, s') ensures inv(s') {
      var i: nat :| Enabled(s, i, rounds) && s' == Step(s, i);
      StepInv(n, rounds, s, i);
    }
  }

  lemma InRunInv(n: nat, rounds: nat, s: State)
    requires InRun(false, n, rounds, s)
    ensures Inv(n, rounds, s)
  {
    InvInductive(n, rounds);
    ReachableKeeps(s, s => Init(s, n), (s, s') => Next(false, rounds, s, s'), s => Inv(n, rounds, s));
  }

  /* ----- main results ----- */

  // Nobody has returned from more waits than anybody else has begun; arrivals stay within one of each other.
  lemma NoEarlyReturn(n: nat, rounds: nat, s: State, i: nat, j: nat)
    requires InRun(false, n, rounds, s) && i < n && j < n
    ensures |s.threads| == n
    ensures |s.threads[i].returned| <= s.threads[j].arrivals
    ensures s.threads[i].arrivals <= s.threads[j].arrivals + 1
  {
    InRunInv(n, rounds, s);
    assert ThreadInv(s, rounds, i) && ThreadInv(s, rounds, j);
  }

  function Asleep(t: Thread): int { if t.pc.Waiting? then 1 else 0 }

  // While the mutex is free, count is the number of threads asleep on the condition, and below n.
  lemma CountIsSleepers(n: nat, rounds: nat, s: State)
    requires InRun(false, n, rounds, s) && s.owner.Nobody? && n > 0
    ensures s.count == Total(s.threads, Asleep) < n
  {
    InRunInv(n, rounds, s);
    forall i | 0 <= i < n ensures Arrived(|s.winners| + 1)(s.threads[i]) == Asleep(s.threads[i]) {
      assert ThreadInv(s, rounds, i);
    }
    FoldAgree(INTEGERS, s.threads, s.threads, Arrived(|s.winners| + 1), Asleep);
  }

  predicate RoundLeft(s: State, k: nat) {
    forall t :: t in s.threads ==> k < |t.returned|
  }

  // In round k thread w got the distinguished result 1 and every other thread 0.
  predicate OnlySerial(s: State, k: nat, w: nat)
    requires RoundLeft(s, k)
  {
    w < |s.threads| && forall i :: 0 <= i < |s.threads| ==> s.threads[i].returned[k] == (if i == w then 1 else 0)
  }

  // In every round that all threads have left, exactly one of them got 1.
  lemma OneSerialThread(n: nat, rounds: nat, s: State, k: nat)
    requires InRun(false, n, rounds, s) && n > 0 && RoundLeft(s, k)
    ensures exists w :: OnlySerial(s, k, w)
  {
    InRunInv(n, rounds, s);
    assert s.threads[0] in s.threads && ThreadInv(s, rounds, 0);
    forall i | 0 <= i < n ensures s.threads[i].returned[k] == (if i == s.winners[k] then 1 else 0) {
      assert s.threads[i] in s.threads && ThreadInv(s, rounds, i);
    }
    assert OnlySerial(s, k, s.winners[k]);
  }

  predicate AllDone(s: State, rounds: nat) {
    forall t :: t in s.threads ==> t.pc.Outside? && |t.returned| == rounds
  }

  // No reachable state is a deadlock: until all threads are through all rounds, somebody can step.
  lemma NoDeadlock(n: nat, rounds: nat, s: State)
    requires InRun(false, n, rounds, s) && !AllDone(s, rounds)
    ensures exists i: nat :: Enabled(s, i, rounds)
  {
    InRunInv(n, rounds, s);
    if s.owner.By? {
      assert ThreadInv(s, rounds, s.owner.id);
      assert Enabled(s, s.owner.id, rounds);
    } else {
      var t :| t in s.threads && !(t.pc.Outside? && |t.returned| == rounds);
      var i: nat :| i < n && s.threads[i] == t;
      assert ThreadInv(s, rounds, i);
      if t.pc.Waiting? {
        CountBounds(s.threads, Asleep);
        CountIsSleepers(n, rounds, s);
        var j: nat :| j < n && Asleep(s.threads[j]) != 1;
        assert ThreadInv(s, rounds, j);
        assert Enabled(s, j, rounds);
      } else {
        assert Enabled(s, i, rounds);
      }
    }
  }

  // How far a thread has come: six positions for each wait it has finished, and where it is in the next.
  function Position(t: Thread): int {
    6 * |t.returned|
    + match t.pc
      case Outside => 0
      case Entered => 1
      case Testing => 2
      case Waiting => 3
      case Broadcasting => 3
      case Woken => 4
      case LeavingLast => 4
      case LeavingWoken => 5
  }

  // No step takes any thread back.
  lemma StepRises(n: nat, rounds: nat, s: State, i: nat)
    requires Inv(n, rounds, s) && Enabled(s, i, rounds)
    ensures Total(s.threads, Position) < Total(Step(s, i).threads, Position)
  {
    TotalRises(s.threads, Step(s, i).threads, i, Position, Position);
  }

  lemma PositionsBounded(n: nat, rounds: nat, s: State)
    requires Inv(n, rounds, s)
    ensures 0 <= Total(s.threads, Position) <= 6 * rounds * n
  {
    forall i | 0 <= i < n ensures 0 <= Position(s.threads[i]) <= 6 * rounds {
      assert ThreadInv(s, rounds, i);
    }
    TotalBounds(s.threads, Position, 6 * rounds);
  }

  // Every run is over after a bounded number of steps, and it can only be over when all threads are through.
  lemma EveryRunEnds(n: nat, rounds: nat, run: seq<State>)
    requires IsRun(run, s => Init(s, n), (s, s') => Next(false, rounds, s, s'))
    ensures |run| <= 6 * rounds * n + 1
    ensures Final(run[|run| - 1], (s, s') => Next(false, rounds, s, s')) ==> AllDone(run[|run| - 1], rounds)
  {
    var init, next := s => Init(s, n), (s, s') => Next(false, rounds, s, s');
    var inv, measure := s => Inv(n, rounds, s), (s: State) => Total(s.threads, Position);
    InvInductive(n, rounds);
    forall s | inv(s) ensures 0 <= measure(s) <= 6 * rounds * n {
      PositionsBounded(n, rounds, s);
    }
    forall s, s' | inv(s) && next(s, s') ensures measure(s) < measure(s') {
      var i: nat :| Enabled(s, i, rounds) && s' == Step(s, i);
      StepRises(n, rounds, s, i);
    }
    RunsAreShort(run, init, next, inv, measure, 6 * rounds * n);
    var last := run[|run| - 1];
    if !AllDone(last, rounds) {
      NoDeadlock(n, rounds, last);
      var i: nat :| Enabled(last, i, rounds);
      assert next(last, Step(last, i));
    }
  }

  lemma OwnerInside(n: nat, rounds: nat, s: State)
    requires Inv(n, rounds, s) && s.owner.By?
    ensures !AllDone(s, rounds)
  {
    assert ThreadInv(s, rounds, s.owner.id);
    assert s.threads[s.owner.id] in s.threads;
  }

  // Once all threads are through, every one of the rounds has been completed and the barrier is as new.
  lemma ReadyForReuse(n: nat, rounds: nat, s: State)
    requires InRun(false, n, rounds, s) && AllDone(s, rounds) && n > 0
    ensures s.owner.Nobody? && s.count == 0 && |s.winners| == rounds
  {
    InRunInv(n, rounds, s);
    assert s.threads[0] in s.threads && ThreadInv(s, rounds, 0);
    if s.owner.By? {
      OwnerInside(n, rounds, s);
    }
    CountBounds(s.threads, Asleep);
    CountIsSleepers(n, rounds, s);
  }

  /* ----- spurious wakeups ----- */

  ghost predicate Safe(spurious: bool, n: nat, rounds: nat) {
    forall s :: InRun(spurious, n, rounds, s) ==>
      forall t, u :: t in s.threads && u in s.threads ==> |t.returned| <= u.arrivals
  }

  // The wait is not in a predicate loop, so the barrier is safe exactly when the condition variable never
  // wakes a thread without a signal (or when there is nobody else to wait for, or nobody ever waits).
  lemma SafeIff(spurious: bool, n: nat, rounds: nat)
    ensures Safe(spurious, n, rounds) <==> !spurious || n <= 1 || rounds == 0
  {
    if !spurious {
      forall s, t, u | InRun(false, n, rounds, s) && t in s.threads && u in s.threads
        ensures |t.returned| <= u.arrivals
      {
        InRunInv(n, rounds, s);
        var i, j :| 0 <= i < n && 0 <= j < n && s.threads[i] == t && s.threads[j] == u;
        NoEarlyReturn(n, rounds, s, i, j);
      }
    } else if n <= 1 || rounds == 0 {
      forall s, t, u | InRun(true, n, rounds, s) && t in s.threads && u in s.threads
        ensures |t.returned| <= u.arrivals
      {
        OwnBooks(n, rounds, s);
      }
    } else {
      var s := EarlyReturn(n, rounds);
      assert s.threads[0] in s.threads && s.threads[1] in s.threads;
    }
  }

  predicate OwnInv(rounds: nat, t: Thread) {
    && |t.returned| <= t.arrivals <= |t.returned| + 1
    && (t.pc.Outside? || t.pc.Entered? ==> t.arrivals == |t.returned|)
    && (t.pc.Outside? || |t.returned| < rounds)
    && (!t.pc.Outside? && !t.pc.Entered? ==> t.arrivals == |t.returned| + 1)
    && |t.returned| <= rounds
  }

  lemma StepOwn(rounds: nat, s: State, i: nat)
    requires Enabled(s, i, rounds) && forall j :: 0 <= j < |s.threads| ==> OwnInv(rounds, s.threads[j])
    ensures |Step(s, i).threads| == |s.threads|
    ensures forall j :: 0 <= j < |s.threads| ==> OwnInv(rounds, Step(s, i).threads[j])
  {
  }

  lemma OwnBooks(n: nat, rounds: nat, s: State)
    requires InRun(true, n, rounds, s)
    ensures |s.threads| == n && forall t :: t in s.threads ==> OwnInv(rounds, t)
  {
    var init, next := s => Init(s, n), (s, s') => Next(true, rounds, s, s');
    var inv := (s: State) => |s.threads| == n && forall i :: 0 <= i < n ==> OwnInv(rounds, s.threads[i]);
    forall s, s' | inv(s) && next(s, s') ensures inv(s') {
      if i: nat :| Enabled(s, i, rounds) && s' == Step(s, i) {
        StepOwn(rounds, s, i);
      } else {
        var i: nat :| SpuriousWake(s, s', i);
      }
    }
    ReachableKeeps(s, init, next, inv);
  }

  lemma Goes(spurious: bool, n: nat, rounds: nat, s: State, i: nat) returns (s': State)
    requires InRun(spurious, n, rounds, s) && Enabled(s, i, rounds)
    ensures InRun(spurious, n, rounds, s') && s' == Step(s, i)
  {
    s' := Step(s, i);
    ReachableStep(s, s', s => Init(s, n), (s, s') => Next(spurious, rounds, s, s'));
  }

  // Thread 0 arrives, sleeps, wakes for no reason and returns while thread 1 has not even arrived.
  lemma EarlyReturn(n: nat, rounds: nat) returns (s: State)
    requires n >= 2 && rounds > 0
    ensures InRun(true, n, rounds, s) && |s.threads| == n
    ensures |s.threads[0].returned| == 1 && s.threads[1].arrivals == 0
  {
    s := State(Nobody, 0, [], seq(n, _ => Thread(Outside, 0, [])));
    ReachableStart(s, s => Init(s, n), (s, s') => Next(true, rounds, s, s'));
    s := Goes(true, n, rounds, s, 0);
    s := Goes(true, n, rounds, s, 0);
    s := Goes(true, n, rounds, s, 0);
    var woken := s.(threads := s.threads[0 := Wake(s.threads[0])]);
    assert SpuriousWake(s, woken, 0);
    ReachableStep(s, woken, s => Init(s, n), (s, s') => Next(true, rounds, s, s'));
    s := Goes(true, n, rounds, woken, 0);
    s := Goes(true, n, rounds, s, 0);
  }
}
