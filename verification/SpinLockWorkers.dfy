// The worker threads of the C lock benchmark under its hand-written spinlock, as a machine of
// sequentially consistent steps: every atomic operation, and each half of `shared_data++`, is one step.
module SpinLockWorkers {
  import opened Folding
  import opened Runs

  datatype Workload = Balanced | ReadHeavy | WriteHeavy | ThunderingHerd | Random

  datatype Config = Config(workload: Workload, readPercentage: int)

  // The next operation a thread will perform.
  datatype Pc =
    | LoopTest            // while (!g_stop_all), then choose read or write
    | Announce            // g_current_waiters + 1
    | LoadWaiters | LoadMax | StoreMax
    | Enlist              // lock waiters + 1
    | Spin                // test_and_set
    | Delist              // lock waiters - 1
    | Retract             // g_current_waiters - 1
    | NoteContention | AddContention
    | ReadData | LoadData | StoreData
    | Release             // clear the flag
    | CountOwn | CountGlobal | CountKind
    | Finished

  datatype Thread = Thread(
    pc: Pc, isRead: bool, seenWaiters: int, temp: int,
    acquisitions: nat, contentions: nat, readOps: nat, writeOps: nat)

  // `peak` is a history variable: the largest value g_current_waiters has had.
  datatype Shared = Shared(
    stop: bool, flag: bool, lockWaiters: int, currentWaiters: int, maxWaiters: int, peak: int,
    data: int, totalAcquisitions: int, totalContentions: int)

  datatype State = State(shared: Shared, threads: seq<Thread>)

  ghost predicate Init(s: State, n: nat) {
    && s.shared == Shared(false, false, 0, 0, 0, 0, 0, 0, 0)
    && s.threads == seq(n, _ => Thread(LoopTest, false, 0, 0, 0, 0, 0, 0))
  }

  // What the locks do not fix: the kind of the next operation and whether the measured wait was long.
  datatype Choice = Choice(isRead: bool, contended: bool)

  function ChooseRead(c: Config, acquisitions: nat, draw: nat): bool {
    match c.workload
    case Balanced => acquisitions % 2 == 0
    case ReadHeavy => draw % 100 < c.readPercentage
    case WriteHeavy => draw % 100 < c.readPercentage
    case ThunderingHerd => false
    case Random => draw % 2 == 0
  }

  function Work(t: Thread): Thread {
    t.(pc := if t.isRead then ReadData else LoadData)
  }

  // One operation of one thread: the shared variables and the thread's own state afterwards.
  function Operation(sh: Shared, t: Thread, choice: Choice): (Shared, Thread) {
    match t.pc
    case LoopTest =>
      (sh, if sh.stop then t.(pc := Finished)
           else t.(pc := Announce, isRead := choice.isRead))
    case Announce =>
      var w := sh.currentWaiters + 1;
      (sh.(currentWaiters := w, peak := if w > sh.peak then w else sh.peak), t.(pc := LoadWaiters))
    case LoadWaiters => (sh, t.(pc := LoadMax, seenWaiters := sh.currentWaiters))
    case LoadMax => (sh, t.(pc := if t.seenWaiters > sh.maxWaiters then StoreMax else Enlist))
    case StoreMax => (sh.(maxWaiters := t.seenWaiters), t.(pc := Enlist))
    case Enlist => (sh.(lockWaiters := sh.lockWaiters + 1), t.(pc := Spin))
    case Spin => if sh.flag then (sh, t) else (sh.(flag := true), t.(pc := Delist))
    case Delist => (sh.(lockWaiters := sh.lockWaiters - 1), t.(pc := Retract))
    case Retract => (sh.(currentWaiters := sh.currentWaiters - 1), t.(pc := NoteContention))
    case NoteContention =>
      (sh, if choice.contended then t.(pc := AddContention, contentions := t.contentions + 1) else Work(t))
    case AddContention => (sh.(totalContentions := sh.totalContentions + 1), Work(t))
    case ReadData => (sh, t.(pc := Release, temp := sh.data))
    case LoadData => (sh, t.(pc := StoreData, temp := sh.data))
    case StoreData => (sh.(data := t.temp + 1), t.(pc := Release))
    case Release => (sh.(flag := false), t.(pc := CountOwn))
    case CountOwn => (sh, t.(pc := CountGlobal, acquisitions := t.acquisitions + 1))
    case CountGlobal => (sh.(totalAcquisitions := sh.totalAcquisitions + 1), t.(pc := CountKind))
    case CountKind =>
      (sh, if t.isRead then t.(pc := LoopTest, readOps := t.readOps + 1)
           else t.(pc := LoopTest, writeOps := t.writeOps + 1))
    case Finished => (sh, t)
  }

  // The kind is the one the workload picks for some result `draw` of rand().
  ghost predicate ThreadStep(c: Config, s: State, s': State, i: nat, choice: Choice, draw: nat) {
    && i < |s.threads|
    && choice.isRead == ChooseRead(c, s.threads[i].acquisitions, draw)
    && var (sh, t) := Operation(s.shared, s.threads[i], choice);
       s' == State(sh, s.threads[i := t])
  }

  // A worker moves, or the main thread ends the measurement.
  ghost predicate Next(c: Config, s: State, s': State) {
    || s' == s.(shared := s.shared.(stop := true))
    || exists i: nat, choice: Choice, draw: nat :: ThreadStep(c, s, s', i, choice, draw)
  }

  /* ----- what each thread contributes to the shared counters ----- */

  predicate Holds(pc: Pc) {
    || pc.Delist? || pc.Retract? || pc.NoteContention? || pc.AddContention?
    || pc.ReadData? || pc.LoadData? || pc.StoreData? || pc.Release?
  }

  predicate InHerd(pc: Pc) {
    || pc.LoadWaiters? || pc.LoadMax? || pc.StoreMax? || pc.Enlist? || pc.Spin? || pc.Delist? || pc.Retract?
  }

  // Between the release of the lock and the count of the operation, or about to release.
  predicate Leaving(pc: Pc) {
    pc.Release? || pc.CountOwn? || pc.CountGlobal? || pc.CountKind?
  }

  function InCritical(t: Thread): int { if Holds(t.pc) then 1 else 0 }

  function OnLock(t: Thread): int { if t.pc.Spin? || t.pc.Delist? then 1 else 0 }

  function Announced(t: Thread): int { if InHerd(t.pc) then 1 else 0 }

  // Past its store but not yet counted in write_ops.
  function Uncounted(t: Thread): int { if !t.isRead && Leaving(t.pc) then 1 else 0 }

  function WriteOps(t: Thread): int { t.writeOps }

  function Stored(t: Thread): int { t.writeOps + Uncounted(t) }

  function Acquisitions(t: Thread): int { t.acquisitions }

  function Acquired(t: Thread): int { t.acquisitions - (if t.pc.CountGlobal? then 1 else 0) }

  function Contentions(t: Thread): int { t.contentions }

  function Contended(t: Thread): int { t.contentions - (if t.pc.AddContention? then 1 else 0) }

  /* ----- the invariant ----- */

  // In a balanced workload a thread alternates, starting with a read.
  predicate KindsBalanced(t: Thread) {
    && t.writeOps <= t.readOps <= t.writeOps + 1
    && (t.pc.LoopTest? || t.pc.Finished? || t.isRead == (t.readOps == t.writeOps))
  }

  predicate ThreadInv(sh: Shared, t: Thread) {
    && (Holds(t.pc) ==> sh.flag)
    && (t.pc.ReadData? ==> t.isRead)
    && (t.pc.LoadData? || t.pc.StoreData? ==> !t.isRead)
    && (t.pc.StoreData? ==> t.temp == sh.data)
    && (t.pc.LoadMax? || t.pc.StoreMax? ==> 0 <= t.seenWaiters <= sh.peak)
    && (t.pc.Finished? ==> sh.stop)
  }

  // What a thread's own statistics promise; nobody else touches them.
  predicate OpsCounted(t: Thread) {
    t.readOps + t.writeOps == t.acquisitions - (if t.pc.CountGlobal? || t.pc.CountKind? then 1 else 0)
  }

  predicate ByPercentage(c: Config) {
    c.workload.ReadHeavy? || c.workload.WriteHeavy?
  }

  predicate OnlyWrites(c: Config) {
    c.workload.ThunderingHerd? || (ByPercentage(c) && c.readPercentage <= 0)
  }

  predicate OnlyReads(c: Config) {
    ByPercentage(c) && c.readPercentage >= 100
  }

  predicate KindInv(c: Config, t: Thread) {
    && (c.workload.Balanced? ==> KindsBalanced(t))
    && (OnlyWrites(c) ==> t.readOps == 0 && (t.pc.LoopTest? || t.pc.Finished? || !t.isRead))
    && (OnlyReads(c) ==> t.writeOps == 0 && (t.pc.LoopTest? || t.pc.Finished? || t.isRead))
  }

  ghost predicate Books(s: State) {
    && Total(s.threads, InCritical) == (if s.shared.flag then 1 else 0)
    && Total(s.threads, OnLock) == s.shared.lockWaiters
    && Total(s.threads, Announced) == s.shared.currentWaiters
    && Total(s.threads, Stored) == s.shared.data
    && Total(s.threads, Acquired) == s.shared.totalAcquisitions
    && Total(s.threads, Contended) == s.shared.totalContentions
  }

  predicate PeakInv(n: nat, sh: Shared) {
    && 0 <= sh.currentWaiters <= sh.peak <= n
    && 0 <= sh.maxWaiters <= sh.peak
  }

  ghost predicate Inv(c: Config, n: nat, s: State) {
    && |s.threads| == n
    && Books(s)
    && PeakInv(n, s.shared)
    && forall t :: t in s.threads ==> ThreadInv(s.shared, t) && OpsCounted(t) && KindInv(c, t)
  }

  lemma InitInv(c: Config, n: nat, s: State)
    requires Init(s, n)
    ensures Inv(c, n, s)
  {
    CountBounds(s.threads, InCritical);
    CountBounds(s.threads, OnLock);
    CountBounds(s.threads, Announced);
    FoldAgree(INTEGERS, s.threads, s.threads, Stored, InCritical);
    FoldAgree(INTEGERS, s.threads, s.threads, Acquired, InCritical);
    FoldAgree(INTEGERS, s.threads, s.threads, Contended, InCritical);
  }

  // The change of every shared counter is the change of the moving thread's contribution to it.
  predicate LocksBalance(sh: Shared, t: Thread, sh': Shared, t': Thread) {
    && InCritical(t') - InCritical(t) == (if sh'.flag then 1 else 0) - (if sh.flag then 1 else 0)
    && OnLock(t') - OnLock(t) == sh'.lockWaiters - sh.lockWaiters
    && Announced(t') - Announced(t) == sh'.currentWaiters - sh.currentWaiters
  }

  predicate DataBalances(sh: Shared, t: Thread, sh': Shared, t': Thread) {
    Stored(t') - Stored(t) == sh'.data - sh.data
  }

  predicate CountersBalance(sh: Shared, t: Thread, sh': Shared, t': Thread) {
    && Acquired(t') - Acquired(t) == sh'.totalAcquisitions - sh.totalAcquisitions
    && Contended(t') - Contended(t) == sh'.totalContentions - sh.totalContentions
  }

  lemma OperationBalancesLocks(sh: Shared, t: Thread, choice: Choice)
    requires ThreadInv(sh, t)
    ensures LocksBalance(sh, t, Operation(sh, t, choice).0, Operation(sh, t, choice).1)
  {
  }

  lemma OperationBalancesData(sh: Shared, t: Thread, choice: Choice)
    requires ThreadInv(sh, t)
    ensures DataBalances(sh, t, Operation(sh, t, choice).0, Operation(sh, t, choice).1)
  {
  }

  lemma OperationBalancesCounters(sh: Shared, t: Thread, choice: Choice)
    ensures CountersBalance(sh, t, Operation(sh, t, choice).0, Operation(sh, t, choice).1)
  {
  }

  lemma OperationKeepsPeak(n: nat, sh: Shared, t: Thread, choice: Choice)
    requires ThreadInv(sh, t) && PeakInv(n, sh)
    requires 0 <= Operation(sh, t, choice).0.currentWaiters <= n
    ensures PeakInv(n, Operation(sh, t, choice).0)
  {
  }

  lemma OperationKeepsThread(n: nat, sh: Shared, t: Thread, choice: Choice)
    requires ThreadInv(sh, t) && PeakInv(n, sh)
    ensures var (sh', t') := Operation(sh, t, choice); ThreadInv(sh', t')
  {
  }

  lemma OperationCountsOps(sh: Shared, t: Thread, choice: Choice)
    requires OpsCounted(t)
    ensures OpsCounted(Operation(sh, t, choice).1)
  {
  }

  lemma OperationKeepsKinds(c: Config, sh: Shared, t: Thread, choice: Choice, draw: nat)
    requires KindInv(c, t) && OpsCounted(t) && choice.isRead == ChooseRead(c, t.acquisitions, draw)
    ensures KindInv(c, Operation(sh, t, choice).1)
  {
  }

  // Any other thread keeps its invariant. Only the lock holder may write the data or drop the flag, so
  // nobody between the load and the store of an increment sees the data change.
  lemma OthersKeep(sh: Shared, t: Thread, choice: Choice, u: Thread)
    requires ThreadInv(sh, t) && ThreadInv(sh, u)
    requires InCritical(t) == 0 || InCritical(u) == 0
    ensures ThreadInv(Operation(sh, t, choice).0, u)
  {
  }

  lemma BooksKept(n: nat, s: State, i: nat, sh': Shared, t': Thread)
    requires Books(s) && i < |s.threads| == n && LocksBalance(s.shared, s.threads[i], sh', t')
    requires DataBalances(s.shared, s.threads[i], sh', t') && CountersBalance(s.shared, s.threads[i], sh', t')
    ensures Books(State(sh', s.threads[i := t'])) && 0 <= sh'.currentWaiters <= n
  {
    TotalUpdate(s.threads, i, t', InCritical);
    TotalUpdate(s.threads, i, t', OnLock);
    TotalUpdate(s.threads, i, t', Announced);
    TotalUpdate(s.threads, i, t', Stored);
    TotalUpdate(s.threads, i, t', Acquired);
    TotalUpdate(s.threads, i, t', Contended);
    CountBounds(s.threads[i := t'], Announced);
  }

  lemma StepInv(c: Config, n: nat, s: State, s': State, i: nat, choice: Choice, draw: nat)
    requires Inv(c, n, s) && ThreadStep(c, s, s', i, choice, draw)
    ensures Inv(c, n, s')
  {
    var t := s.threads[i];
    OperationBalancesLocks(s.shared, t, choice);
    OperationBalancesData(s.shared, t, choice);
    OperationBalancesCounters(s.shared, t, choice);
    BooksKept(n, s, i, s'.shared, s'.threads[i]);
    OperationKeepsPeak(n, s.shared, t, choice);
    OperationKeepsThread(n, s.shared, t, choice);
    OperationCountsOps(s.shared, t, choice);
    OperationKeepsKinds(c, s.shared, t, choice, draw);
    forall u | u in s'.threads ensures ThreadInv(s'.shared, u) && OpsCounted(u) && KindInv(c, u) {
      var j: nat :| j < n && u == s'.threads[j];
      if j != i {
        AtMostOneHolder(s, i, j);
        OthersKeep(s.shared, t, choice, u);
      }
    }
  }

  lemma AtMostOneHolder(s: State, i: nat, j: nat)
    requires Books(s) && i < |s.threads| && j < |s.threads| && i != j
    ensures InCritical(s.threads[i]) == 0 || InCritical(s.threads[j]) == 0
  {
    if InCritical(s.threads[i]) == 1 && InCritical(s.threads[j]) == 1 {
      CountPair(s.threads, InCritical, if i < j then i else j, if i < j then j else i);
    }
  }

  ghost predicate InRun(c: Config, n: nat, s: State) {
    Reachable(s, s => Init(s, n), (s, s') => Next(c, s, s'))
  }

  lemma InRunInv(c: Config, n: nat, s: State)
    requires InRun(c, n, s)
    ensures Inv(c, n, s)
  {
    var init, next, inv := s => Init(s, n), (s, s') => Next(c, s, s'), s => Inv(c, n, s);
    forall s | init(s) ensures inv(s) {
      InitInv(c, n, s);
    }
    forall s, s' | inv(s) && next(s, s') ensures inv(s') {
      if i: nat, choice: Choice, draw: nat :| ThreadStep(c, s, s', i, choice, draw) {
        StepInv(c, n, s, s', i, choice, draw);
      }
    }
    ReachableKeeps(s, init, next, inv);
  }

  /* ----- main results ----- */

  // At most one thread is between test_and_set and clear, and exactly one while the flag is set.
  lemma MutualExclusion(c: Config, n: nat, s: State)
    requires InRun(c, n, s)
    ensures |s.threads| == n
    ensures forall i, j :: 0 <= i < n && 0 <= j < n && Holds(s.threads[i].pc) && Holds(s.threads[j].pc) ==> i == j
    ensures s.shared.flag <==> exists k :: 0 <= k < n && Holds(s.threads[k].pc)
  {
    InRunInv(c, n, s);
    CountBounds(s.threads, InCritical);
    forall i, j | 0 <= i < n && 0 <= j < n && Holds(s.threads[i].pc) && Holds(s.threads[j].pc) ensures i == j {
      if i != j {
        AtMostOneHolder(s, i, j);
      }
    }
    if s.shared.flag {
      var k :| 0 <= k < n && InCritical(s.threads[k]) != 0;
    }
  }

  // No update is lost: the shared counter is the sum of the write counts plus the writers that have
  // stored but not yet counted themselves.
  lemma NoLostUpdates(c: Config, n: nat, s: State)
    requires InRun(c, n, s)
    ensures s.shared.data == Total(s.threads, WriteOps) + Total(s.threads, Uncounted)
  {
    InRunInv(c, n, s);
    StoredSplits(s.threads);
  }

  lemma {:induction false} StoredSplits(ts: seq<Thread>)
    ensures Total(ts, Stored) == Total(ts, WriteOps) + Total(ts, Uncounted)
  {
    if |ts| > 0 {
      StoredSplits(ts[1..]);
    }
  }

  predicate AllFinished(s: State) {
    forall i :: 0 <= i < |s.threads| ==> s.threads[i].pc == Finished
  }

  lemma BooksAtEnd(s: State)
    requires Books(s) && AllFinished(s)
    ensures !s.shared.flag && s.shared.lockWaiters == 0 && s.shared.currentWaiters == 0
    ensures s.shared.data == Total(s.threads, WriteOps)
    ensures s.shared.totalAcquisitions == Total(s.threads, Acquisitions)
    ensures s.shared.totalContentions == Total(s.threads, Contentions)
  {
    CountBounds(s.threads, InCritical);
    CountBounds(s.threads, OnLock);
    CountBounds(s.threads, Announced);
    FoldAgree(INTEGERS, s.threads, s.threads, Stored, WriteOps);
    FoldAgree(INTEGERS, s.threads, s.threads, Acquired, Acquisitions);
    FoldAgree(INTEGERS, s.threads, s.threads, Contended, Contentions);
  }

  // Once every worker has left its loop all books balance: lock free, nobody waiting, every global
  // counter the sum of the per-thread ones. In a herd every acquisition is one increment of the data.
  lemma Quiescence(c: Config, n: nat, s: State)
    requires InRun(c, n, s) && AllFinished(s)
    ensures !s.shared.flag && s.shared.lockWaiters == 0 && s.shared.currentWaiters == 0
    ensures s.shared.data == Total(s.threads, WriteOps)
    ensures s.shared.totalAcquisitions == Total(s.threads, Acquisitions)
    ensures s.shared.totalContentions == Total(s.threads, Contentions)
    ensures forall t :: t in s.threads ==> t.readOps + t.writeOps == t.acquisitions
    ensures c.workload.Balanced? ==> forall t :: t in s.threads ==> 0 <= t.readOps - t.writeOps <= 1
    ensures c.workload.ThunderingHerd? ==> s.shared.data == s.shared.totalAcquisitions
  {
    InRunInv(c, n, s);
    BooksAtEnd(s);
    forall t | t in s.threads
      ensures t.readOps + t.writeOps == t.acquisitions
      ensures c.workload.Balanced? ==> 0 <= t.readOps - t.writeOps <= 1
      ensures c.workload.ThunderingHerd? ==> t.readOps == 0
    {
      assert OpsCounted(t) && KindInv(c, t) && t.pc == Finished;
    }
    if c.workload.ThunderingHerd? {
      FoldAgree(INTEGERS, s.threads, s.threads, WriteOps, Acquisitions);
    }
  }

  // A wait over the threshold counts once, for the thread that waited, and nothing else does.
  lemma LongWaitsCount(c: Config, s: State, s': State, i: nat, choice: Choice, draw: nat)
    requires ThreadStep(c, s, s', i, choice, draw)
    ensures s'.threads[i].contentions ==
            s.threads[i].contentions + if s.threads[i].pc.NoteContention? && choice.contended then 1 else 0
    ensures forall j :: 0 <= j < |s.threads| && j != i ==> s'.threads[j] == s.threads[j]
  {
  }

  // A read percentage of 100 or more leaves the data alone, and one of 0 or less lets nobody read.
  lemma OneKindOnly(c: Config, n: nat, s: State)
    requires InRun(c, n, s) && (c.workload.ReadHeavy? || c.workload.WriteHeavy?)
    ensures c.readPercentage >= 100 ==> s.shared.data == 0 && forall t :: t in s.threads ==> t.writeOps == 0
    ensures c.readPercentage <= 0 ==> forall t :: t in s.threads ==> t.readOps == 0
  {
    InRunInv(c, n, s);
    if OnlyReads(c) {
      var none := (t: Thread) => 0;
      forall i | 0 <= i < n ensures Stored(s.threads[i]) == none(s.threads[i]) {
        assert KindInv(c, s.threads[i]);
      }
      FoldAgree(INTEGERS, s.threads, s.threads, Stored, none);
      CountBounds(s.threads, none);
    }
  }

  // How many of the draws 0, ..., m - 1 choose a read.
  function ReadsAmong(c: Config, acquisitions: nat, m: nat): nat {
    if m == 0 then 0 else ReadsAmong(c, acquisitions, m - 1) + (if ChooseRead(c, acquisitions, m - 1) then 1 else 0)
  }

  lemma {:induction false} ReadsAmongFirst(c: Config, acquisitions: nat, m: nat)
    requires m <= 100 && (c.workload.ReadHeavy? || c.workload.WriteHeavy?)
    ensures ReadsAmong(c, acquisitions, m) ==
            if c.readPercentage < 0 then 0 else if c.readPercentage > m then m else c.readPercentage
  {
    if m > 0 {
      ReadsAmongFirst(c, acquisitions, m - 1);
    }
  }

  // Of every hundred successive values of the draw as many choose a read as the percentage says, and of every two in
  // the random workload the even one does; in the balanced one reads and writes take turns.
  lemma ReadShare(c: Config, acquisitions: nat)
    ensures c.workload.ReadHeavy? || c.workload.WriteHeavy? ==>
              && ReadsAmong(c, acquisitions, 100) ==
                 (if c.readPercentage < 0 then 0 else if c.readPercentage > 100 then 100 else c.readPercentage)
              && forall d: nat :: ChooseRead(c, acquisitions, d) <==> ChooseRead(c, acquisitions, d + 100)
    ensures c.workload.Random? ==>
              && ChooseRead(c, acquisitions, 0)
              && forall d: nat :: ChooseRead(c, acquisitions, d) <==> !ChooseRead(c, acquisitions, d + 1)
    ensures c.workload.Balanced? ==>
              forall d: nat :: ChooseRead(c, acquisitions, d) <==> !ChooseRead(c, acquisitions + 1, d)
  {
    if c.workload.ReadHeavy? || c.workload.WriteHeavy? {
      ReadsAmongFirst(c, acquisitions, 100);
    }
  }

  // Unless it spins on a held lock, a thread that is not finished moves on.
  lemma Advances(sh: Shared, t: Thread, choice: Choice)
    requires t.pc != Finished && (t.pc == Spin ==> !sh.flag)
    ensures Operation(sh, t, choice).1.pc != t.pc
  {
  }

  // Never stuck: until every worker has finished, some worker can take a step that changes the state.
  lemma AlwaysProgress(c: Config, n: nat, s: State)
    requires InRun(c, n, s) && !AllFinished(s)
    ensures exists i: nat, choice: Choice, draw: nat, s' :: ThreadStep(c, s, s', i, choice, draw) && s' != s
  {
    InRunInv(c, n, s);
    CountBounds(s.threads, InCritical);
    var i: nat :| i < n && s.threads[i].pc != Finished;
    if s.threads[i].pc == Spin && s.shared.flag {
      var k: nat :| k < n && InCritical(s.threads[k]) != 0;
      i := k;
    }
    var draw: nat := 0;
    var choice := Choice(ChooseRead(c, s.threads[i].acquisitions, draw), false);
    Advances(s.shared, s.threads[i], choice);
    var (sh, t) := Operation(s.shared, s.threads[i], choice);
    var s' := State(sh, s.threads[i := t]);
    assert ThreadStep(c, s, s', i, choice, draw) && s'.threads[i].pc != s.threads[i].pc;
  }

  // How far a thread has come towards leaving its loop once it is told to stop.
  function Position(t: Thread): int {
    match t.pc
    case Announce => 0
    case LoadWaiters => 1
    case LoadMax => 2
    case StoreMax => 3
    case Enlist => 4
    case Spin => 5
    case Delist => 6
    case Retract => 7
    case NoteContention => 8
    case AddContention => 9
    case ReadData => 10
    case LoadData => 10
    case StoreData => 11
    case Release => 12
    case CountOwn => 13
    case CountGlobal => 14
    case CountKind => 15
    case LoopTest => 16
    case Finished => 17
  }

  // With the stop flag set, an operation either finds the lock held and changes nothing, or moves its thread on.
  lemma OperationMovesOn(sh: Shared, t: Thread, choice: Choice)
    requires sh.stop
    ensures var (sh', t') := Operation(sh, t, choice);
            sh'.stop && ((sh', t') == (sh, t) || Position(t) < Position(t'))
  {
  }

  lemma StepMovesOn(c: Config, s: State, s': State)
    requires s.shared.stop && Next(c, s, s') && s' != s
    ensures s'.shared.stop && |s'.threads| == |s.threads|
    ensures Total(s.threads, Position) < Total(s'.threads, Position)
  {
    var i: nat, choice: Choice, draw: nat :| ThreadStep(c, s, s', i, choice, draw);
    OperationMovesOn(s.shared, s.threads[i], choice);
    assert s.threads[i := s.threads[i]] == s.threads;
    TotalUpdate(s.threads, i, s'.threads[i], Position);
  }

  ghost predicate Stopping(c: Config, n: nat, s: State) {
    InRun(c, n, s) && s.shared.stop && |s.threads| == n
  }

  // From the stop on only boundedly many steps can be anything but a test of a held lock, and nothing but such
  // tests is left only when all workers have finished.
  lemma EveryStopEnds(c: Config, n: nat, run: seq<State>)
    requires IsRun(run, s => Stopping(c, n, s), (s, s') => Next(c, s, s') && s' != s)
    ensures |run| <= 17 * n + 1
    ensures Final(run[|run| - 1], (s, s') => Next(c, s, s') && s' != s) ==> AllFinished(run[|run| - 1])
  {
    var next, inv := (s, s') => Next(c, s, s') && s' != s, s => Stopping(c, n, s);
    var measure := (s: State) => Total(s.threads, Position);
    forall s, s' | inv(s) && next(s, s') ensures inv(s') && measure(s) < measure(s') {
      ReachableStep(s, s', s => Init(s, n), (s, s') => Next(c, s, s'));
      StepMovesOn(c, s, s');
    }
    forall s | inv(s) ensures 0 <= measure(s) <= 17 * n {
      TotalBounds(s.threads, Position, 17);
    }
    RunsAreShort(run, inv, next, inv, measure, 17 * n);
    var last := run[|run| - 1];
    if !AllFinished(last) {
      AlwaysProgress(c, n, last);
      var i: nat, choice: Choice, draw: nat, s' :| ThreadStep(c, last, s', i, choice, draw) && s' != last;
      assert next(last, s');
    }
  }

  /* ----- g_max_waiters: load, compare and store are separate steps ----- */

  // No thread is between its increment of g_current_waiters and its update of g_max_waiters.
  predicate Settled(s: State) {
    forall t :: t in s.threads ==> !t.pc.LoadWaiters? && !t.pc.LoadMax? && !t.pc.StoreMax?
  }

  ghost predicate PeakRecorded(c: Config, n: nat) {
    forall s :: InRun(c, n, s) && Settled(s) ==> s.shared.maxWaiters == s.shared.peak
  }

  // The recorded maximum never exceeds the true peak, but it is sure to equal it only with a single
  // thread: a late store may overwrite a larger value.
  lemma PeakRecordedIff(c: Config, n: nat)
    ensures PeakRecorded(c, n) <==> n <= 1
    ensures forall s :: InRun(c, n, s) ==> s.shared.maxWaiters <= s.shared.peak <= n
  {
    forall s | InRun(c, n, s) ensures s.shared.maxWaiters <= s.shared.peak <= n {
      InRunInv(c, n, s);
    }
    if n <= 1 {
      forall s | InRun(c, n, s) && Settled(s) ensures s.shared.maxWaiters == s.shared.peak {
        SoloExact(c, n, s);
      }
    } else {
      var s := LateStore(c, n);
      assert InRun(c, n, s) && Settled(s);
    }
  }

  ghost predicate SoloInv(s: State) {
    forall t :: t in s.threads ==>
      && (t.pc.LoadWaiters? ==> s.shared.currentWaiters == 1)
      && (t.pc.LoadMax? ==> t.seenWaiters == 1)
      && (t.pc.StoreMax? ==> t.seenWaiters == 1)
      && (!t.pc.LoadWaiters? && !t.pc.LoadMax? && !t.pc.StoreMax? ==> s.shared.maxWaiters == s.shared.peak)
  }

  lemma SoloExact(c: Config, n: nat, s: State)
    requires n <= 1 && InRun(c, n, s) && Settled(s)
    ensures s.shared.maxWaiters == s.shared.peak
  {
    var init, next := s => Init(s, n), (s, s') => Next(c, s, s');
    var inv := s => Inv(c, n, s) && SoloInv(s);
    forall s | init(s) ensures inv(s) {
      InitInv(c, n, s);
    }
    forall s, s' | inv(s) && next(s, s') ensures inv(s') {
      if i: nat, choice: Choice, draw: nat :| ThreadStep(c, s, s', i, choice, draw) {
        StepInv(c, n, s, s', i, choice, draw);
        SoloStep(c, n, s, s', i, choice, draw);
      }
    }
    ReachableKeeps(s, init, next, inv);
    if n == 1 {
      assert s.threads[0] in s.threads;
    }
  }

  lemma SoloStep(c: Config, n: nat, s: State, s': State, i: nat, choice: Choice, draw: nat)
    requires n <= 1 && Inv(c, n, s) && Inv(c, n, s') && SoloInv(s) && ThreadStep(c, s, s', i, choice, draw)
    ensures SoloInv(s')
  {
    CountBounds(s.threads, Announced);
    assert s.threads[0] in s.threads && s'.threads[0] in s'.threads;
    assert s'.threads == [s'.threads[0]];
  }

  function Move(c: Config, s: State, i: nat): State
    requires i < |s.threads|
  {
    var (sh, t) := Operation(s.shared, s.threads[i], Choice(ChooseRead(c, s.threads[i].acquisitions, 0), false));
    State(sh, s.threads[i := t])
  }

  lemma Moves(c: Config, n: nat, s: State, i: nat) returns (s': State)
    requires InRun(c, n, s) && i < |s.threads|
    ensures InRun(c, n, s') && s' == Move(c, s, i)
  {
    s' := Move(c, s, i);
    assert ThreadStep(c, s, s', i, Choice(ChooseRead(c, s.threads[i].acquisitions, 0), false), 0);
    ReachableStep(s, s', s => Init(s, n), (s, s') => Next(c, s, s'));
  }

  // A fresh thread runs up to the store of the maximum it has just seen.
  lemma RunToStore(c: Config, n: nat, s: State, i: nat) returns (s': State)
    requires InRun(c, n, s) && i < |s.threads| && s.threads[i].pc == LoopTest && !s.shared.stop
    requires s.shared.maxWaiters <= s.shared.currentWaiters == s.shared.peak
    ensures InRun(c, n, s') && |s'.threads| == |s.threads| && s'.threads == s.threads[i := s'.threads[i]]
    ensures s'.threads[i].pc == StoreMax && s'.threads[i].seenWaiters == s.shared.currentWaiters + 1
    ensures s'.shared == s.shared.(currentWaiters := s.shared.currentWaiters + 1, peak := s.shared.peak + 1)
  {
    s' := Moves(c, n, s, i);
    s' := Moves(c, n, s', i);
    s' := Moves(c, n, s', i);
    s' := Moves(c, n, s', i);
  }

  lemma StoreNow(c: Config, n: nat, s: State, i: nat) returns (s': State)
    requires InRun(c, n, s) && i < |s.threads| && s.threads[i].pc == StoreMax
    ensures InRun(c, n, s') && |s'.threads| == |s.threads|
    ensures s'.threads == s.threads[i := s'.threads[i]] && s'.threads[i].pc == Enlist
    ensures s'.shared == s.shared.(maxWaiters := s.threads[i].seenWaiters)
  {
    s' := Moves(c, n, s, i);
  }

  // Thread 0 sees one waiter and an empty maximum, thread 1 then records two, and thread 0 stores its one.
  lemma LateStore(c: Config, n: nat) returns (s: State)
    requires n >= 2
    ensures InRun(c, n, s) && Settled(s) && s.shared.maxWaiters == 1 && s.shared.peak == 2
  {
    var idle := Thread(LoopTest, false, 0, 0, 0, 0, 0, 0);
    s := State(Shared(false, false, 0, 0, 0, 0, 0, 0, 0), seq(n, _ => idle));
    ReachableStart(s, s => Init(s, n), (s, s') => Next(c, s, s'));
    s := RunToStore(c, n, s, 0);
    s := RunToStore(c, n, s, 1);
    s := StoreNow(c, n, s, 1);
    s := StoreNow(c, n, s, 0);
    forall t | t in s.threads ensures t.pc == Enlist || t.pc == LoopTest {
      var k :| 0 <= k < n && t == s.threads[k];
    }
  }
}
