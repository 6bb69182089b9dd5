// The two ways the C++ context-switch benchmark passes control back and forth: a shared turn variable and
// a pair of pipes. Both refine one abstract rally of moves.

// The specification: `rounds` rounds, in each of which the parent moves and then the child.
module Rally {
  import opened Runs

  datatype Party = Parent | Child

  datatype Game = Game(moves: seq<Party>)

  function Alternation(m: nat): seq<Party> {
    seq(m, k => if k % 2 == 0 then Parent else Child)
  }

  ghost predicate Init(g: Game) {
    g.moves == []
  }

  ghost predicate Next(rounds: nat, g: Game, g': Game) {
    |g.moves| < 2 * rounds && g'.moves == g.moves + [if |g.moves| % 2 == 0 then Parent else Child]
  }

  ghost predicate Playable(rounds: nat, g: Game) {
    Reachable(g, g => Init(g), (g, g') => Next(rounds, g, g'))
  }

  // Every game alternates strictly, starting with the parent, and stops after its last round.
  lemma StrictAlternation(rounds: nat, g: Game)
    requires Playable(rounds, g)
    ensures |g.moves| <= 2 * rounds && g.moves == Alternation(|g.moves|)
    ensures forall k :: 0 <= k < |g.moves| - 1 ==> g.moves[k] != g.moves[k + 1]
  {
    ReachableKeeps(g, g => Init(g), (g, g') => Next(rounds, g, g'),
                   (g: Game) => |g.moves| <= 2 * rounds && g.moves == Alternation(|g.moves|));
  }
}

// measure_with_shared_memory and measure_with_threads: each side waits for the turn variable.
module TurnHandOff {
  import opened Runs
  import Rally

  // `round` records which iteration of its writer stored the time (history).
  datatype Stamp = Stamp(time: int, round: int)

  datatype Sample = Sample(duration: int, sent: Stamp, reply: Stamp)

  datatype ParentPc = PStamp | PGive | PAwait | PRecord | PSetDone | PJoin | PGone

  datatype ChildPc = CHead | CTestTurn | CTestDone | CTestBreak | CStamp | CGive | CGone | CBroke

  // `moves` records who handed control over (history).
  datatype State = State(
    clock: int, turn: int, done: bool, stamp0: Stamp, stamp1: Stamp,
    ppc: ParentPc, pi: nat, samples: seq<Sample>, cpc: ChildPc, ci: nat,
    moves: seq<Rally.Party>)

  ghost predicate Init(s: State) {
    s == State(s.clock, 0, false, Stamp(0, -1), Stamp(0, -1), PStamp, 0, [], CHead, 0, [])
  }

  predicate ParentEnabled(s: State) {
    && !s.ppc.PGone?
    && (s.ppc.PJoin? ==> s.cpc.CGone? || s.cpc.CBroke?)
  }

  function ParentStep(n: nat, s: State): State {
    match s.ppc
    case PStamp => if s.pi < n then s.(stamp0 := Stamp(s.clock, s.pi), ppc := PGive) else s.(ppc := PSetDone)
    case PGive => s.(turn := 1, ppc := PAwait, moves := s.moves + [Rally.Parent])
    case PAwait => if s.turn != 0 then s else s.(ppc := PRecord)
    case PRecord =>
      s.(samples := s.samples + [Sample(s.stamp1.time - s.stamp0.time, s.stamp0, s.stamp1)],
         pi := s.pi + 1, ppc := PStamp)
    case PSetDone => s.(done := true, ppc := PJoin)
    case PJoin => s.(ppc := PGone)
    case PGone => s
  }

  predicate ChildEnabled(s: State) {
    !s.cpc.CGone? && !s.cpc.CBroke?
  }

  function ChildStep(n: nat, s: State): State {
    match s.cpc
    case CHead => if s.ci < n then s.(cpc := CTestTurn) else s.(cpc := CGone)
    case CTestTurn => if s.turn != 1 then s.(cpc := CTestDone) else s.(cpc := CTestBreak)
    case CTestDone => if s.done then s.(cpc := CTestBreak) else s.(cpc := CTestTurn)
    case CTestBreak => if s.done then s.(cpc := CBroke) else s.(cpc := CStamp)
    case CStamp => s.(stamp1 := Stamp(s.clock, s.ci), cpc := CGive)
    case CGive => s.(turn := 0, ci := s.ci + 1, cpc := CHead, moves := s.moves + [Rally.Child])
    case CGone => s
    case CBroke => s
  }

  // A party steps, or time passes.
  ghost predicate Next(n: nat, s: State, s': State) {
    || (ParentEnabled(s) && s' == ParentStep(n, s))
    || (ChildEnabled(s) && s' == ChildStep(n, s))
    || (s.clock <= s'.clock && s' == s.(clock := s'.clock))
  }

  ghost predicate InRun(n: nat, s: State) {
    Reachable(s, s => Init(s), (s, s') => Next(n, s, s'))
  }

  predicate HasTurn(s: State) {
    s.cpc.CTestBreak? || s.cpc.CStamp? || s.cpc.CGive?
  }

  predicate Finishing(s: State) {
    s.ppc.PSetDone? || s.ppc.PJoin? || s.ppc.PGone?
  }

  predicate Control(n: nat, s: State) {
    && (s.turn == 0 || s.turn == 1)
    && s.pi <= n && s.ci <= n
    && (s.done <==> s.ppc.PJoin? || s.ppc.PGone?)
    && (Finishing(s) ==> s.pi == n)
    && (s.ppc.PGive? || s.ppc.PAwait? || s.ppc.PRecord? ==> s.pi < n)
    && (s.turn == 1 ==> s.ppc.PAwait? && s.ci == s.pi)
    && (s.turn == 0 ==> s.ci == if s.ppc.PAwait? || s.ppc.PRecord? then s.pi + 1 else s.pi)
    && (HasTurn(s) ==> s.turn == 1)
    && (s.cpc.CTestTurn? || s.cpc.CTestDone? || HasTurn(s) ==> s.ci < n)
    && (s.cpc.CGone? ==> s.ci == n)
    && !s.cpc.CBroke?
  }

  predicate Stamps(s: State) {
    && (s.ppc.PGive? || s.ppc.PAwait? || s.ppc.PRecord? ==> s.stamp0.round == s.pi && s.stamp0.time <= s.clock)
    && (s.cpc.CGive? || (s.turn == 0 && (s.ppc.PAwait? || s.ppc.PRecord?)) ==>
          s.stamp1.round == s.pi && s.stamp0.time <= s.stamp1.time)
  }

  predicate Good(x: Sample, k: nat) {
    x.sent.round == k && x.reply.round == k && x.duration == x.reply.time - x.sent.time && x.duration >= 0
  }

  // Two moves for every finished round of the child, one more while it is its turn.
  predicate Moved(s: State) {
    s.moves == Rally.Alternation(2 * s.ci + if s.turn == 1 then 1 else 0)
  }

  predicate Inv(n: nat, s: State) {
    && Control(n, s)
    && Stamps(s)
    && Moved(s)
    && |s.samples| == s.pi
    && forall k :: 0 <= k < s.pi ==> Good(s.samples[k], k)
  }

  function View(s: State): Rally.Game {
    Rally.Game(s.moves)
  }

  lemma StepKeepsControl(n: nat, s: State)
    requires Control(n, s)
    ensures ParentEnabled(s) ==> Control(n, ParentStep(n, s))
    ensures ChildEnabled(s) ==> Control(n, ChildStep(n, s))
  {
  }

  lemma StepKeepsStamps(n: nat, s: State)
    requires Control(n, s) && Stamps(s)
    ensures ParentEnabled(s) ==> Stamps(ParentStep(n, s))
    ensures ChildEnabled(s) ==> Stamps(ChildStep(n, s))
  {
  }

  lemma StepKeepsMoved(n: nat, s: State)
    requires Control(n, s) && Moved(s)
    ensures ParentEnabled(s) ==> Moved(ParentStep(n, s))
    ensures ChildEnabled(s) ==> Moved(ChildStep(n, s))
  {
  }

  lemma StepKeepsInv(n: nat, s: State)
    requires Inv(n, s)
    ensures ParentEnabled(s) ==> Inv(n, ParentStep(n, s))
    ensures ChildEnabled(s) ==> Inv(n, ChildStep(n, s))
  {
    StepKeepsControl(n, s);
    StepKeepsStamps(n, s);
    StepKeepsMoved(n, s);
  }

  lemma InvInductive(n: nat)
    ensures Inductive((s: State) => Inv(n, s), s => Init(s), (s, s') => Next(n, s, s'))
  {
    forall s, s' | Inv(n, s) && Next(n, s, s') ensures Inv(n, s') {
      StepKeepsInv(n, s);
    }
  }

  // A step that hands control over is the stepping party's move, and only ever in turn.
  lemma MovesInTurn(n: nat, s: State)
    requires Inv(n, s)
    ensures ParentEnabled(s) ==> var g, g' := View(s), View(ParentStep(n, s));
            g' == g || (Rally.Next(n, g, g') && g'.moves == g.moves + [Rally.Parent])
    ensures ChildEnabled(s) ==> var g, g' := View(s), View(ChildStep(n, s));
            g' == g || (Rally.Next(n, g, g') && g'.moves == g.moves + [Rally.Child])
  {
  }

  // The turn machine refines the rally.
  lemma RefinesRally(n: nat, s: State)
    requires InRun(n, s)
    ensures Inv(n, s) && Rally.Playable(n, View(s))
  {
    var init, next, inv := s => Init(s), (s, s') => Next(n, s, s'), (s: State) => Inv(n, s);
    InvInductive(n);
    forall s, s' | inv(s) && next(s, s') ensures View(s') == View(s) || Rally.Next(n, View(s), View(s')) {
      MovesInTurn(n, s);
    }
    ReachableKeeps(s, init, next, inv);
    ReachableRefines(s, inv, init, next, s => View(s), g => Rally.Init(g), (g, g') => Rally.Next(n, g, g'));
  }

  // The reply time used in round k was written by the child in round k, after the parent's own stamp; when
  // the parent is done there is one sample per iteration, and the child never leaves through its break.
  lemma SamplesAreRounds(n: nat, s: State)
    requires InRun(n, s)
    ensures |s.samples| == s.pi <= n && !s.cpc.CBroke?
    ensures forall k :: 0 <= k < |s.samples| ==> Good(s.samples[k], k)
    ensures Finishing(s) ==> |s.samples| == n && View(s).moves == Rally.Alternation(2 * n)
  {
    RefinesRally(n, s);
  }

  /* ----- the clock behind every sample ----- */

  // Before position m of the run the parent has stamped the time of its round.
  ghost predicate ParentStamped(run: seq<State>, m: nat, st: Stamp) {
    exists a :: ParentStampsAt(run, m, a, st)
  }

  predicate ParentStampsAt(run: seq<State>, m: nat, a: int, st: Stamp) {
    && 0 <= a < m < |run|
    && run[a].ppc.PStamp? && run[a + 1].ppc.PGive? && run[a].pi == st.round && run[a].clock == st.time
  }

  ghost predicate ChildStamped(run: seq<State>, m: nat, st: Stamp) {
    exists b :: ChildStampsAt(run, m, b, st)
  }

  predicate ChildStampsAt(run: seq<State>, m: nat, b: int, st: Stamp) {
    && 0 <= b < m < |run|
    && run[b].cpc.CStamp? && run[b + 1].cpc.CGive? && run[b].ci == st.round && run[b].clock == st.time
  }

  ghost predicate Timed(run: seq<State>, m: nat)
    requires m < |run|
  {
    && (run[m].stamp0.round >= 0 ==> ParentStamped(run, m, run[m].stamp0))
    && (run[m].stamp1.round >= 0 ==> ChildStamped(run, m, run[m].stamp1))
    && forall k :: 0 <= k < |run[m].samples| ==>
         ParentStamped(run, m, run[m].samples[k].sent) && ChildStamped(run, m, run[m].samples[k].reply)
  }

  lemma StampsLast(run: seq<State>, m: nat)
    requires m + 1 < |run|
    ensures forall st :: ParentStamped(run, m, st) ==> ParentStamped(run, m + 1, st)
    ensures forall st :: ChildStamped(run, m, st) ==> ChildStamped(run, m + 1, st)
  {
    forall st | ParentStamped(run, m, st) ensures ParentStamped(run, m + 1, st) {
      var a :| ParentStampsAt(run, m, a, st);
      assert ParentStampsAt(run, m + 1, a, st);
    }
    forall st | ChildStamped(run, m, st) ensures ChildStamped(run, m + 1, st) {
      var b :| ChildStampsAt(run, m, b, st);
      assert ChildStampsAt(run, m + 1, b, st);
    }
  }

  lemma ParentKeepsTimed(n: nat, run: seq<State>, m: nat)
    requires m + 1 < |run| && Inv(n, run[m]) && Timed(run, m)
    requires ParentEnabled(run[m]) && run[m + 1] == ParentStep(n, run[m])
    ensures Timed(run, m + 1)
  {
    StampsLast(run, m);
    if run[m].ppc.PStamp? && run[m].pi < n {
      assert ParentStampsAt(run, m + 1, m, run[m + 1].stamp0);
    }
  }

  lemma ChildKeepsTimed(n: nat, run: seq<State>, m: nat)
    requires m + 1 < |run| && Inv(n, run[m]) && Timed(run, m)
    requires ChildEnabled(run[m]) && run[m + 1] == ChildStep(n, run[m])
    ensures Timed(run, m + 1)
  {
    StampsLast(run, m);
    if run[m].cpc.CStamp? {
      assert ChildStampsAt(run, m + 1, m, run[m + 1].stamp1);
    }
  }

  lemma {:induction false} AlwaysTimed(n: nat, run: seq<State>, m: nat)
    requires IsRun(run, s => Init(s), (s, s') => Next(n, s, s')) && m < |run|
    ensures Inv(n, run[m]) && Timed(run, m)
  {
    var init, next := s => Init(s), (s, s') => Next(n, s, s');
    InvInductive(n);
    InvariantHolds(run, m, init, next, (s: State) => Inv(n, s));
    if m > 0 {
      var before := m - 1;
      AlwaysTimed(n, run, before);
      assert next(run[before], run[before + 1]);
      if ParentEnabled(run[before]) && run[m] == ParentStep(n, run[before]) {
        ParentKeepsTimed(n, run, before);
      } else if ChildEnabled(run[before]) && run[m] == ChildStep(n, run[before]) {
        ChildKeepsTimed(n, run, before);
      } else {
        StampsLast(run, before);
      }
    }
  }

  // Sample k is the clock at the moment the child stamped round k minus the clock when the parent did.
  lemma SamplesAreClockTimes(n: nat, run: seq<State>, k: nat) returns (a: nat, b: nat)
    requires IsRun(run, s => Init(s), (s, s') => Next(n, s, s')) && k < |run[|run| - 1].samples|
    ensures a < |run| - 1 && run[a].ppc.PStamp? && run[a + 1].ppc.PGive? && run[a].pi == k
    ensures b < |run| - 1 && run[b].cpc.CStamp? && run[b + 1].cpc.CGive? && run[b].ci == k
    ensures run[|run| - 1].samples[k].duration == run[b].clock - run[a].clock
  {
    var m := |run| - 1;
    AlwaysTimed(n, run, m);
    var x := run[m].samples[k];
    assert Good(x, k);
    assert ParentStamped(run, m, x.sent) && ChildStamped(run, m, x.reply);
    a :| ParentStampsAt(run, m, a, x.sent);
    b :| ChildStampsAt(run, m, b, x.reply);
  }

  // How far the two loops have come; a spinning test does not count.
  function Progress(s: State): nat {
    4 * s.pi
    + (match s.ppc case PStamp => 0 case PGive => 1 case PAwait => 2 case PRecord => 3
       case PSetDone => 1 case PJoin => 2 case PGone => 3)
    + 6 * s.ci
    + (match s.cpc case CHead => 0 case CTestTurn => if s.turn == 1 then 2 else 1 case CTestDone => 1
       case CTestBreak => 3 case CStamp => 4 case CGive => 5 case CGone => 1 case CBroke => 0)
  }

  // Nothing is ever undone, the total is bounded, and until both have left some party can move it up.
  lemma SomePartyProgresses(n: nat, s: State)
    requires InRun(n, s)
    ensures Progress(s) <= 10 * n + 4
    ensures ParentEnabled(s) ==> Progress(s) <= Progress(ParentStep(n, s))
    ensures ChildEnabled(s) ==> Progress(s) <= Progress(ChildStep(n, s))
    ensures s.ppc.PGone? && s.cpc.CGone? ==> Progress(s) == 10 * n + 4
    ensures !(s.ppc.PGone? && s.cpc.CGone?) ==>
              || (ParentEnabled(s) && Progress(s) < Progress(ParentStep(n, s)))
              || (ChildEnabled(s) && Progress(s) < Progress(ChildStep(n, s)))
  {
    RefinesRally(n, s);
  }
}

// measure_with_pipes: each side blocks in read. `faulty` lets any read or write fail, which makes the parent
// throw and the child leave its loop.
module PipeHandOff {
  import opened Runs
  import Rally

  datatype ParentPc = PStart | PWrite | PRead | PStop | PGone | PThrew

  datatype ChildPc = CHead | CRead | CWrite | CGone | CBrokeReading | CBrokeWriting

  // `moves` records who wrote (history).
  datatype State = State(
    clock: int, toChild: seq<int>, toParent: seq<int>,
    ppc: ParentPc, pi: nat, pbyte: int, start: int, times: seq<int>, cpc: ChildPc, ci: nat, cbyte: int,
    moves: seq<Rally.Party>)

  ghost predicate Init(s: State) {
    s == State(s.clock, [], [], PStart, 0, 1, 0, [], CHead, 0, s.cbyte, [])
  }

  predicate ParentEnabled(s: State) {
    !s.ppc.PGone? && !s.ppc.PThrew? && (s.ppc.PRead? ==> |s.toParent| > 0)
  }

  function ParentStep(n: nat, s: State): State
    requires ParentEnabled(s)
  {
    match s.ppc
    case PStart => if s.pi < n then s.(start := s.clock, ppc := PWrite) else s.(ppc := PGone)
    case PWrite => s.(toChild := s.toChild + [s.pbyte], ppc := PRead, moves := s.moves + [Rally.Parent])
    case PRead => s.(pbyte := s.toParent[0], toParent := s.toParent[1..], ppc := PStop)
    case PStop => s.(times := s.times + [s.clock - s.start], pi := s.pi + 1, ppc := PStart)
  }

  predicate ChildEnabled(s: State) {
    (s.cpc.CHead? || s.cpc.CRead? || s.cpc.CWrite?) && (s.cpc.CRead? ==> |s.toChild| > 0)
  }

  function ChildStep(n: nat, s: State): State
    requires ChildEnabled(s)
  {
    match s.cpc
    case CHead => if s.ci < n then s.(cpc := CRead) else s.(cpc := CGone)
    case CRead => s.(cbyte := s.toChild[0], toChild := s.toChild[1..], cpc := CWrite)
    case CWrite =>
      s.(toParent := s.toParent + [s.cbyte], ci := s.ci + 1, cpc := CHead, moves := s.moves + [Rally.Child])
  }

  ghost predicate Fails(s: State, s': State) {
    || ((s.ppc.PWrite? || s.ppc.PRead?) && s' == s.(ppc := PThrew))
    || (s.cpc.CRead? && s' == s.(cpc := CBrokeReading))
    || (s.cpc.CWrite? && s' == s.(cpc := CBrokeWriting))
  }

  ghost predicate Next(faulty: bool, n: nat, s: State, s': State) {
    || (ParentEnabled(s) && s' == ParentStep(n, s))
    || (ChildEnabled(s) && s' == ChildStep(n, s))
    || (faulty && Fails(s, s'))
    || (s.clock <= s'.clock && s' == s.(clock := s'.clock))
  }

  ghost predicate InRun(faulty: bool, n: nat, s: State) {
    Reachable(s, s => Init(s), (s, s') => Next(faulty, n, s, s'))
  }

  predicate ChildHolds(s: State) {
    s.cpc.CWrite? || s.cpc.CBrokeWriting?
  }

  // The one byte in play is in a pipe, in the child's hands, or with the parent.
  predicate Token(s: State) {
    && |s.toChild| + |s.toParent| + (if ChildHolds(s) then 1 else 0) <= 1
    && (|s.toChild| == 1 || ChildHolds(s) ==> s.ci == s.pi && (s.ppc.PRead? || s.ppc.PThrew?))
    && (|s.toParent| == 1 ==> s.ci == s.pi + 1 && (s.ppc.PRead? || s.ppc.PThrew?))
    && (s.ppc.PRead? ==> |s.toChild| == 1 || |s.toParent| == 1 || ChildHolds(s))
    && (s.ppc.PStop? ==> s.ci == s.pi + 1)
    && (s.ppc.PStart? || s.ppc.PWrite? || s.ppc.PGone? ==> s.ci == s.pi)
    && (s.ppc.PThrew? && |s.toChild| == 0 && |s.toParent| == 0 && !ChildHolds(s) ==> s.ci == s.pi)
    && s.pbyte == 1 && (ChildHolds(s) ==> s.cbyte == 1)
    && (|s.toChild| == 1 ==> s.toChild[0] == 1)
    && (|s.toParent| == 1 ==> s.toParent[0] == 1)
  }

  // Two moves for every byte the child has sent back, one more while a byte is on its way there.
  predicate Moved(s: State) {
    s.moves == Rally.Alternation(2 * s.ci + if |s.toChild| > 0 || ChildHolds(s) then 1 else 0)
  }

  predicate Inv(faulty: bool, n: nat, s: State) {
    && Token(s)
    && Moved(s)
    && s.pi <= n && s.ci <= n
    && (s.ppc.PGone? ==> s.pi == n)
    && (s.ppc.PWrite? || s.ppc.PRead? || s.ppc.PStop? || s.ppc.PThrew? ==> s.pi < n)
    && (s.cpc.CRead? || ChildHolds(s) || s.cpc.CBrokeReading? ==> s.ci < n)
    && (s.cpc.CGone? ==> s.ci == n)
    && (s.ppc.PWrite? || s.ppc.PRead? || s.ppc.PStop? ==> s.start <= s.clock)
    && |s.times| == s.pi
    && (forall k :: 0 <= k < s.pi ==> s.times[k] >= 0)
    && (!faulty ==> !s.ppc.PThrew? && !s.cpc.CBrokeReading? && !s.cpc.CBrokeWriting?)
  }

  function View(s: State): Rally.Game {
    Rally.Game(s.moves)
  }

  lemma StepKeepsMoved(n: nat, s: State)
    requires Token(s) && Moved(s)
    ensures ParentEnabled(s) ==> Moved(ParentStep(n, s))
    ensures ChildEnabled(s) ==> Moved(ChildStep(n, s))
  {
  }

  lemma StepKeepsInv(faulty: bool, n: nat, s: State)
    requires Inv(faulty, n, s)
    ensures ParentEnabled(s) ==> Inv(faulty, n, ParentStep(n, s))
    ensures ChildEnabled(s) ==> Inv(faulty, n, ChildStep(n, s))
  {
    StepKeepsMoved(n, s);
  }

  lemma FailureKeepsInv(n: nat, s: State, s': State)
    requires Inv(true, n, s) && Fails(s, s')
    ensures Inv(true, n, s')
  {
  }

  lemma InvInductive(faulty: bool, n: nat)
    ensures Inductive((s: State) => Inv(faulty, n, s), s => Init(s), (s, s') => Next(faulty, n, s, s'))
  {
    forall s, s' | Inv(faulty, n, s) && Next(faulty, n, s, s') ensures Inv(faulty, n, s') {
      StepKeepsInv(faulty, n, s);
      if faulty && Fails(s, s') {
        FailureKeepsInv(n, s, s');
      }
    }
  }

  // Parties write only in turn.
  lemma MovesInTurn(faulty: bool, n: nat, s: State, s': State)
    requires Inv(faulty, n, s) && Next(faulty, n, s, s')
    ensures View(s') == View(s) || Rally.Next(n, View(s), View(s'))
  {
  }

  // The pipe machine refines the same rally, even when system calls fail.
  lemma RefinesRally(faulty: bool, n: nat, s: State)
    requires InRun(faulty, n, s)
    ensures Inv(faulty, n, s) && Rally.Playable(n, View(s))
  {
    var init, next := s => Init(s), (s, s') => Next(faulty, n, s, s');
    var inv := (s: State) => Inv(faulty, n, s);
    InvInductive(faulty, n);
    forall s, s' | inv(s) && next(s, s') ensures View(s') == View(s) || Rally.Next(n, View(s), View(s')) {
      MovesInTurn(faulty, n, s, s');
    }
    ReachableKeeps(s, init, next, inv);
    ReachableRefines(s, inv, init, next, s => View(s), g => Rally.Init(g), (g, g') => Rally.Next(n, g, g'));
  }

  // There is never more than one byte in both pipes together, and it is the byte the parent first sent.
  lemma OneByte(faulty: bool, n: nat, s: State)
    requires InRun(faulty, n, s)
    ensures s.toChild + s.toParent in {[], [1]} && s.pbyte == 1
    ensures |s.times| == s.pi <= n && forall k :: 0 <= k < |s.times| ==> s.times[k] >= 0
    ensures s.ppc.PGone? ==> |s.times| == n && View(s).moves == Rally.Alternation(2 * n)
  {
    RefinesRally(faulty, n, s);
    if |s.toChild + s.toParent| == 1 {
      assert s.toChild + s.toParent == [1];
    }
  }

  /* ----- the clock behind every time ----- */

  // The parent starts round k at position a of the run, before position m.
  predicate StartsAt(run: seq<State>, m: nat, a: int, k: nat) {
    0 <= a < m < |run| && run[a].ppc.PStart? && run[a + 1].ppc.PWrite? && run[a].pi == k
  }

  // And has the answer at position b.
  predicate EndsAt(run: seq<State>, m: nat, b: int, k: nat) {
    0 <= b < m < |run| && run[b].ppc.PStop? && run[b + 1].ppc.PStart? && run[b].pi == k
  }

  ghost predicate Started(run: seq<State>, m: nat, k: nat, time: int) {
    exists a :: StartsAt(run, m, a, k) && run[a].clock == time
  }

  ghost predicate Took(run: seq<State>, m: nat, k: nat, duration: int) {
    exists a, b :: StartsAt(run, m, a, k) && EndsAt(run, m, b, k) && duration == run[b].clock - run[a].clock
  }

  ghost predicate Timed(run: seq<State>, m: nat)
    requires m < |run|
  {
    && (run[m].ppc.PWrite? || run[m].ppc.PRead? || run[m].ppc.PStop? ==> Started(run, m, run[m].pi, run[m].start))
    && forall k: nat :: k < |run[m].times| ==> Took(run, m, k, run[m].times[k])
  }

  lemma TimesLast(run: seq<State>, m: nat)
    requires m + 1 < |run|
    ensures forall k: nat, time :: Started(run, m, k, time) ==> Started(run, m + 1, k, time)
    ensures forall k: nat, time :: Took(run, m, k, time) ==> Took(run, m + 1, k, time)
  {
    forall k: nat, time | Started(run, m, k, time) ensures Started(run, m + 1, k, time) {
      var a :| StartsAt(run, m, a, k) && run[a].clock == time;
      assert StartsAt(run, m + 1, a, k);
    }
    forall k: nat, time | Took(run, m, k, time) ensures Took(run, m + 1, k, time) {
      var a, b :| StartsAt(run, m, a, k) && EndsAt(run, m, b, k) && time == run[b].clock - run[a].clock;
      assert StartsAt(run, m + 1, a, k) && EndsAt(run, m + 1, b, k);
    }
  }

  lemma ParentKeepsTimed(faulty: bool, n: nat, run: seq<State>, m: nat)
    requires m + 1 < |run| && Inv(faulty, n, run[m]) && Timed(run, m)
    requires ParentEnabled(run[m]) && run[m + 1] == ParentStep(n, run[m])
    ensures Timed(run, m + 1)
  {
    TimesLast(run, m);
    var s := run[m];
    if s.ppc.PStart? && s.pi < n {
      assert StartsAt(run, m + 1, m, s.pi);
    } else if s.ppc.PStop? {
      var a :| StartsAt(run, m, a, s.pi) && run[a].clock == s.start;
      assert StartsAt(run, m + 1, a, s.pi) && EndsAt(run, m + 1, m, s.pi);
      assert Took(run, m + 1, s.pi, s.clock - s.start);
    }
  }

  // Only the parent touches its own variables, except that a failing call makes it throw.
  predicate SameParent(s: State, s': State) {
    s'.times == s.times && s'.start == s.start && s'.pi == s.pi && (s'.ppc == s.ppc || s'.ppc.PThrew?)
  }

  lemma OthersLeave(faulty: bool, n: nat, s: State, s': State)
    requires Next(faulty, n, s, s') && !(ParentEnabled(s) && s' == ParentStep(n, s))
    ensures SameParent(s, s')
  {
  }

  lemma OthersKeepTimed(run: seq<State>, m: nat)
    requires m + 1 < |run| && Timed(run, m) && SameParent(run[m], run[m + 1])
    ensures Timed(run, m + 1)
  {
    TimesLast(run, m);
  }

  lemma {:induction false} AlwaysTimed(faulty: bool, n: nat, run: seq<State>, m: nat)
    requires IsRun(run, s => Init(s), (s, s') => Next(faulty, n, s, s')) && m < |run|
    ensures Inv(faulty, n, run[m]) && Timed(run, m)
  {
    var init, next := s => Init(s), (s, s') => Next(faulty, n, s, s');
    InvInductive(faulty, n);
    InvariantHolds(run, m, init, next, (s: State) => Inv(faulty, n, s));
    if m > 0 {
      var before := m - 1;
      AlwaysTimed(faulty, n, run, before);
      assert next(run[before], run[before + 1]);
      if ParentEnabled(run[before]) && run[m] == ParentStep(n, run[before]) {
        ParentKeepsTimed(faulty, n, run, before);
      } else {
        OthersLeave(faulty, n, run[before], run[m]);
        OthersKeepTimed(run, before);
      }
    }
  }

  // Time k is the clock when the parent had its byte back in round k minus the clock when it began the round.
  lemma TimesAreClockTimes(faulty: bool, n: nat, run: seq<State>, k: nat) returns (a: nat, b: nat)
    requires IsRun(run, s => Init(s), (s, s') => Next(faulty, n, s, s')) && k < |run[|run| - 1].times|
    ensures a < |run| - 1 && run[a].ppc.PStart? && run[a + 1].ppc.PWrite? && run[a].pi == k
    ensures b < |run| - 1 && run[b].ppc.PStop? && run[b + 1].ppc.PStart? && run[b].pi == k
    ensures run[|run| - 1].times[k] == run[b].clock - run[a].clock
  {
    var m := |run| - 1;
    AlwaysTimed(faulty, n, run, m);
    assert Took(run, m, k, run[m].times[k]);
    a, b :| StartsAt(run, m, a, k) && EndsAt(run, m, b, k) && run[m].times[k] == run[b].clock - run[a].clock;
  }

  function Progress(s: State): nat {
    4 * s.pi + (match s.ppc case PStart => 0 case PWrite => 1 case PRead => 2 case PStop => 3 case _ => 1)
    + 3 * s.ci + (match s.cpc case CHead => 0 case CRead => 1 case CWrite => 2 case _ => 1)
  }

  // Without failures every step moves the loops forward and until both have left somebody is not blocked.
  lemma NeverBlocked(n: nat, s: State)
    requires InRun(false, n, s)
    ensures Progress(s) <= 7 * n + 2
    ensures ParentEnabled(s) ==> Progress(s) < Progress(ParentStep(n, s))
    ensures ChildEnabled(s) ==> Progress(s) < Progress(ChildStep(n, s))
    ensures ParentEnabled(s) || ChildEnabled(s) || (s.ppc.PGone? && s.cpc.CGone?)
  {
    RefinesRally(false, n, s);
  }
}

module SameRally {
  import Rally
  import TurnHandOff
  import PipeHandOff

  // With the same number of iterations both mechanisms play the very same game to the end.
  lemma SameGame(n: nat, s: TurnHandOff.State, faulty: bool, p: PipeHandOff.State)
    requires TurnHandOff.InRun(n, s) && TurnHandOff.Finishing(s)
    requires PipeHandOff.InRun(faulty, n, p) && p.ppc.PGone?
    ensures TurnHandOff.View(s) == PipeHandOff.View(p) && |s.samples| == |p.times| == n
    ensures Rally.Playable(n, TurnHandOff.View(s))
  {
    TurnHandOff.RefinesRally(n, s);
    PipeHandOff.RefinesRally(faulty, n, p);
  }
}
