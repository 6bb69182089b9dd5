// One TCP client of the network benchmark and the echo side of the select server, joined by two lossless
// byte streams. Every recv may return any non-empty part of what has arrived.
module EchoProtocol {
  import opened Runs

  datatype ClientPc = Sending | Receiving | Finished | Aborted

  // Bytes on the way to the server, in the server's buffer, and on the way back. `dropped` counts the bytes a
  // short send of the server threw away, `delivered` lists the receive buffer as each round ended (history).
  datatype State = State(
    toServer: seq<int>, inHand: seq<int>, toClient: seq<int>, dropped: nat,
    pc: ClientPc, stop: bool, buffer: seq<int>, got: nat, round: nat, delivered: seq<seq<int>>,
    bytesSent: nat, messagesSent: nat, bytesReceived: nat, messagesReceived: nat,
    serverReceived: nat, serverSent: nat)

  // `lossy` allows the server's send to accept only part of the buffer.
  datatype Setup = Setup(size: nat, rounds: nat, lossy: bool)

  datatype Action =
    | RequestStop
    | ClientSend
    | ClientShortSend(sent: nat)
    | ClientQuit
    | ClientRecv(n: nat)
    | ClientComplete
    | ClientRecvFails
    | ServerRecv(n: nat)
    | ServerSend(sent: nat)

  function Message(size: nat): seq<int> {
    seq(size, i => i % 256)
  }

  // The receive buffer is not initialised.
  ghost predicate Init(p: Setup, s: State) {
    && |s.buffer| == p.size
    && s == State([], [], [], 0, Sending, false, s.buffer, 0, 0, [], 0, 0, 0, 0, 0, 0)
  }

  predicate Enabled(p: Setup, s: State, a: Action) {
    match a
    case RequestStop => true
    case ClientSend => s.pc.Sending? && s.round < p.rounds && !s.stop
    case ClientShortSend(sent) => s.pc.Sending? && s.round < p.rounds && !s.stop && sent < p.size
    case ClientQuit => s.pc.Sending? && (s.round >= p.rounds || s.stop)
    case ClientRecv(n) => s.pc.Receiving? && s.got < p.size && 1 <= n <= |s.toClient| && s.got + n <= p.size
    case ClientComplete => s.pc.Receiving? && s.got >= p.size
    case ClientRecvFails => s.pc.Receiving? && s.got < p.size
    case ServerRecv(n) => |s.inHand| == 0 && 1 <= n <= |s.toServer| && n <= p.size
    case ServerSend(sent) => |s.inHand| > 0 && sent <= |s.inHand| && (p.lossy || sent == |s.inHand|)
  }

  function Fill(buffer: seq<int>, at: nat, bytes: seq<int>): seq<int>
    requires at + |bytes| <= |buffer|
  {
    buffer[..at] + bytes + buffer[at + |bytes|..]
  }

  function Apply(p: Setup, s: State, a: Action): State
    requires Enabled(p, s, a) && |s.buffer| == p.size
  {
    match a
    case RequestStop => s.(stop := true)
    case ClientSend =>
      s.(toServer := s.toServer + Message(p.size), bytesSent := s.bytesSent + p.size,
         messagesSent := s.messagesSent + 1, got := 0, pc := Receiving)
    case ClientShortSend(sent) => s.(toServer := s.toServer + Message(p.size)[..sent], pc := Aborted)
    case ClientQuit => s.(pc := Finished)
    case ClientRecv(n) =>
      s.(buffer := Fill(s.buffer, s.got, s.toClient[..n]), got := s.got + n, toClient := s.toClient[n..])
    case ClientComplete =>
      s.(bytesReceived := s.bytesReceived + s.got, messagesReceived := s.messagesReceived + 1,
         delivered := s.delivered + [s.buffer], round := s.round + 1, pc := Sending)
    case ClientRecvFails => s.(pc := Aborted)
    case ServerRecv(n) =>
      s.(inHand := s.toServer[..n], toServer := s.toServer[n..], serverReceived := s.serverReceived + n)
    case ServerSend(sent) =>
      s.(toClient := s.toClient + s.inHand[..sent], dropped := s.dropped + |s.inHand| - sent, inHand := [],
         serverSent := s.serverSent + sent)
  }

  ghost predicate Next(p: Setup, s: State, s': State) {
    |s.buffer| == p.size && exists a: Action :: Enabled(p, s, a) && s' == Apply(p, s, a)
  }

  ghost predicate InRun(p: Setup, s: State) {
    Reachable(s, s => Init(p, s), (s, s') => Next(p, s, s'))
  }

  /* ----- the invariant ----- */

  function Outstanding(s: State): nat {
    |s.toServer| + |s.inHand| + |s.toClient|
  }

  // While nothing has been dropped, what has been received followed by the bytes still out is the message.
  predicate Content(p: Setup, s: State)
    requires s.got <= |s.buffer|
  {
    s.dropped == 0 ==> s.buffer[..s.got] + (s.toClient + s.inHand + s.toServer) == Message(p.size)
  }

  predicate Flow(p: Setup, s: State) {
    match s.pc
    case Sending => Outstanding(s) == 0 && s.dropped == 0
    case Finished => Outstanding(s) == 0 && s.dropped == 0
    case Receiving =>
      s.got + Outstanding(s) + s.dropped == p.size && s.got <= |s.buffer| && Content(p, s)
    case Aborted => Outstanding(s) <= p.size
  }

  predicate Counters(p: Setup, s: State) {
    && s.round == |s.delivered| == s.messagesReceived <= p.rounds
    && s.bytesReceived == p.size * s.messagesReceived
    && s.bytesSent == p.size * s.messagesSent
    && (s.pc.Receiving? ==> s.messagesSent == s.messagesReceived + 1 && s.round < p.rounds)
    && (s.pc.Sending? || s.pc.Finished? ==> s.messagesSent == s.messagesReceived)
    && s.messagesReceived <= s.messagesSent <= s.messagesReceived + 1 && s.messagesSent <= p.rounds
    && s.serverReceived == s.serverSent + |s.inHand| + s.dropped
    && (!p.lossy ==> s.dropped == 0)
  }

  predicate Inv(p: Setup, s: State) {
    && |s.buffer| == p.size
    && Flow(p, s)
    && Counters(p, s)
    && (s.pc.Finished? ==> s.round == p.rounds || s.stop)
    && forall k :: 0 <= k < |s.delivered| ==> s.delivered[k] == Message(p.size)
  }

  lemma FillPrefix(buffer: seq<int>, at: nat, bytes: seq<int>)
    requires at + |bytes| <= |buffer|
    ensures |Fill(buffer, at, bytes)| == |buffer|
    ensures Fill(buffer, at, bytes)[..at + |bytes|] == buffer[..at] + bytes
  {
  }

  lemma ClientRecvFlow(p: Setup, s: State, n: nat)
    requires Inv(p, s) && Enabled(p, s, ClientRecv(n))
    ensures Flow(p, Apply(p, s, ClientRecv(n))) && |Apply(p, s, ClientRecv(n)).buffer| == p.size
  {
    var s' := Apply(p, s, ClientRecv(n));
    FillPrefix(s.buffer, s.got, s.toClient[..n]);
    var rest := s.inHand + s.toServer;
    assert s.buffer[..s.got] + (s.toClient + rest) == s'.buffer[..s'.got] + (s'.toClient + rest);
    assert s.toClient + s.inHand + s.toServer == s.toClient + rest;
    assert s'.toClient + s'.inHand + s'.toServer == s'.toClient + rest;
  }

  lemma ServerRecvFlow(p: Setup, s: State, n: nat)
    requires Inv(p, s) && Enabled(p, s, ServerRecv(n))
    ensures Flow(p, Apply(p, s, ServerRecv(n)))
  {
    var s' := Apply(p, s, ServerRecv(n));
    assert s.toClient + s.inHand + s.toServer == s'.toClient + s'.inHand + s'.toServer;
  }

  lemma ServerSendFlow(p: Setup, s: State, sent: nat)
    requires Inv(p, s) && Enabled(p, s, ServerSend(sent))
    ensures Flow(p, Apply(p, s, ServerSend(sent)))
  {
    var s' := Apply(p, s, ServerSend(sent));
    if sent == |s.inHand| {
      assert s.toClient + s.inHand + s.toServer == s'.toClient + s'.inHand + s'.toServer;
    }
  }

  lemma ClientSendFlow(p: Setup, s: State)
    requires Inv(p, s) && Enabled(p, s, ClientSend)
    ensures Flow(p, Apply(p, s, ClientSend))
  {
    var s' := Apply(p, s, ClientSend);
    assert s'.buffer[..s'.got] + (s'.toClient + s'.inHand + s'.toServer) == Message(p.size);
  }

  lemma OneMore(size: nat, k: nat)
    ensures size * (k + 1) == size * k + size
  {
  }

  lemma ApplyKeepsCounters(p: Setup, s: State, a: Action)
    requires Inv(p, s) && Enabled(p, s, a)
    ensures Counters(p, Apply(p, s, a))
  {
    OneMore(p.size, s.messagesSent);
    OneMore(p.size, s.messagesReceived);
  }

  // A round that ends has everything: its bytes account for the message only if none was dropped.
  lemma RoundIsWhole(p: Setup, s: State)
    requires Inv(p, s) && s.pc.Receiving? && s.got >= p.size
    ensures s.dropped == 0 && Outstanding(s) == 0 && s.buffer == Message(p.size)
  {
    assert s.buffer[..s.got] + (s.toClient + s.inHand + s.toServer) == s.buffer;
  }

  lemma ApplyInv(p: Setup, s: State, a: Action)
    requires Inv(p, s) && Enabled(p, s, a)
    ensures Inv(p, Apply(p, s, a))
  {
    ApplyKeepsCounters(p, s, a);
    match a {
      case ClientSend => ClientSendFlow(p, s);
      case ClientRecv(n) => ClientRecvFlow(p, s, n);
      case ClientComplete => RoundIsWhole(p, s);
      case ServerRecv(n) => ServerRecvFlow(p, s, n);
      case ServerSend(sent) => ServerSendFlow(p, s, sent);
      case _ =>
    }
  }

  lemma InvInductive(p: Setup)
    ensures Inductive(s => Inv(p, s), s => Init(p, s), (s, s') => Next(p, s, s'))
  {
    var init, next, inv := s => Init(p, s), (s, s') => Next(p, s, s'), (s: State) => Inv(p, s);
    forall s, s' | inv(s) && next(s, s') ensures inv(s') {
      var a: Action :| Enabled(p, s, a) && s' == Apply(p, s, a);
      ApplyInv(p, s, a);
    }
  }

  lemma InRunInv(p: Setup, s: State)
    requires InRun(p, s)
    ensures Inv(p, s)
  {
    InvInductive(p);
    ReachableKeeps(s, s => Init(p, s), (s, s') => Next(p, s, s'), s => Inv(p, s));
  }

  /* ----- main results ----- */

  // Every round that ends has delivered the message, byte for byte, even if the server's sends may be short.
  lemma EveryRoundEchoes(p: Setup, s: State)
    requires InRun(p, s)
    ensures |s.delivered| == s.messagesReceived
    ensures forall k :: 0 <= k < |s.delivered| ==> s.delivered[k] == Message(p.size)
    ensures !p.lossy && s.pc.Receiving? ==>
              s.got <= |s.buffer| && s.buffer[..s.got] + (s.toClient + s.inHand + s.toServer) == Message(p.size)
    ensures s.pc.Finished? && !s.stop ==> |s.delivered| == p.rounds
  {
    InRunInv(p, s);
  }

  // Once a stop is requested no further message goes out.
  lemma {:induction false} NothingSentAfterStop(p: Setup, run: seq<State>, j: nat, k: nat)
    requires IsRun(run, s => Init(p, s), (s, s') => Next(p, s, s')) && j <= k < |run| && run[j].stop
    ensures run[k].stop && run[k].messagesSent == run[j].messagesSent && run[k].bytesSent == run[j].bytesSent
    ensures run[k].messagesSent <= p.rounds
  {
    var init, next := s => Init(p, s), (s, s') => Next(p, s, s');
    InvInductive(p);
    InvariantHolds(run, k, init, next, s => Inv(p, s));
    if j < k {
      NothingSentAfterStop(p, run, j, k - 1);
      assert next(run[k - 1], run[k - 1 + 1]);
    }
  }

  // A short send of the client leaves exactly the bytes accepted under way, and the client gone.
  lemma ShortSendOut(p: Setup, s: State, sent: nat)
    requires InRun(p, s) && Enabled(p, s, ClientShortSend(sent))
    ensures |s.buffer| == p.size && sent < p.size
    ensures var s' := Apply(p, s, ClientShortSend(sent));
            s'.pc.Aborted? && Outstanding(s') == sent && s'.toServer == Message(p.size)[..sent]
  {
    InRunInv(p, s);
  }

  // The bytes sent count up from 0 and start over at 256.
  lemma MessageBytes(size: nat)
    ensures |Message(size)| == size
    ensures forall i :: 0 <= i < size ==> 0 <= Message(size)[i] < 256
    ensures forall i :: 0 <= i < size && i < 256 ==> Message(size)[i] == i
    ensures forall i :: 0 <= i < size - 256 ==> Message(size)[i + 256] == Message(size)[i]
  {
  }

  // Stop and wait: at most one message is out, and all bytes sent are received, out, or dropped.
  lemma BytesConserved(p: Setup, s: State)
    requires InRun(p, s)
    ensures Outstanding(s) <= p.size
    ensures !s.pc.Aborted? ==>
              s.bytesSent == s.bytesReceived + (if s.pc.Receiving? then s.got else 0) + Outstanding(s) + s.dropped
    ensures s.serverSent <= s.serverReceived && (!p.lossy ==> s.serverReceived == s.serverSent + |s.inHand|)
  {
    InRunInv(p, s);
    OneMore(p.size, s.messagesReceived);
  }

  // Neither side can do anything but fail.
  ghost predicate Stuck(p: Setup, s: State) {
    && (s.pc.Sending? || s.pc.Receiving?)
    && forall a :: Enabled(p, s, a) ==> a.RequestStop? || a.ClientRecvFails?
  }

  // The client hangs exactly when a dropped byte has emptied all stations under it.
  lemma StuckIff(p: Setup, s: State)
    requires InRun(p, s)
    ensures Stuck(p, s) <==> s.pc.Receiving? && s.dropped > 0 && Outstanding(s) == 0
  {
    InRunInv(p, s);
    if s.pc.Sending? {
      SendingGoesOn(p, s);
    } else if s.pc.Receiving? {
      StuckWhileReceiving(p, s);
    }
  }

  lemma SendingGoesOn(p: Setup, s: State)
    requires s.pc.Sending?
    ensures !Stuck(p, s)
  {
    assert Enabled(p, s, ClientSend) || Enabled(p, s, ClientQuit);
  }

  lemma StuckWhileReceiving(p: Setup, s: State)
    requires s.pc.Receiving? && s.got + Outstanding(s) + s.dropped == p.size
    ensures Stuck(p, s) <==> s.dropped > 0 && Outstanding(s) == 0
  {
    if |s.toServer| > 0 && |s.inHand| == 0 {
      assert Enabled(p, s, ServerRecv(1));
    }
    if |s.inHand| > 0 {
      assert Enabled(p, s, ServerSend(|s.inHand|));
    }
    if |s.toClient| > 0 {
      assert Enabled(p, s, ClientRecv(1));
    }
    assert Enabled(p, s, ClientComplete) <==> s.got >= p.size;
  }

  ghost predicate NeverStuck(p: Setup) {
    forall s :: InRun(p, s) ==> !Stuck(p, s)
  }

  // So the protocol cannot hang exactly when the server always sends completely (or nothing is ever sent).
  lemma NeverStuckIff(p: Setup)
    ensures NeverStuck(p) <==> !p.lossy || p.size == 0 || p.rounds == 0
  {
    forall s | InRun(p, s) && (!p.lossy || p.size == 0 || p.rounds == 0) ensures !Stuck(p, s) {
      InRunInv(p, s);
      StuckIff(p, s);
    }
    if p.lossy && p.size > 0 && p.rounds > 0 {
      var s := DropEverything(p);
      StuckIff(p, s);
    }
  }

  lemma Goes(p: Setup, s: State, a: Action) returns (s': State)
    requires InRun(p, s) && Enabled(p, s, a) && |s.buffer| == p.size
    ensures InRun(p, s') && s' == Apply(p, s, a)
  {
    s' := Apply(p, s, a);
    ReachableStep(s, s', s => Init(p, s), (s, s') => Next(p, s, s'));
  }

  lemma DropEverything(p: Setup) returns (s: State)
    requires p.lossy && p.size > 0 && p.rounds > 0
    ensures InRun(p, s) && s.pc.Receiving? && s.dropped == p.size && Outstanding(s) == 0
  {
    s := State([], [], [], 0, Sending, false, Message(p.size), 0, 0, [], 0, 0, 0, 0, 0, 0);
    ReachableStart(s, s => Init(p, s), (s, s') => Next(p, s, s'));
    s := Goes(p, s, ClientSend);
    s := Goes(p, s, ServerRecv(p.size));
    s := Goes(p, s, ServerSend(0));
  }

  // Every division into pieces can happen: the server may take any n bytes, pass on any of them if its sends may be
  // short and all of them otherwise, and the client may take any m of those.
  lemma AnyPieces(p: Setup, n: nat, sent: nat, m: nat) returns (s: State)
    requires p.rounds > 0 && 1 <= m <= sent <= n <= p.size && (p.lossy || sent == n)
    ensures InRun(p, s) && s.pc.Receiving? && s.got == m && s.dropped == n - sent
    ensures |s.toServer| == p.size - n && |s.toClient| == sent - m && s.inHand == []
  {
    s := State([], [], [], 0, Sending, false, Message(p.size), 0, 0, [], 0, 0, 0, 0, 0, 0);
    ReachableStart(s, s => Init(p, s), (s, s') => Next(p, s, s'));
    s := Goes(p, s, ClientSend);
    s := Goes(p, s, ServerRecv(n));
    s := Goes(p, s, ServerSend(sent));
    s := Goes(p, s, ClientRecv(m));
  }

  function RoundsCost(p: Setup, k: nat): nat {
    if k == 0 then 0 else RoundsCost(p, k - 1) + 3 * p.size + 2
  }

  // Work left: every byte has three hops to make in every round that is not over.
  function WorkLeft(p: Setup, s: State): nat {
    var hops := 3 * |s.toServer| + 2 * |s.inHand| + |s.toClient|;
    match s.pc
    case Sending => 1 + RoundsCost(p, if s.round < p.rounds then p.rounds - s.round else 0)
    case Receiving => 2 + hops + RoundsCost(p, if s.round < p.rounds then p.rounds - s.round - 1 else 0)
    case Finished => 0
    case Aborted => hops
  }

  // Every step except a stop request uses up work.
  lemma StepUsesWork(p: Setup, s: State, a: Action)
    requires Inv(p, s) && Enabled(p, s, a) && !a.RequestStop?
    ensures WorkLeft(p, Apply(p, s, a)) < WorkLeft(p, s)
  {
  }

  ghost predicate NextBy(p: Setup, s: State, s': State, a: Action) {
    |s.buffer| == p.size && Enabled(p, s, a) && s' == Apply(p, s, a)
  }

  // Any step but a stop request.
  ghost predicate WorkNext(p: Setup, s: State, s': State) {
    exists a: Action :: NextBy(p, s, s', a) && !a.RequestStop?
  }

  predicate Calm(a: Action) {
    !a.RequestStop? && !a.ClientRecvFails? && !a.ClientShortSend?
  }

  // Nobody asks to stop and no call of the client fails.
  ghost predicate CalmNext(p: Setup, s: State, s': State) {
    exists a: Action :: NextBy(p, s, s', a) && Calm(a)
  }

  // Every run without stop requests is over after a bounded number of steps, whatever is dropped or fails.
  lemma EveryRunEnds(p: Setup, run: seq<State>)
    requires IsRun(run, s => Init(p, s), (s, s') => WorkNext(p, s, s'))
    ensures |run| <= RoundsCost(p, p.rounds) + 2
    ensures InRun(p, run[|run| - 1])
  {
    var init, next := s => Init(p, s), (s, s') => WorkNext(p, s, s');
    var bound := RoundsCost(p, p.rounds) + 1;
    var inv := s => InRun(p, s) && WorkLeft(p, s) <= bound;
    forall s | init(s) ensures inv(s) {
      ReachableStart(s, init, (s, s') => Next(p, s, s'));
    }
    forall s, s' | inv(s) && next(s, s') ensures inv(s') && WorkLeft(p, s') < WorkLeft(p, s) {
      var a: Action :| NextBy(p, s, s', a) && !a.RequestStop?;
      InRunInv(p, s);
      StepUsesWork(p, s, a);
      ReachableStep(s, s', init, (s, s') => Next(p, s, s'));
    }
    RunsAreShort(run, init, next, inv, s => bound - WorkLeft(p, s), bound);
  }

  // With complete sends of the server a calm run can only be over when all rounds have been echoed.
  lemma CalmRunCompletes(p: Setup, run: seq<State>)
    requires !p.lossy && IsRun(run, s => Init(p, s), (s, s') => CalmNext(p, s, s'))
    requires Final(run[|run| - 1], (s, s') => CalmNext(p, s, s'))
    ensures |run| <= RoundsCost(p, p.rounds) + 2
    ensures var s := run[|run| - 1];
            && s.pc.Finished? && |s.delivered| == p.rounds
            && forall k :: 0 <= k < p.rounds ==> s.delivered[k] == Message(p.size)
  {
    var s, init, next := run[|run| - 1], s => Init(p, s), (s, s') => CalmNext(p, s, s');
    EveryRunEnds(p, run);
    InvariantHolds(run, |run| - 1, init, next, (s: State) => !s.stop && !s.pc.Aborted?);
    EveryRoundEchoes(p, s);
    InRunInv(p, s);
    NothingCalmLeft(p, s);
    NeverStuckIff(p);
  }

  lemma NothingCalmLeft(p: Setup, s: State)
    requires |s.buffer| == p.size && Final(s, (s, s') => CalmNext(p, s, s'))
    ensures s.pc.Sending? || s.pc.Receiving? ==> Stuck(p, s)
  {
    var next := (s, s') => CalmNext(p, s, s');
    forall a | Enabled(p, s, a) ensures a.RequestStop? || a.ClientRecvFails? {
      if a.ClientShortSend? {
        assert next(s, Apply(p, s, ClientSend)) by {
          assert NextBy(p, s, Apply(p, s, ClientSend), ClientSend);
        }
      } else if Calm(a) {
        assert next(s, Apply(p, s, a)) by {
          assert NextBy(p, s, Apply(p, s, a), a);
        }
      }
    }
  }
}
