// The connection table of the select-based echo server: one pass accepts, serves and removes in place.
module ServerTable {
  import opened Folding


  const MAX_CONNECTIONS: nat := 10000

  datatype Connection = Connection(fd: int, addr: int, bytesSent: nat, bytesReceived: nat, lastActivity: int)

  // What recv returns for a connection, and for data what the echoing send and the clock return then.
  datatype Outcome =
    | Data(n: nat, sent: int, time: int)
    | Closed        // end of file, or an error other than EAGAIN and EWOULDBLOCK
    | WouldBlock

  // What accept returns: a negative number, or a descriptor that was not open.
  datatype Arrival = Arrival(fd: int, addr: int, time: int)

  // recv returns at least one byte and at most the buffer; send accepts at most what it is given.
  predicate Legal(size: nat, o: Outcome) {
    o.Data? ==> 1 <= o.n <= size && o.sent <= o.n
  }

  function Positive(x: int): nat {
    if x > 0 then x else 0
  }

  predicate Stays(c: Connection, ready: set<int>, outcome: int -> Outcome) {
    !(c.fd in ready && outcome(c.fd).Closed?)
  }

  function Echoed(c: Connection, o: Outcome): Connection {
    match o
    case Data(n, sent, time) =>
      c.(bytesReceived := c.bytesReceived + n, bytesSent := c.bytesSent + Positive(sent), lastActivity := time)
    case _ => c
  }

  function Served(c: Connection, ready: set<int>, outcome: int -> Outcome): Connection {
    if c.fd in ready then Echoed(c, outcome(c.fd)) else c
  }

  // The table after a pass: in their old order, the connections that were not closed, served if ready.
  function Survivors(table: seq<Connection>, ready: set<int>, outcome: int -> Outcome): seq<Connection> {
    if |table| == 0 then []
    else
      var rest, c := Survivors(table[..|table| - 1], ready, outcome), table[|table| - 1];
      if Stays(c, ready, outcome) then rest + [Served(c, ready, outcome)] else rest
  }

  function Fds(table: seq<Connection>): set<int> {
    set c | c in table :: c.fd
  }

  function ReadyFds(table: seq<Connection>, ready: set<int>): seq<int> {
    if |table| == 0 then []
    else
      var rest, fd := ReadyFds(table[..|table| - 1], ready), table[|table| - 1].fd;
      if fd in ready then rest + [fd] else rest
  }

  datatype Traffic = Traffic(bytesReceived: nat, messagesReceived: nat, bytesSent: nat, messagesSent: nat)

  function Plus(t: Traffic, o: Outcome): Traffic {
    match o
    case Data(n, sent, _) =>
      Traffic(t.bytesReceived + n, t.messagesReceived + 1, t.bytesSent + Positive(sent),
              t.messagesSent + if sent > 0 then 1 else 0)
    case _ => t
  }

  function TrafficAfter(t: Traffic, fds: seq<int>, outcome: int -> Outcome): Traffic {
    if |fds| == 0 then t else Plus(TrafficAfter(t, fds[..|fds| - 1], outcome), outcome(fds[|fds| - 1]))
  }

  /* ----- what the table after a pass is ----- */

  predicate DistinctFds(table: seq<Connection>) {
    forall i, j :: 0 <= i < j < |table| ==> table[i].fd != table[j].fd
  }

  // Exactly the connections not closed survive, each once, and what they echo never exceeds what they received.
  lemma {:induction false} SurvivorsAre(table: seq<Connection>, ready: set<int>, outcome: int -> Outcome)
    requires DistinctFds(table)
    ensures DistinctFds(Survivors(table, ready, outcome))
    ensures Fds(Survivors(table, ready, outcome)) == set c | c in table && Stays(c, ready, outcome) :: c.fd
    ensures forall d :: d in Survivors(table, ready, outcome) <==>
              exists c :: c in table && Stays(c, ready, outcome) && d == Served(c, ready, outcome)
  {
    if |table| > 0 {
      var n := |table| - 1;
      var c, rest := table[n], Survivors(table[..n], ready, outcome);
      SurvivorsAre(table[..n], ready, outcome);
      assert table == table[..n] + [c];
      forall i | 0 <= i < |rest| ensures rest[i].fd != c.fd {
        assert rest[i].fd in Fds(rest);
        var b :| b in table[..n] && b.fd == rest[i].fd;
      }
    }
  }

  lemma LastIsNew(table: seq<Connection>)
    requires DistinctFds(table) && |table| > 0
    ensures table[|table| - 1].fd !in Fds(table[..|table| - 1])
    ensures Fds(table) == Fds(table[..|table| - 1]) + {table[|table| - 1].fd}
  {
    var n := |table| - 1;
    assert table == table[..n] + [table[n]];
    forall b | b in table[..n] ensures b.fd != table[n].fd {
      var k :| 0 <= k < n && table[k] == b;
    }
    AppendFds(table[..n], table[n]);
  }

  // Every ready connection of the table is serviced exactly once, and no other.
  lemma {:induction false} ServicedOnce(table: seq<Connection>, ready: set<int>, fd: int)
    requires DistinctFds(table)
    ensures multiset(ReadyFds(table, ready))[fd] == if fd in Fds(table) && fd in ready then 1 else 0
  {
    if |table| > 0 {
      ServicedOnce(table[..|table| - 1], ready, fd);
      LastIsNew(table);
    }
  }

  // What each connection of the table is afterwards: echoed, untouched or gone. The order is kept.
  lemma SurvivorsServed(table: seq<Connection>, ready: set<int>, outcome: int -> Outcome)
    requires DistinctFds(table)
    ensures var after := Survivors(table, ready, outcome);
            && (forall c :: c in table && c.fd !in ready ==> c in after)
            && (forall c :: c in table && c.fd in ready && outcome(c.fd).WouldBlock? ==> c in after)
            && (forall c :: c in table && c.fd in ready && outcome(c.fd).Data? ==>
                  var o := outcome(c.fd);
                  Connection(c.fd, c.addr, c.bytesSent + (if o.sent > 0 then o.sent else 0),
                             c.bytesReceived + o.n, o.time) in after)
            && (forall c :: c in table && c.fd in ready && outcome(c.fd).Closed? ==> c.fd !in Fds(after))
            && Fds(after) <= Fds(table)
  {
    SurvivorsAre(table, ready, outcome);
    var after := Survivors(table, ready, outcome);
    forall c | c in table && Stays(c, ready, outcome) ensures Served(c, ready, outcome) in after {
    }
    forall c | c in table && c.fd in ready && outcome(c.fd).Closed? ensures c.fd !in Fds(after) {
      forall b | b in table && Stays(b, ready, outcome) ensures b.fd != c.fd {
      }
    }
  }

  // b stands before c.
  ghost predicate Before(table: seq<Connection>, b: int, c: int) {
    exists i, j :: 0 <= i < j < |table| && table[i].fd == b && table[j].fd == c
  }

  lemma {:induction false} OrderKept(table: seq<Connection>, ready: set<int>, outcome: int -> Outcome, b: int, c: int)
    requires Before(Survivors(table, ready, outcome), b, c)
    ensures Before(table, b, c)
  {
    var n := |table| - 1;
    var rest, after := Survivors(table[..n], ready, outcome), Survivors(table, ready, outcome);
    var i, j :| 0 <= i < j < |after| && after[i].fd == b && after[j].fd == c;
    if j < |rest| {
      assert rest[i].fd == b && rest[j].fd == c;
      OrderKept(table[..n], ready, outcome, b, c);
      var k, l :| 0 <= k < l < n && table[..n][k].fd == b && table[..n][l].fd == c;
      assert table[k].fd == b && table[l].fd == c;
    } else {
      FromTable(table[..n], ready, outcome, i);
      var k :| 0 <= k < n && table[..n][k].fd == rest[i].fd;
      assert table[k].fd == b && table[n].fd == c;
    }
  }

  lemma {:induction false} FromTable(table: seq<Connection>, ready: set<int>, outcome: int -> Outcome, i: nat)
    requires i < |Survivors(table, ready, outcome)|
    ensures exists k :: 0 <= k < |table| && table[k].fd == Survivors(table, ready, outcome)[i].fd
  {
    var n := |table| - 1;
    if i < |Survivors(table[..n], ready, outcome)| {
      FromTable(table[..n], ready, outcome, i);
      var k :| 0 <= k < n && table[..n][k].fd == Survivors(table[..n], ready, outcome)[i].fd;
      assert table[k].fd == Survivors(table, ready, outcome)[i].fd;
    } else {
      assert table[n].fd == Survivors(table, ready, outcome)[i].fd;
    }
  }

  /* ----- what the traffic counters are ----- */

  function BytesIn(outcome: int -> Outcome): int -> int {
    (fd: int) => if outcome(fd).Data? then outcome(fd).n else 0
  }

  function MessagesIn(outcome: int -> Outcome): int -> int {
    (fd: int) => if outcome(fd).Data? then 1 else 0
  }

  function BytesOut(outcome: int -> Outcome): int -> int {
    (fd: int) => if outcome(fd).Data? && outcome(fd).sent > 0 then outcome(fd).sent else 0
  }

  function MessagesOut(outcome: int -> Outcome): int -> int {
    (fd: int) => if outcome(fd).Data? && outcome(fd).sent > 0 then 1 else 0
  }

  // Every counter has grown by the sum over the serviced descriptors.
  ghost predicate CountedFor(t: Traffic, t': Traffic, serviced: seq<int>, outcome: int -> Outcome) {
    && t'.bytesReceived == t.bytesReceived + Total(serviced, BytesIn(outcome))
    && t'.messagesReceived == t.messagesReceived + Total(serviced, MessagesIn(outcome))
    && t'.bytesSent == t.bytesSent + Total(serviced, BytesOut(outcome))
    && t'.messagesSent == t.messagesSent + Total(serviced, MessagesOut(outcome))
  }

  lemma {:induction false} TrafficCounted(t: Traffic, fds: seq<int>, outcome: int -> Outcome)
    ensures CountedFor(t, TrafficAfter(t, fds, outcome), fds, outcome)
  {
    if |fds| > 0 {
      var rest, fd := fds[..|fds| - 1], fds[|fds| - 1];
      TrafficCounted(t, rest, outcome);
      assert fds == rest + [fd];
      TotalAppend(rest, fd, BytesIn(outcome));
      TotalAppend(rest, fd, MessagesIn(outcome));
      TotalAppend(rest, fd, BytesOut(outcome));
      TotalAppend(rest, fd, MessagesOut(outcome));
    }
  }

  // The table, the set of descriptors watched and the largest of them agree; nobody has been echoed more than
  // was received.
  ghost predicate Consistent(table: seq<Connection>, listenFd: int, master: set<int>, maxFd: int) {
    && DistinctFds(table)
    && listenFd !in Fds(table)
    && master == Fds(table) + {listenFd}
    && (forall fd :: fd in master ==> fd <= maxFd)
    && (forall c :: c in table ==> c.bytesSent <= c.bytesReceived)
  }

  lemma PassKeeps(table: seq<Connection>, listenFd: int, master: set<int>, maxFd: int,
                  size: nat, ready: set<int>, outcome: int -> Outcome)
    requires Consistent(table, listenFd, master, maxFd) && forall fd :: Legal(size, outcome(fd))
    ensures Consistent(Survivors(table, ready, outcome), listenFd, master - ClosedFds(table, ready, outcome), maxFd)
  {
    SurvivorsAre(table, ready, outcome);
    var after := Survivors(table, ready, outcome);
    assert Fds(after) == Fds(table) - ClosedFds(table, ready, outcome) by {
      ClosedAndStaying(table, ready, outcome);
    }
    assert listenFd !in ClosedFds(table, ready, outcome);
    forall d | d in after ensures d.bytesSent <= d.bytesReceived {
      var c :| c in table && Stays(c, ready, outcome) && d == Served(c, ready, outcome);
      assert Legal(size, outcome(c.fd));
    }
  }

  // The running index i has dealt with the first p entries of the table: what is left of them stands before i,
  // and the entries still to come stand from i on.
  predicate Cursor(now: seq<Connection>, i: int, table: seq<Connection>, p: nat,
                   ready: set<int>, outcome: int -> Outcome)
  {
    && 0 <= i <= p <= |table| && |now| == i + (|table| - p)
    && now[..i] == Survivors(table[..p], ready, outcome)
    && now[i..] == table[p..]
  }

  lemma CursorStep(now: seq<Connection>, i: int, table: seq<Connection>, p: nat,
                   ready: set<int>, outcome: int -> Outcome)
    requires Cursor(now, i, table, p, ready, outcome) && i < |now|
    ensures p < |table| && now[i] == table[p]
    ensures if Stays(now[i], ready, outcome)
            then Cursor(now[i := Served(now[i], ready, outcome)], i + 1, table, p + 1, ready, outcome)
            else Cursor(now[..i] + now[i + 1..], i, table, p + 1, ready, outcome)
    ensures ReadyFds(table[..p + 1], ready) ==
            if now[i].fd in ready then ReadyFds(table[..p], ready) + [now[i].fd] else ReadyFds(table[..p], ready)
    ensures ClosedFds(table[..p + 1], ready, outcome) ==
            if Stays(now[i], ready, outcome) then ClosedFds(table[..p], ready, outcome)
            else ClosedFds(table[..p], ready, outcome) + {now[i].fd}
  {
    var c := now[i];
    assert now[i] == now[i..][0] == table[p..][0] == table[p];
    assert table[..p + 1][..p] == table[..p] && table[..p + 1][p] == table[p];
    ClosedStep(table, p, ready, outcome);
    assert now[i..][1..] == table[p + 1..];
    if Stays(c, ready, outcome) {
      var next := now[i := Served(c, ready, outcome)];
      assert next[..i + 1] == now[..i] + [Served(c, ready, outcome)];
      assert next[i + 1..] == now[i..][1..];
    } else {
      var next := now[..i] + now[i + 1..];
      assert next[..i] == now[..i] && next[i..] == now[i..][1..];
    }
  }

  lemma TrafficStep(t: Traffic, fds: seq<int>, fd: int, outcome: int -> Outcome)
    ensures TrafficAfter(t, fds + [fd], outcome) == Plus(TrafficAfter(t, fds, outcome), outcome(fd))
  {
    assert (fds + [fd])[..|fds|] == fds;
  }

  // Where a scan of the table stands: the table now, the running index, how many of the old entries are done,
  // the descriptors serviced, the traffic counted and the descriptors watched so far.
  datatype Scan = Scan(now: seq<Connection>, i: int, p: nat, serviced: seq<int>, traffic: Traffic, master: set<int>)

  predicate ScanInv(s: Scan, start: Scan, ready: set<int>, outcome: int -> Outcome) {
    && Cursor(s.now, s.i, start.now, s.p, ready, outcome)
    && s.serviced == ReadyFds(start.now[..s.p], ready)
    && s.traffic == TrafficAfter(start.traffic, s.serviced, outcome)
    && s.master == start.master - ClosedFds(start.now[..s.p], ready, outcome)
  }

  function ScanStep(s: Scan, ready: set<int>, outcome: int -> Outcome): Scan
    requires 0 <= s.i < |s.now|
  {
    var c := s.now[s.i];
    if c.fd !in ready then s.(i := s.i + 1, p := s.p + 1)
    else
      var o := outcome(c.fd);
      if o.Closed? then
        Scan(s.now[..s.i] + s.now[s.i + 1..], s.i, s.p + 1, s.serviced + [c.fd], Plus(s.traffic, o), s.master - {c.fd})
      else
        Scan(s.now[s.i := Echoed(c, o)], s.i + 1, s.p + 1, s.serviced + [c.fd], Plus(s.traffic, o), s.master)
  }

  lemma ScanStepInv(s: Scan, start: Scan, ready: set<int>, outcome: int -> Outcome)
    requires ScanInv(s, start, ready, outcome) && s.i < |s.now|
    ensures s.p < |start.now| && ScanInv(ScanStep(s, ready, outcome), start, ready, outcome)
  {
    var c := s.now[s.i];
    CursorStep(s.now, s.i, start.now, s.p, ready, outcome);
    TrafficStep(start.traffic, s.serviced, c.fd, outcome);
    assert s.now[s.i := c] == s.now;
  }

  lemma ScanStart(start: Scan, ready: set<int>, outcome: int -> Outcome)
    requires start.i == start.p == 0 && start.serviced == []
    ensures ScanInv(start, start, ready, outcome)
  {
  }

  lemma ScanEnd(s: Scan, start: Scan, ready: set<int>, outcome: int -> Outcome)
    requires ScanInv(s, start, ready, outcome) && s.i == |s.now|
    ensures s.now == Survivors(start.now, ready, outcome)
    ensures s.serviced == ReadyFds(start.now, ready)
    ensures s.traffic == TrafficAfter(start.traffic, s.serviced, outcome)
    ensures s.master == start.master - ClosedFds(start.now, ready, outcome)
  {
    assert start.now[..s.p] == start.now && s.now[..s.i] == s.now;
  }

  class SelectServer {
    const size: nat
    const listenFd: int
    const connections: array<Connection>
    var numConnections: nat
    var masterReadFds: set<int>
    var maxFd: int
    var stats: Traffic

    function Table(): seq<Connection>
      reads this, connections
      requires numConnections <= connections.Length
    {
      connections[..numConnections]
    }

    ghost predicate Valid()
      reads this, connections
    {
      && connections.Length == MAX_CONNECTIONS && numConnections <= MAX_CONNECTIONS
      && Consistent(Table(), listenFd, masterReadFds, maxFd)
      && stats.bytesSent <= stats.bytesReceived && stats.messagesSent <= stats.messagesReceived
    }

    constructor (size: nat, listenFd: int)
      ensures Valid() && fresh(connections) && Table() == [] && this.size == size && this.listenFd == listenFd
    {
      this.size, this.listenFd := size, listenFd;
      connections := new Connection[MAX_CONNECTIONS](_ => Connection(-1, 0, 0, 0, 0));
      numConnections := 0;
      masterReadFds := {listenFd};
      maxFd := listenFd;
      stats := Traffic(0, 0, 0, 0);
    }

    // An accepted descriptor is entered unless the table is full; then it is neither served nor closed.
    method HandleAccept(arrival: Arrival)
      requires Valid() && arrival.fd !in masterReadFds
      modifies this`numConnections, this`masterReadFds, this`maxFd, connections
      ensures Valid()
      ensures Table() == if arrival.fd >= 0 && old(numConnections) < 10000
                         then old(Table()) + [Connection(arrival.fd, arrival.addr, 0, 0, arrival.time)]
                         else old(Table())
      ensures masterReadFds == if arrival.fd >= 0 && old(numConnections) < MAX_CONNECTIONS
                               then old(masterReadFds) + {arrival.fd} else old(masterReadFds)
      ensures maxFd == if arrival.fd in masterReadFds && arrival.fd > old(maxFd) then arrival.fd else old(maxFd)
    {
      if arrival.fd >= 0 && numConnections < MAX_CONNECTIONS {
        ghost var before := Table();
        masterReadFds := masterReadFds + {arrival.fd};
        if arrival.fd > maxFd { maxFd := arrival.fd; }
        connections[numConnections] := Connection(arrival.fd, arrival.addr, 0, 0, arrival.time);
        numConnections := numConnections + 1;
        assert Table() == before + [Connection(arrival.fd, arrival.addr, 0, 0, arrival.time)];
        AppendFds(before, Connection(arrival.fd, arrival.addr, 0, 0, arrival.time));
      }
    }

    // Close the gap left at index i.
    method ShiftDown(i: nat)
      requires i < numConnections <= connections.Length
      modifies connections, this`numConnections
      ensures numConnections == old(numConnections) - 1
      ensures Table() == old(Table())[..i] + old(Table())[i + 1..]
    {
      ghost var was := Table();
      var j := i;
      while j < numConnections - 1
        invariant i <= j < numConnections
        invariant forall k :: 0 <= k < j ==> connections[k] == was[if k < i then k else k + 1]
        invariant forall k :: j <= k < numConnections ==> connections[k] == was[k]
        modifies connections
      {
        connections[j] := connections[j + 1];
        j := j + 1;
      }
      numConnections := numConnections - 1;
      assert Table() == was[..i] + was[i + 1..];
    }

    method Echo(i: nat, o: Outcome)
      requires i < numConnections <= connections.Length && o.Data?
      modifies this`stats, connections
      ensures Table() == old(Table())[i := Echoed(old(connections[i]), o)]
      ensures stats == Plus(old(stats), o)
    {
      stats := stats.(bytesReceived := stats.bytesReceived + o.n, messagesReceived := stats.messagesReceived + 1);
      connections[i] := connections[i].(bytesReceived := connections[i].bytesReceived + o.n);
      if o.sent > 0 {
        stats := stats.(bytesSent := stats.bytesSent + o.sent, messagesSent := stats.messagesSent + 1);
        connections[i] := connections[i].(bytesSent := connections[i].bytesSent + o.sent);
      }
      connections[i] := connections[i].(lastActivity := o.time);
    }

    // What the loop does with a ready descriptor: echo, or close and remove the entry.
    method ServiceAt(i: nat, o: Outcome) returns (removed: bool)
      requires i < numConnections <= connections.Length
      modifies this`numConnections, this`masterReadFds, this`stats, connections
      ensures numConnections <= connections.Length && removed == o.Closed?
      ensures Table() == if removed then old(Table())[..i] + old(Table())[i + 1..]
                         else old(Table())[i := Echoed(old(Table())[i], o)]
      ensures stats == Plus(old(stats), o)
      ensures masterReadFds == if removed then old(masterReadFds) - {old(connections[i]).fd} else old(masterReadFds)
    {
      removed := false;
      if o.Data? {
        Echo(i, o);
      } else if o.Closed? {
        masterReadFds := masterReadFds - {connections[i].fd};
        ShiftDown(i);
        removed := true;
      }
    }

    // The client loop: entries move down under the running index when one is removed.
    method HandleClients(ready: set<int>, outcome: int -> Outcome) returns (serviced: seq<int>)
      requires numConnections <= connections.Length
      modifies this`numConnections, this`masterReadFds, this`stats, connections
      ensures numConnections <= connections.Length
      ensures Table() == Survivors(old(Table()), ready, outcome)
      ensures serviced == ReadyFds(old(Table()), ready)
      ensures stats == TrafficAfter(old(stats), serviced, outcome)
      ensures masterReadFds == old(masterReadFds) - ClosedFds(old(Table()), ready, outcome)
    {
      ghost var start := Scan(Table(), 0, 0, [], stats, masterReadFds);
      ghost var scan := start;
      ScanStart(start, ready, outcome);
      serviced := [];
      var i: int := 0;
      while i < numConnections
        invariant numConnections <= connections.Length
        invariant scan == Scan(Table(), i, scan.p, serviced, stats, masterReadFds)
        invariant ScanInv(scan, start, ready, outcome)
        decreases |start.now| - scan.p
      {
        var c := connections[i];
        ScanStepInv(scan, start, ready, outcome);
        scan := ScanStep(scan, ready, outcome);
        if c.fd in ready {
          serviced := serviced + [c.fd];
          var removed := ServiceAt(i, outcome(c.fd));
          if removed {
            i := i - 1;
          }
        }
        i := i + 1;
      }
      ScanEnd(scan, start, ready, outcome);
    }

    // One round of the server loop after select. `ready` is what select leaves of the descriptors given to it, so
    // a connection accepted in this pass is not served in it.
    method Pass(ready: set<int>, arrival: Arrival, outcome: int -> Outcome) returns (serviced: seq<int>)
      requires Valid() && ready <= masterReadFds && arrival.fd !in masterReadFds
      requires forall fd :: Legal(size, outcome(fd))
      modifies this`numConnections, this`masterReadFds, this`maxFd, this`stats, connections
      ensures Valid()
      ensures Table() == Survivors(
        if listenFd in ready && arrival.fd >= 0 && old(numConnections) < MAX_CONNECTIONS
        then old(Table()) + [Connection(arrival.fd, arrival.addr, 0, 0, arrival.time)] else old(Table()),
        ready, outcome)
      ensures serviced == ReadyFds(old(Table()), ready) && arrival.fd !in serviced
      ensures stats == TrafficAfter(old(stats), serviced, outcome)
      ensures forall c :: c in old(Table()) && c.fd in ready && outcome(c.fd).Data? ==>
                var o := outcome(c.fd);
                Connection(c.fd, c.addr, c.bytesSent + (if o.sent > 0 then o.sent else 0),
                           c.bytesReceived + o.n, o.time) in Table()
      ensures forall c :: c in old(Table()) && (c.fd !in ready || outcome(c.fd).WouldBlock?) ==> c in Table()
      ensures forall c :: c in old(Table()) && c.fd in ready && outcome(c.fd).Closed? ==> c.fd !in Fds(Table())
      ensures CountedFor(old(stats), stats, serviced, outcome)
    {
      if listenFd in ready {
        HandleAccept(arrival);
      }
      ghost var table, master := Table(), masterReadFds;
      NewcomerIdle(old(Table()), arrival, ready);
      serviced := HandleClients(ready, outcome);
      SurvivorsServed(table, ready, outcome);
      TrafficCounted(old(stats), serviced, outcome);
      PassKeeps(table, listenFd, master, maxFd, size, ready, outcome);
      TrafficBounded(old(stats), serviced, size, outcome);
    }
  }

  function ClosedFds(table: seq<Connection>, ready: set<int>, outcome: int -> Outcome): set<int> {
    set c | c in table && !Stays(c, ready, outcome) :: c.fd
  }

  lemma ClosedStep(table: seq<Connection>, p: nat, ready: set<int>, outcome: int -> Outcome)
    requires p < |table|
    ensures ClosedFds(table[..p + 1], ready, outcome) ==
            ClosedFds(table[..p], ready, outcome) + (if Stays(table[p], ready, outcome) then {} else {table[p].fd})
  {
    assert table[..p + 1] == table[..p] + [table[p]];
  }

  lemma AppendFds(table: seq<Connection>, c: Connection)
    ensures Fds(table + [c]) == Fds(table) + {c.fd}
    ensures DistinctFds(table) && c.fd !in Fds(table) ==> DistinctFds(table + [c])
  {
    forall i | 0 <= i < |table| ensures table[i].fd in Fds(table) {
      assert table[i] in table;
    }
    assert c in table + [c];
    assert forall d :: d in table ==> d in table + [c];
  }

  lemma ClosedAndStaying(table: seq<Connection>, ready: set<int>, outcome: int -> Outcome)
    requires DistinctFds(table)
    ensures Fds(table) - ClosedFds(table, ready, outcome) == Fds(Survivors(table, ready, outcome))
  {
    SurvivorsAre(table, ready, outcome);
  }

  lemma NewcomerIdle(table: seq<Connection>, arrival: Arrival, ready: set<int>)
    requires arrival.fd !in ready
    ensures ReadyFds(table + [Connection(arrival.fd, arrival.addr, 0, 0, arrival.time)], ready) ==
            ReadyFds(table, ready)
    ensures arrival.fd !in ReadyFds(table, ready)
  {
    var c := Connection(arrival.fd, arrival.addr, 0, 0, arrival.time);
    assert (table + [c])[..|table|] == table;
    OnlyReady(table, ready);
  }

  lemma {:induction false} OnlyReady(table: seq<Connection>, ready: set<int>)
    ensures forall fd :: fd in ReadyFds(table, ready) ==> fd in ready
  {
    if |table| > 0 {
      OnlyReady(table[..|table| - 1], ready);
    }
  }

  lemma {:induction false} TrafficBounded(t: Traffic, fds: seq<int>, size: nat, outcome: int -> Outcome)
    requires t.bytesSent <= t.bytesReceived && t.messagesSent <= t.messagesReceived
    requires forall fd :: Legal(size, outcome(fd))
    ensures var t' := TrafficAfter(t, fds, outcome);
            t'.bytesSent <= t'.bytesReceived && t'.messagesSent <= t'.messagesReceived
  {
    if |fds| > 0 {
      TrafficBounded(t, fds[..|fds| - 1], size, outcome);
      assert Legal(size, outcome(fds[|fds| - 1]));
    }
  }

  // The C++ server erases from a vector through an iterator; it computes the same table.
  method HandleClientData(
      table: seq<Connection>, ready: set<int>, masterFds: set<int>, stats: Traffic, outcome: int -> Outcome)
    returns (connections: seq<Connection>, master: set<int>, traffic: Traffic)
    ensures connections == Survivors(table, ready, outcome)
    ensures master == masterFds - ClosedFds(table, ready, outcome)
    ensures traffic == TrafficAfter(stats, ReadyFds(table, ready), outcome)
  {
    connections, master, traffic := table, masterFds, stats;
    ghost var start := Scan(table, 0, 0, [], stats, masterFds);
    ghost var scan := start;
    ScanStart(start, ready, outcome);
    var it := 0;
    while it < |connections|
      invariant scan == Scan(connections, it, scan.p, scan.serviced, traffic, master)
      invariant ScanInv(scan, start, ready, outcome)
      decreases |table| - scan.p
    {
      var c := connections[it];
      ScanStepInv(scan, start, ready, outcome);
      scan := ScanStep(scan, ready, outcome);
      if c.fd in ready {
        traffic := Plus(traffic, outcome(c.fd));
        if outcome(c.fd).Closed? {
          master := master - {c.fd};
          connections := connections[..it] + connections[it + 1..];
        } else {
          connections := connections[it := Echoed(c, outcome(c.fd))];
          it := it + 1;
        }
      } else {
        it := it + 1;
      }
    }
    ScanEnd(scan, start, ready, outcome);
  }
}
