// Descriptors owned by movable socket wrappers.
module SocketOwnership {
  import opened Runs

  datatype Wrapper = Wrapper(fd: int, owner: bool)

  // The descriptors that are open, and how often each number has been opened and closed (history).
  datatype Kernel = Kernel(open: set<int>, opens: multiset<int>, closes: multiset<int>)

  const EMPTY: Wrapper := Wrapper(-1, false)

  predicate Owns(w: Wrapper) {
    w.fd >= 0 && w.owner
  }

  // close(): the wrapper forgets its descriptor but stays marked as an owner.
  function Closed(w: Wrapper, k: Kernel): (Wrapper, Kernel) {
    if Owns(w) then (w.(fd := -1), Kernel(k.open - {w.fd}, k.opens, k.closes + multiset{w.fd})) else (w, k)
  }

  // What a move leaves in its source; the target takes over the source's value.
  function MovedFrom(w: Wrapper): Wrapper {
    w.(fd := -1, owner := false)
  }

  // Move assignment between different wrappers: the target, the source and the kernel afterwards.
  function Assigned(target: Wrapper, source: Wrapper, k: Kernel): (Wrapper, Wrapper, Kernel) {
    (source, MovedFrom(source), Closed(target, k).1)
  }

  function Released(w: Wrapper): Wrapper {
    w.(owner := false)
  }

  class SocketWrapper {
    var fd: int
    var owner: bool

    function Value(): Wrapper
      reads this
    {
      Wrapper(fd, owner)
    }

    constructor (fd: int, owner: bool)
      ensures Value() == Wrapper(fd, owner)
    {
      this.fd, this.owner := fd, owner;
    }

    constructor Empty()
      ensures fd == -1 && !owner && Value() == EMPTY
    {
      fd, owner := -1, false;
    }

    constructor Move(other: SocketWrapper)
      modifies other
      ensures Value() == old(other.Value()) && other.Value() == MovedFrom(old(other.Value()))
      ensures other.fd == -1 && !other.owner
    {
      fd, owner := other.fd, other.owner;
      new;
      other.fd := -1;
      other.owner := false;
    }

    method Close(k: Kernel) returns (k': Kernel)
      modifies this
      ensures (Value(), k') == Closed(old(Value()), k)
      ensures owner == old(owner) && fd == if old(fd) >= 0 && owner then -1 else old(fd)
    {
      k' := k;
      if fd >= 0 && owner {
        k' := Kernel(k.open - {fd}, k.opens, k.closes + multiset{fd});
        fd := -1;
      }
    }

    // Assigning a wrapper to itself does nothing.
    method MoveAssign(other: SocketWrapper, k: Kernel) returns (k': Kernel)
      modifies this, other
      ensures this == other ==> k' == k && Value() == old(Value())
      ensures this != other ==> (Value(), other.Value(), k') == Assigned(old(Value()), old(other.Value()), k)
      ensures this != other ==> fd == old(other.fd) && owner == old(other.owner) && other.fd == -1 && !other.owner
    {
      k' := k;
      if this != other {
        k' := Close(k);
        fd := other.fd;
        owner := other.owner;
        other.fd := -1;
        other.owner := false;
      }
    }

    method Release() returns (r: int)
      modifies this
      ensures r == fd == old(fd) && !owner && Value() == Released(old(Value()))
    {
      owner := false;
      r := fd;
    }
  }

  /* ----- any number of wrappers, any sequence of operations ----- */

  // `orphans` are descriptors given up through release while open (history).
  datatype World = World(live: map<nat, Wrapper>, kernel: Kernel, orphans: set<int>)

  datatype Operation =
    | Default(id: nat)
    | Open(id: nat, fd: int)       // socket or accept succeeded with a descriptor that was not open
    | MoveConstruct(id: nat, from: nat)
    | MoveAssign(id: nat, from: nat)
    | Close(id: nat)
    | Destroy(id: nat)
    | Release(id: nat)

  predicate Enabled(w: World, op: Operation) {
    match op
    case Default(id) => id !in w.live
    case Open(id, fd) => id !in w.live && fd >= 0 && fd !in w.kernel.open
    case MoveConstruct(id, from) => id !in w.live && from in w.live
    case MoveAssign(id, from) => id in w.live && from in w.live
    case Close(id) => id in w.live
    case Destroy(id) => id in w.live
    case Release(id) => id in w.live
  }

  function Apply(w: World, op: Operation): World
    requires Enabled(w, op)
  {
    match op
    case Default(id) => w.(live := w.live[id := EMPTY])
    case Open(id, fd) =>
      World(w.live[id := Wrapper(fd, true)],
            Kernel(w.kernel.open + {fd}, w.kernel.opens + multiset{fd}, w.kernel.closes), w.orphans)
    case MoveConstruct(id, from) => w.(live := w.live[id := w.live[from]][from := MovedFrom(w.live[from])])
    case MoveAssign(id, from) =>
      if id == from then w
      else
        var (target, source, k) := Assigned(w.live[id], w.live[from], w.kernel);
        w.(live := w.live[id := target][from := source], kernel := k)
    case Close(id) =>
      var (x, k) := Closed(w.live[id], w.kernel);
      w.(live := w.live[id := x], kernel := k)
    case Destroy(id) => w.(live := w.live - {id}, kernel := Closed(w.live[id], w.kernel).1)
    case Release(id) =>
      w.(live := w.live[id := Released(w.live[id])],
         orphans := w.orphans + if Owns(w.live[id]) then {w.live[id].fd} else {})
  }

  const START: World := World(map[], Kernel({}, multiset{}, multiset{}), {})

  ghost predicate Init(w: World) {
    w == START
  }

  ghost predicate Next(w: World, w': World) {
    exists op: Operation :: Enabled(w, op) && w' == Apply(w, op)
  }

  ghost predicate InRun(w: World) {
    Reachable(w, w => Init(w), (w, w') => Next(w, w'))
  }

  predicate Owner(w: World, id: nat) {
    id in w.live && Owns(w.live[id])
  }

  // Owners own different open descriptors.
  ghost predicate OwnersDiffer(w: World) {
    && (forall id :: Owner(w, id) ==> w.live[id].fd in w.kernel.open && w.live[id].fd !in w.orphans)
    && (forall i, j :: Owner(w, i) && Owner(w, j) && w.live[i].fd == w.live[j].fd ==> i == j)
  }

  ghost predicate HasOwner(w: World, fd: int) {
    exists id :: Owner(w, id) && w.live[id].fd == fd
  }

  // Every open descriptor has an owner or was given up.
  ghost predicate Accounted(w: World) {
    && w.orphans <= w.kernel.open
    && forall fd :: fd in w.kernel.open && fd !in w.orphans ==> HasOwner(w, fd)
  }

  // Openings and closings match.
  ghost predicate Balanced(k: Kernel) {
    k.opens == k.closes + multiset(k.open)
  }

  ghost predicate Inv(w: World) {
    OwnersDiffer(w) && Accounted(w) && Balanced(w.kernel)
  }

  lemma CloseBalances(w: World, id: nat)
    requires Inv(w) && id in w.live
    ensures Balanced(Closed(w.live[id], w.kernel).1)
  {
    if Owner(w, id) {
      var fd := w.live[id].fd;
      assert multiset(w.kernel.open) == multiset(w.kernel.open - {fd}) + multiset{fd};
    }
  }

  lemma ApplyBalances(w: World, op: Operation)
    requires Inv(w) && Enabled(w, op)
    ensures Balanced(Apply(w, op).kernel)
  {
    match op {
      case Open(id, fd) => assert multiset(w.kernel.open + {fd}) == multiset(w.kernel.open) + multiset{fd};
      case MoveAssign(id, from) => CloseBalances(w, id);
      case Close(id) => CloseBalances(w, id);
      case Destroy(id) => CloseBalances(w, id);
      case _ =>
    }
  }

  // Where the value of a wrapper was before an operation.
  function Source(op: Operation, id: nat): nat {
    match op
    case MoveConstruct(to, from) => if id == to then from else id
    case MoveAssign(to, from) => if id == to then from else id
    case _ => id
  }

  // An owner has just opened its descriptor or has it from a wrapper that owned it before.
  lemma OwnerCame(w: World, op: Operation, id: nat)
    requires Enabled(w, op) && Owner(Apply(w, op), id)
    ensures var fd := Apply(w, op).live[id].fd;
            || (op == Open(id, fd) && fd !in w.kernel.open)
            || (Owner(w, Source(op, id)) && w.live[Source(op, id)].fd == fd)
    ensures (op.MoveConstruct? || op.MoveAssign?) && op.id != op.from ==> id != op.from
  {
  }

  lemma OwnedIsOpen(w: World, op: Operation, id: nat)
    requires Inv(w) && Enabled(w, op) && Owner(Apply(w, op), id)
    ensures Apply(w, op).live[id].fd in Apply(w, op).kernel.open && Apply(w, op).live[id].fd !in Apply(w, op).orphans
  {
    OwnerCame(w, op, id);
  }

  lemma ApplyOwnersDiffer(w: World, op: Operation)
    requires Inv(w) && Enabled(w, op)
    ensures OwnersDiffer(Apply(w, op))
  {
    var w' := Apply(w, op);
    forall i | Owner(w', i) ensures w'.live[i].fd in w'.kernel.open && w'.live[i].fd !in w'.orphans {
      OwnedIsOpen(w, op, i);
    }
    forall i, j | Owner(w', i) && Owner(w', j) && w'.live[i].fd == w'.live[j].fd ensures i == j {
      OwnerCame(w, op, i);
      OwnerCame(w, op, j);
    }
  }

  // The owner of a descriptor after an operation: a move hands it on.
  function NewOwner(op: Operation, id: nat): nat {
    match op
    case MoveConstruct(to, from) => if id == from then to else id
    case MoveAssign(to, from) => if id == from then to else id
    case _ => id
  }

  lemma OwnerKept(w: World, op: Operation, id: nat)
    requires Inv(w) && Enabled(w, op) && Owner(w, id)
    requires w.live[id].fd in Apply(w, op).kernel.open && w.live[id].fd !in Apply(w, op).orphans
    ensures Owner(Apply(w, op), NewOwner(op, id)) && Apply(w, op).live[NewOwner(op, id)].fd == w.live[id].fd
  {
  }

  lemma ApplyAccounted(w: World, op: Operation)
    requires Inv(w) && Enabled(w, op)
    ensures Accounted(Apply(w, op))
  {
    var w' := Apply(w, op);
    OrphansStay(w, op);
    forall fd | fd in w'.kernel.open && fd !in w'.orphans ensures HasOwner(w', fd) {
      if fd in w.kernel.open {
        assert HasOwner(w, fd);
        var i :| Owner(w, i) && w.live[i].fd == fd;
        OwnerKept(w, op, i);
      } else {
        assert Owner(w', op.id);
      }
    }
  }

  lemma OrphansStay(w: World, op: Operation)
    requires Inv(w) && Enabled(w, op)
    ensures Apply(w, op).orphans <= Apply(w, op).kernel.open
    ensures w.orphans <= Apply(w, op).orphans
    ensures forall fd :: fd in Apply(w, op).kernel.open && fd !in w.kernel.open ==> op.Open? && op.fd == fd
  {
  }

  lemma ApplyInv(w: World, op: Operation)
    requires Inv(w) && Enabled(w, op)
    ensures Inv(Apply(w, op))
  {
    ApplyBalances(w, op);
    ApplyOwnersDiffer(w, op);
    ApplyAccounted(w, op);
  }

  lemma InRunInv(w: World)
    requires InRun(w)
    ensures Inv(w)
  {
    var init, next, inv := w => Init(w), (w, w') => Next(w, w'), w => Inv(w);
    forall w, w' | inv(w) && next(w, w') ensures inv(w') {
      var op: Operation :| Enabled(w, op) && w' == Apply(w, op);
      ApplyInv(w, op);
    }
    ReachableKeeps(w, init, next, inv);
  }

  // At most one live wrapper owns a descriptor, and no operation ever closes one that is not open.
  lemma UniqueOwner(w: World, i: nat, j: nat, op: Operation)
    requires InRun(w)
    ensures Owner(w, i) && Owner(w, j) && w.live[i].fd == w.live[j].fd ==> i == j
    ensures forall fd :: w.kernel.closes[fd] <= w.kernel.opens[fd] <= w.kernel.closes[fd] + 1
    ensures Enabled(w, op) ==> forall fd ::
              Apply(w, op).kernel.closes[fd] > w.kernel.closes[fd] ==>
                fd in w.kernel.open && Apply(w, op).kernel.closes[fd] == w.kernel.closes[fd] + 1
  {
    InRunInv(w);
  }

  // When every wrapper has been destroyed, the descriptors given up are the ones still open.
  lemma OrphansStayOpen(w: World)
    requires InRun(w) && w.live == map[]
    ensures w.kernel.open == w.orphans
    ensures w.kernel.opens == w.kernel.closes <==> w.orphans == {}
  {
    InRunInv(w);
    forall fd | fd in w.kernel.open ensures fd in w.orphans {
      assert fd !in w.orphans ==> HasOwner(w, fd);
    }
    forall fd ensures w.kernel.opens[fd] == w.kernel.closes[fd] + if fd in w.orphans then 1 else 0 {
      assert w.kernel.opens[fd] == (w.kernel.closes + multiset(w.kernel.open))[fd];
    }
  }

  /* ----- the same over the operations performed ----- */

  // Every operation is possible when it is performed.
  predicate Performable(w: World, ops: seq<Operation>)
    decreases |ops|
  {
    |ops| == 0 || (Enabled(w, ops[0]) && Performable(Apply(w, ops[0]), ops[1..]))
  }

  function After(w: World, ops: seq<Operation>): World
    requires Performable(w, ops)
    decreases |ops|
  {
    if |ops| == 0 then w else After(Apply(w, ops[0]), ops[1..])
  }

  // release is called on a wrapper that owns a descriptor.
  predicate GivesUp(w: World, ops: seq<Operation>)
    requires Performable(w, ops)
    decreases |ops|
  {
    |ops| > 0 && ((ops[0].Release? && Owner(w, ops[0].id)) || GivesUp(Apply(w, ops[0]), ops[1..]))
  }

  lemma {:induction false} OrphansGivenUp(w: World, ops: seq<Operation>)
    requires InRun(w) && Performable(w, ops)
    ensures InRun(After(w, ops))
    ensures After(w, ops).orphans == {} <==> w.orphans == {} && !GivesUp(w, ops)
    decreases |ops|
  {
    if |ops| > 0 {
      assert Next(w, Apply(w, ops[0]));
      ReachableStep(w, Apply(w, ops[0]), w => Init(w), (w, w') => Next(w, w'));
      OrphansGivenUp(Apply(w, ops[0]), ops[1..]);
    }
  }

  // Every run is made by some sequence of operations.
  lemma {:induction false} OperationsOf(run: seq<World>, k: nat) returns (ops: seq<Operation>)
    requires k < |run| && forall j :: 0 <= j < |run| - 1 ==> Next(run[j], run[j + 1])
    ensures Performable(run[k], ops) && After(run[k], ops) == run[|run| - 1]
    decreases |run| - k
  {
    if k == |run| - 1 {
      ops := [];
    } else {
      assert Next(run[k], run[k + 1]);
      var op: Operation :| Enabled(run[k], op) && run[k + 1] == Apply(run[k], op);
      var rest := OperationsOf(run, k + 1);
      ops := [op] + rest;
      assert ops[1..] == rest;
    }
  }

  // When every wrapper has been destroyed, every descriptor has been closed as often as it was opened, exactly
  // when release was never called on an owner.
  lemma AllClosedIff(ops: seq<Operation>)
    requires Performable(START, ops) && After(START, ops).live == map[]
    ensures var k := After(START, ops).kernel; k.opens == k.closes <==> !GivesUp(START, ops)
  {
    ReachableStart(START, w => Init(w), (w, w') => Next(w, w'));
    OrphansGivenUp(START, ops);
    OrphansStayOpen(After(START, ops));
  }

  // A descriptor opened, released and left behind by its destroyed wrapper is never closed.
  lemma ReleaseLeaks(fd: int) returns (ops: seq<Operation>)
    requires fd >= 0
    ensures Performable(START, ops) && After(START, ops).live == map[] && GivesUp(START, ops)
    ensures After(START, ops).kernel.opens != After(START, ops).kernel.closes
  {
    ops := [Open(0, fd), Release(0), Destroy(0)];
    var one := Apply(START, ops[0]);
    var two := Apply(one, ops[1]);
    var three := Apply(two, ops[2]);
    assert ops[1..] == [Release(0), Destroy(0)] && ops[1..][1..] == [Destroy(0)] && ops[1..][1..][1..] == [];
    assert Performable(three, []) && After(three, []) == three;
    assert Performable(two, ops[1..][1..]) && After(two, ops[1..][1..]) == three;
    assert Performable(one, ops[1..]) && After(one, ops[1..]) == three;
    assert three.live == map[];
    AllClosedIff(ops);
  }
}
