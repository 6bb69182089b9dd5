// The C++ cache analyzer's list: nodes linked through a shuffled index vector, so that the links always
// form one cycle through all nodes.
module PointerChaseLists {
  import opened Permutations

  datatype Node = Node(data: nat, next: nat)

  function LinksOf(nodes: seq<Node>): seq<nat> {
    seq(|nodes|, i requires 0 <= i < |nodes| => nodes[i].next)
  }

  // What one pass of the walk from node 0 visits.
  function Tour(p: seq<nat>): seq<nat>
    requires Links(p) && |p| > 0
  {
    seq(|p|, k requires 0 <= k < |p| => Walk(p, 0, k + 1))
  }

  function Repeat<T>(s: seq<T>, times: nat): seq<T> {
    if times == 0 then [] else Repeat(s, times - 1) + s
  }

  // The node at position k of the index vector links to the one at position k + 1, the last to the first.
  predicate Threaded(nodes: seq<Node>, indices: seq<nat>) {
    && |indices| == |nodes| && Bijection(indices)
    && forall k :: 0 <= k < |indices| ==>
         nodes[indices[k]] == Node(k, indices[After(k, |indices|)])
  }

  function After(k: nat, n: nat): nat {
    if k + 1 < n then k + 1 else 0
  }

  lemma Position(indices: seq<nat>, x: nat) returns (k: nat)
    requires Bijection(indices) && x < |indices|
    ensures k < |indices| && indices[k] == x
  {
    Pigeonhole(indices, |indices|);
    assert x in indices;
    k :| k < |indices| && indices[k] == x;
  }

  // Whatever the order of the index vector, the links are one cycle of all nodes, in that order.
  lemma ThreadedIsOneCycle(nodes: seq<Node>, indices: seq<nat>)
    requires Threaded(nodes, indices) && |nodes| > 0
    ensures Bijection(LinksOf(nodes)) && IsCycle(LinksOf(nodes), indices)
  {
    var p, n := LinksOf(nodes), |nodes|;
    forall i | 0 <= i < n ensures p[i] < n {
      var a := Position(indices, i);
      assert p[i] == indices[After(a, n)];
    }
    forall i, j | 0 <= i < j < n ensures p[i] != p[j] {
      var a := Position(indices, i);
      var b := Position(indices, j);
      assert p[i] == indices[After(a, n)] && p[j] == indices[After(b, n)];
    }
  }

  // One pass visits every node exactly once and ends where it began.
  lemma TourIsHamiltonian(nodes: seq<Node>, indices: seq<nat>)
    requires Threaded(nodes, indices) && |nodes| > 0
    ensures Links(LinksOf(nodes))
    ensures var tour := Tour(LinksOf(nodes));
            && Distinct(tour) && (forall x: nat :: x < |nodes| <==> x in tour)
            && tour[|nodes| - 1] == 0
  {
    var p, n := LinksOf(nodes), |nodes|;
    ThreadedIsOneCycle(nodes, indices);
    Pigeonhole(indices, n);
    var c := Rotated(p, indices, 0);
    forall k | 0 <= k < n ensures Tour(p)[k] == c[if k + 1 < n then k + 1 else 0] {
      WalkAlong(p, c, k + 1);
    }
    Pigeonhole(Tour(p), n);
  }

  lemma {:induction false} WalkRepeats(p: seq<nat>, steps: nat, k: nat)
    requires Links(p) && |p| > 0 && Walk(p, 0, steps) == 0
    ensures Walk(p, 0, steps + k) == Walk(p, 0, k)
  {
    if k > 0 {
      WalkRepeats(p, steps, k - 1);
    }
  }

  // If a tour ends where it began, touring again and again is one long walk.
  lemma {:induction false} ToursAreOneWalk(p: seq<nat>, times: nat)
    requires Links(p) && |p| > 0 && Tour(p)[|p| - 1] == 0
    ensures |Repeat(Tour(p), times)| == times * |p| && Walk(p, 0, times * |p|) == 0
    ensures forall k :: 0 <= k < times * |p| ==> Repeat(Tour(p), times)[k] == Walk(p, 0, k + 1)
  {
    if times > 0 {
      var n, before := |p|, (times - 1) * |p|;
      ToursAreOneWalk(p, times - 1);
      assert times * n == before + n;
      WalkRepeats(p, before, n);
      forall k | before <= k < before + n ensures Repeat(Tour(p), times)[k] == Walk(p, 0, k + 1) {
        WalkRepeats(p, before, k - before + 1);
      }
    }
  }

  // The data read along the links counts up through the list and starts over.
  lemma DataCountsUp(nodes: seq<Node>, indices: seq<nat>, x: nat)
    requires Threaded(nodes, indices) && x < |nodes|
    ensures nodes[x].next < |nodes|
    ensures nodes[nodes[x].next].data == After(nodes[x].data, |nodes|)
  {
    var k := Position(indices, x);
    var k' := After(k, |nodes|);
    assert nodes[indices[k']].data == k' && nodes[indices[k]].next == indices[k'];
  }

  class PointerChaseList {
    const nodes: array<Node>

    // `indices` is the shuffled index vector: some order of 0..numNodes-1.
    constructor (numNodes: nat, indices: seq<nat>)
      requires numNodes > 0 && |indices| == numNodes && Bijection(indices)
      ensures fresh(nodes) && nodes.Length == numNodes && Threaded(nodes[..], indices)
    {
      nodes := new Node[numNodes](_ => Node(0, 0));
      new;
      var i := 0;
      while i < numNodes - 1
        invariant 0 <= i <= numNodes - 1
        invariant forall k :: 0 <= k < i ==> nodes[indices[k]] == Node(k, indices[k + 1])
      {
        nodes[indices[i]] := nodes[indices[i]].(next := indices[i + 1]);
        nodes[indices[i]] := nodes[indices[i]].(data := i);
        i := i + 1;
      }
      nodes[indices[numNodes - 1]] := nodes[indices[numNodes - 1]].(next := indices[0]);
      nodes[indices[numNodes - 1]] := nodes[indices[numNodes - 1]].(data := numNodes - 1);
    }

    // Follows `iterations` times as many links as there are nodes; `visits` lists the nodes arrived at.
    method Chase(iterations: int, ghost indices: seq<nat>) returns (accesses: nat, ghost visits: seq<nat>)
      requires nodes.Length > 0 && Threaded(nodes[..], indices)
      ensures accesses == (if iterations > 0 then iterations else 0) * nodes.Length
      ensures Links(LinksOf(nodes[..]))
      ensures visits == Repeat(Tour(LinksOf(nodes[..])), if iterations > 0 then iterations else 0)
      ensures |visits| == accesses
      ensures forall k :: 0 <= k < |visits| ==> visits[k] == Walk(LinksOf(nodes[..]), 0, k + 1)
    {
      ghost var p := LinksOf(nodes[..]);
      TourIsHamiltonian(nodes[..], indices);
      var n := nodes.Length;
      var current := 0;
      accesses, visits := 0, [];
      var iter := 0;
      while iter < iterations
        invariant 0 <= iter && (iter <= iterations || iter == 0)
        invariant current == 0 && accesses == iter * n
        invariant visits == Repeat(Tour(p), iter)
      {
        var i := 0;
        while i < n
          invariant 0 <= i <= n && accesses == iter * n + i
          invariant current == Walk(p, 0, i)
          invariant visits == Repeat(Tour(p), iter) + Tour(p)[..i]
        {
          current := nodes[current].next;
          visits := visits + [current];
          accesses := accesses + 1;
          i := i + 1;
        }
        assert Tour(p)[..n] == Tour(p);
        iter := iter + 1;
      }
      ToursAreOneWalk(p, iter);
    }
  }
}
