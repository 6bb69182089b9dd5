// Links between the nodes 0..n-1 of a list, the cycles they form, and what swapping two links does to them.
module Permutations {

  predicate Distinct<T(==)>(s: seq<T>) {
    forall i, j :: 0 <= i < j < |s| ==> s[i] != s[j]
  }

  // Every link leads to a node.
  predicate Links(p: seq<nat>) {
    forall i :: 0 <= i < |p| ==> p[i] < |p|
  }

  predicate Bijection(p: seq<nat>) {
    Links(p) && Distinct(p)
  }

  function Swap<T>(s: seq<T>, i: nat, j: nat): seq<T>
    requires i < |s| && j < |s|
  {
    s[i := s[j]][j := s[i]]
  }

  // The node reached from x after k links.
  function Walk(p: seq<nat>, x: nat, k: nat): (y: nat)
    requires Links(p) && x < |p|
    ensures y < |p|
  {
    if k == 0 then x else p[Walk(p, x, k - 1)]
  }

  ghost predicate OnCycle(p: seq<nat>, x: nat, y: nat)
    requires Links(p) && x < |p|
  {
    exists k: nat :: Walk(p, x, k) == y
  }

  // The nodes of c, in order, are one cycle of p.
  predicate IsCycle(p: seq<nat>, c: seq<nat>) {
    && |c| > 0
    && Distinct(c)
    && (forall k :: 0 <= k < |c| ==> c[k] < |p|)
    && (forall k :: 0 <= k < |c| - 1 ==> p[c[k]] == c[k + 1])
    && p[c[|c| - 1]] == c[0]
  }

  // Pigeonhole: distinct numbers below n are at most n many, and n of them are all of them.
  lemma {:induction false} Pigeonhole(s: seq<nat>, n: nat)
    requires Distinct(s) && forall i :: 0 <= i < |s| ==> s[i] < n
    ensures |s| <= n
    ensures |s| == n ==> forall x :: 0 <= x < n ==> x in s
  {
    assert |s| > 0 ==> s[0] < n;
    if n > 0 {
      if i :| 0 <= i < |s| && s[i] == n - 1 {
        var rest := s[..i] + s[i + 1..];
        Pigeonhole(rest, n - 1);
        forall x | 0 <= x < n && |s| == n ensures x in s {
          assert x == n - 1 || x in rest;
        }
      } else {
        Pigeonhole(s, n - 1);
      }
    }
  }

  lemma SwapKeepsBijection(p: seq<nat>, i: nat, j: nat)
    requires Bijection(p) && i < |p| && j < |p|
    ensures Bijection(Swap(p, i, j))
  {
  }

  // Walking along a cycle visits its nodes in order and comes back to the start.
  lemma {:induction false} WalkAlong(p: seq<nat>, c: seq<nat>, k: nat)
    requires Links(p) && IsCycle(p, c) && k <= |c|
    ensures Walk(p, c[0], k) == if k == |c| then c[0] else c[k]
  {
    if k > 0 {
      WalkAlong(p, c, k - 1);
    }
  }

  lemma {:induction false} WalkStays(p: seq<nat>, c: seq<nat>, k: nat)
    requires Links(p) && IsCycle(p, c)
    ensures Walk(p, c[0], k) in c
  {
    if k > 0 {
      WalkStays(p, c, k - 1);
      var a :| 0 <= a < |c| && c[a] == Walk(p, c[0], k - 1);
      assert Walk(p, c[0], k) == if a == |c| - 1 then c[0] else c[a + 1];
    }
  }

  lemma OnCycleIff(p: seq<nat>, c: seq<nat>, y: nat)
    requires Links(p) && IsCycle(p, c)
    ensures OnCycle(p, c[0], y) <==> y in c
  {
    if k: nat :| Walk(p, c[0], k) == y {
      WalkStays(p, c, k);
    }
    if y in c {
      var k: nat :| k < |c| && c[k] == y;
      WalkAlong(p, c, k);
      assert Walk(p, c[0], k) == y;
    }
  }

  // Links that are distinct lead back: every node lies on a cycle of at most n nodes.
  lemma CycleThrough(p: seq<nat>, x: nat) returns (c: seq<nat>)
    requires Bijection(p) && x < |p|
    ensures IsCycle(p, c) && c[0] == x && |c| <= |p|
  {
    c := [x];
    while p[c[|c| - 1]] !in c
      invariant |c| > 0 && c[0] == x && Distinct(c)
      invariant forall k :: 0 <= k < |c| ==> c[k] < |p|
      invariant forall k :: 0 <= k < |c| - 1 ==> p[c[k]] == c[k + 1]
      decreases |p| - |c|
    {
      Pigeonhole(c + [p[c[|c| - 1]]], |p|);
      c := c + [p[c[|c| - 1]]];
    }
    Pigeonhole(c, |p|);
    forall k | 0 < k < |c| ensures c[k] != p[c[|c| - 1]] {
      assert p[c[k - 1]] == c[k - 1 + 1];
    }
  }

  // Two cycles with a common node have the same nodes.
  lemma {:induction false} CyclesMeet(p: seq<nat>, c: seq<nat>, e: seq<nat>, k: nat)
    requires Links(p) && IsCycle(p, c) && IsCycle(p, e) && e[0] in c && k < |e|
    ensures e[k] in c
  {
    if k > 0 {
      CyclesMeet(p, c, e, k - 1);
      var a :| 0 <= a < |c| && c[a] == e[k - 1];
      assert p[e[k - 1]] == e[k - 1 + 1];
      assert e[k] == if a == |c| - 1 then c[0] else c[a + 1];
    }
  }

  // The same cycle, started at another of its nodes.
  lemma Rotated(p: seq<nat>, c: seq<nat>, y: nat) returns (d: seq<nat>)
    requires Links(p) && IsCycle(p, c) && y in c
    ensures IsCycle(p, d) && d[0] == y && |d| == |c| && forall z :: z in d <==> z in c
  {
    var k :| 0 <= k < |c| && c[k] == y;
    d := c[k..] + c[..k];
    RotatedParts(p, c, k, d);
    assert c == c[..k] + c[k..];
  }

  lemma RotatedParts(p: seq<nat>, c: seq<nat>, k: nat, d: seq<nat>)
    requires Links(p) && IsCycle(p, c) && k < |c| == |d|
    requires forall a :: 0 <= a < |d| ==> d[a] == c[if a < |c| - k then k + a else a - (|c| - k)]
    ensures IsCycle(p, d)
  {
  }

  /* ----- swapping two links ----- */

  // A cycle that contains neither end of the swap is untouched.
  lemma OtherCycleKept(p: seq<nat>, i: nat, j: nat, c: seq<nat>)
    requires Bijection(p) && i < |p| && j < |p| && IsCycle(p, c) && i !in c && j !in c
    ensures IsCycle(Swap(p, i, j), c)
  {
  }

  // Swapping two links of one cycle cuts it in two.
  lemma SplitCycle(p: seq<nat>, c: seq<nat>, k: nat) returns (d: seq<nat>, e: seq<nat>)
    requires Bijection(p) && IsCycle(p, c) && 0 < k < |c|
    ensures var q := Swap(p, c[0], c[k]);
            IsCycle(q, d) && IsCycle(q, e) && d[0] == c[0] && e[0] == c[k]
    ensures forall z :: z in c <==> z in d || z in e
    ensures forall z :: z in d ==> z !in e
  {
    d := [c[0]] + c[k + 1..];
    e := [c[k]] + c[1..k];
    assert c == [c[0]] + c[1..k] + [c[k]] + c[k + 1..];
    SplitParts(p, c, k, d, e);
  }

  lemma SplitParts(p: seq<nat>, c: seq<nat>, k: nat, d: seq<nat>, e: seq<nat>)
    requires Bijection(p) && IsCycle(p, c) && 0 < k < |c| && |d| == |c| - k && |e| == k
    requires forall a :: 0 <= a < |d| ==> d[a] == c[if a == 0 then 0 else k + a]
    requires forall a :: 0 <= a < |e| ==> e[a] == c[if a == 0 then k else a]
    ensures IsCycle(Swap(p, c[0], c[k]), d) && IsCycle(Swap(p, c[0], c[k]), e)
    ensures forall z :: z in d ==> z !in e
  {
  }

  // Swapping links of two cycles joins them into one.
  lemma JoinCycles(p: seq<nat>, c: seq<nat>, e: seq<nat>) returns (d: seq<nat>)
    requires Bijection(p) && IsCycle(p, c) && IsCycle(p, e) && forall z :: z in c ==> z !in e
    ensures IsCycle(Swap(p, c[0], e[0]), d) && d[0] == c[0]
    ensures forall z :: z in d <==> z in c || z in e
  {
    d := [c[0]] + (e[1..] + ([e[0]] + c[1..]));
    assert c == [c[0]] + c[1..] && e == [e[0]] + e[1..];
    forall a, b | 0 <= a < |c| && 0 <= b < |e| ensures c[a] != e[b] {
      assert c[a] in c && e[b] in e;
    }
    JoinedParts(p, c, e, d);
  }

  lemma JoinedParts(p: seq<nat>, c: seq<nat>, e: seq<nat>, d: seq<nat>)
    requires Bijection(p) && IsCycle(p, c) && IsCycle(p, e)
    requires forall a, b :: 0 <= a < |c| && 0 <= b < |e| ==> c[a] != e[b]
    requires |d| == |c| + |e|
    requires forall a :: 0 <= a < |d| ==>
               d[a] == if a == 0 then c[0] else if a < |e| then e[a] else if a == |e| then e[0] else c[a - |e|]
    ensures IsCycle(Swap(p, c[0], e[0]), d)
  {
  }

  // Swapping the links of i and j splits their cycle when they share one, and joins their cycles when they do
  // not; every other cycle stays as it is.
  lemma SwapSplitsOrJoins(p: seq<nat>, i: nat, j: nat)
    requires Bijection(p) && i < |p| && j < |p| && i != j
    ensures Bijection(Swap(p, i, j))
    ensures OnCycle(Swap(p, i, j), i, j) <==> !OnCycle(p, i, j)
    ensures OnCycle(p, i, j) ==>
              forall y: nat :: OnCycle(p, i, y) <==> OnCycle(Swap(p, i, j), i, y) || OnCycle(Swap(p, i, j), j, y)
    ensures !OnCycle(p, i, j) ==>
              forall y: nat :: OnCycle(Swap(p, i, j), i, y) <==> OnCycle(p, i, y) || OnCycle(p, j, y)
    ensures forall x: nat, y: nat :: x < |p| && !OnCycle(p, x, i) && !OnCycle(p, x, j) ==>
              (OnCycle(Swap(p, i, j), x, y) <==> OnCycle(p, x, y))
  {
    var q := Swap(p, i, j);
    SwapKeepsBijection(p, i, j);
    var c := CycleThrough(p, i);
    OnCycleIff(p, c, j);
    if j in c {
      var k :| 0 <= k < |c| && c[k] == j;
      var d, e := SplitCycle(p, c, k);
      forall y: nat ensures OnCycle(p, i, y) <==> OnCycle(q, i, y) || OnCycle(q, j, y) {
        OnCycleIff(p, c, y);
        OnCycleIff(q, d, y);
        OnCycleIff(q, e, y);
      }
      OnCycleIff(q, d, j);
      assert e[0] in e;
    } else {
      var e := CycleThrough(p, j);
      Apart(p, c, e);
      var d := JoinCycles(p, c, e);
      forall y: nat ensures OnCycle(q, i, y) <==> OnCycle(p, i, y) || OnCycle(p, j, y) {
        OnCycleIff(p, c, y);
        OnCycleIff(p, e, y);
        OnCycleIff(q, d, y);
      }
      OnCycleIff(q, d, j);
      assert e[0] in e;
    }
    forall x: nat, y: nat | x < |p| && !OnCycle(p, x, i) && !OnCycle(p, x, j)
      ensures OnCycle(q, x, y) <==> OnCycle(p, x, y)
    {
      var f := CycleThrough(p, x);
      OnCycleIff(p, f, i);
      OnCycleIff(p, f, j);
      OtherCycleKept(p, i, j, f);
      OnCycleIff(p, f, y);
      OnCycleIff(q, f, y);
    }
  }

  // Cycles whose first nodes are on different cycles have no node in common.
  lemma Apart(p: seq<nat>, c: seq<nat>, e: seq<nat>)
    requires Bijection(p) && IsCycle(p, c) && IsCycle(p, e) && e[0] !in c
    ensures forall z :: z in c ==> z !in e
  {
    forall z | z in c ensures z !in e {
      if z in e {
        var d := Rotated(p, e, z);
        assert e[0] in e && e[0] in d;
        var k :| 0 <= k < |d| && d[k] == e[0];
        CyclesMeet(p, c, d, k);
      }
    }
  }

  /* ----- counting cycles by their smallest nodes ----- */

  ghost predicate IsLeader(p: seq<nat>, x: nat)
    requires Links(p) && x < |p|
  {
    forall y: nat :: OnCycle(p, x, y) ==> x <= y
  }

  ghost function Leaders(p: seq<nat>): set<nat>
    requires Links(p)
  {
    set x: nat | x < |p| && IsLeader(p, x)
  }

  predicate IsLeast(c: seq<nat>, x: nat) {
    x in c && forall y :: y in c ==> x <= y
  }

  lemma {:induction false} Least(c: seq<nat>) returns (x: nat)
    requires |c| > 0
    ensures IsLeast(c, x)
  {
    if |c| == 1 {
      x := c[0];
    } else {
      x := Least(c[1..]);
      assert c == [c[0]] + c[1..];
      if c[0] < x {
        x := c[0];
      }
    }
  }

  lemma LeaderIff(p: seq<nat>, c: seq<nat>, x: nat)
    requires Bijection(p) && IsCycle(p, c) && x in c
    ensures x < |p| && (IsLeader(p, x) <==> IsLeast(c, x))
  {
    var d := Rotated(p, c, x);
    forall y: nat ensures OnCycle(p, x, y) <==> y in c {
      OnCycleIff(p, d, y);
    }
  }

  // A split makes one cycle more.
  lemma SplitCounts(p: seq<nat>, i: nat, j: nat)
    requires Bijection(p) && i < |p| && j < |p| && i != j && OnCycle(p, i, j)
    ensures Bijection(Swap(p, i, j)) && |Leaders(Swap(p, i, j))| == |Leaders(p)| + 1
  {
    SwapKeepsBijection(p, i, j);
    var c := CycleThrough(p, i);
    OnCycleIff(p, c, j);
    var k :| 0 <= k < |c| && c[k] == j;
    var d, e := SplitCycle(p, c, k);
    var lc := Least(c);
    var ld := Least(d);
    var le := Least(e);
    SplitLeaders(p, i, j, c, d, e, lc, ld, le);
    assert Leaders(Swap(p, i, j)) == Leaders(p) - {lc} + {ld, le};
    assert ld !in Leaders(p) - {lc} && le !in Leaders(p) - {lc} && lc in Leaders(p);
  }

  // The leader of the cycle c makes way for those of its parts d and e.
  lemma SplitLeaders(p: seq<nat>, i: nat, j: nat, c: seq<nat>, d: seq<nat>, e: seq<nat>, lc: nat, ld: nat, le: nat)
    requires Bijection(p) && i < |p| && j < |p| && i in c && j in c && Bijection(Swap(p, i, j))
    requires IsCycle(p, c) && IsCycle(Swap(p, i, j), d) && IsCycle(Swap(p, i, j), e)
    requires IsLeast(c, lc) && IsLeast(d, ld) && IsLeast(e, le)
    requires (forall z :: z in c <==> z in d || z in e) && (forall z :: z in d ==> z !in e)
    ensures forall x: nat :: x < |p| && x in c ==>
              (IsLeader(p, x) <==> x == lc) && (IsLeader(Swap(p, i, j), x) <==> x == ld || x == le)
    ensures forall x: nat :: x < |p| && x !in c ==> (IsLeader(p, x) <==> IsLeader(Swap(p, i, j), x))
  {
    var q := Swap(p, i, j);
    forall x: nat | x < |p|
      ensures x in c ==> (IsLeader(p, x) <==> x == lc) && (IsLeader(q, x) <==> x == ld || x == le)
      ensures x !in c ==> (IsLeader(p, x) <==> IsLeader(q, x))
    {
      if x in c {
        LeaderIff(p, c, x);
        if x in d {
          LeaderIff(q, d, x);
        } else {
          LeaderIff(q, e, x);
        }
      } else {
        LeaderKept(p, i, j, c, x);
      }
    }
  }

  lemma LeaderKept(p: seq<nat>, i: nat, j: nat, c: seq<nat>, x: nat)
    requires Bijection(p) && i < |p| && j < |p| && IsCycle(p, c) && i in c && j in c && x < |p| && x !in c
    ensures Bijection(Swap(p, i, j)) && (IsLeader(p, x) <==> IsLeader(Swap(p, i, j), x))
  {
    SwapKeepsBijection(p, i, j);
    var f := CycleThrough(p, x);
    Apart(p, c, f);
    OtherCycleKept(p, i, j, f);
    LeaderIff(p, f, x);
    LeaderIff(Swap(p, i, j), f, x);
  }

  // A swap of two different links changes the number of cycles by exactly one.
  lemma SwapCounts(p: seq<nat>, i: nat, j: nat)
    requires Bijection(p) && i < |p| && j < |p| && i != j
    ensures Bijection(Swap(p, i, j))
    ensures |Leaders(Swap(p, i, j))| == |Leaders(p)| + (if OnCycle(p, i, j) then 1 else -1)
  {
    SwapSplitsOrJoins(p, i, j);
    if OnCycle(p, i, j) {
      SplitCounts(p, i, j);
    } else {
      SplitCounts(Swap(p, i, j), i, j);
      assert Swap(Swap(p, i, j), i, j) == p;
    }
  }

  // The cycle through node 0 covers every node exactly when it is the only cycle.
  lemma CoversIff(p: seq<nat>, c: seq<nat>)
    requires Bijection(p) && IsCycle(p, c) && c[0] == 0
    ensures |c| <= |p| && (|c| == |p| <==> |Leaders(p)| == 1)
  {
    Pigeonhole(c, |p|);
    LeaderIff(p, c, 0);
    assert c[0] in c;
    if |c| == |p| {
      forall x: nat | x < |p| ensures IsLeader(p, x) <==> x == 0 {
        LeaderIff(p, c, x);
      }
      assert Leaders(p) == {0};
    } else {
      var x := Missing(c, |p|);
      var f := CycleThrough(p, x);
      Apart(p, c, f);
      var l := Least(f);
      LeaderIff(p, f, l);
      assert {0, l} <= Leaders(p) && |{0, l}| == 2;
      assert |Leaders(p) - {0, l}| == |Leaders(p)| - 2;
    }
  }

  // Fewer than n distinct nodes leave one of 0..n-1 out.
  lemma {:induction false} Missing(c: seq<nat>, n: nat) returns (x: nat)
    requires |c| < n && Distinct(c)
    ensures x < n && x !in c
  {
    x := n - 1;
    if i :| 0 <= i < |c| && c[i] == n - 1 {
      var rest := c[..i] + c[i + 1..];
      x := Missing(rest, n - 1);
      assert forall y :: y in c ==> y == n - 1 || y in rest;
    }
  }
}
