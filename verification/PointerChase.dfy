// The in-place shuffle of the pointer-chase test, and what it makes of a ring of links.
module FisherYates {
  import opened Permutations

  // One choice for each of the positions i, i+1, ..., n-2, each between its position and n-1.
  predicate Choices(js: seq<nat>, i: nat, n: nat) {
    && i + |js| == (if i + 1 < n then n - 1 else i)
    && forall k :: 0 <= k < |js| ==> i + k <= js[k] < n
  }

  function ShuffleFrom<T>(s: seq<T>, i: nat, js: seq<nat>): (t: seq<T>)
    requires Choices(js, i, |s|)
    ensures |t| == |s|
    decreases |js|
  {
    if |js| == 0 then s else ShuffleFrom(Swap(s, i, js[0]), i + 1, js[1..])
  }

  function IndexFrom<T(==)>(s: seq<T>, x: T, i: nat): (k: nat)
    requires i <= |s| && x in s[i..]
    ensures i <= k < |s| && s[k] == x
    decreases |s| - i
  {
    if s[i] == x then i else IndexFrom(s, x, i + 1)
  }

  // The choices that turn s into t, read off position by position.
  ghost function ChoicesFor<T>(s: seq<T>, t: seq<T>, i: nat): (js: seq<nat>)
    requires i <= |s| == |t| && s[..i] == t[..i] && multiset(s) == multiset(t)
    decreases |s| - i
  {
    if i + 1 >= |s| then [] else
    TailHolds(s, t, i);
    var j := IndexFrom(s, t[i], i);
    SwapMultiset(s, i, j);
    [j] + ChoicesFor(Swap(s, i, j), t, i + 1)
  }

  lemma TailHolds<T>(s: seq<T>, t: seq<T>, i: nat)
    requires i < |s| == |t| && s[..i] == t[..i] && multiset(s) == multiset(t)
    ensures t[i] in s[i..] && multiset(s[i..]) == multiset(t[i..])
  {
    assert s == s[..i] + s[i..] && t == t[..i] + t[i..];
    assert multiset(s) == multiset(s[..i]) + multiset(s[i..]);
    assert multiset(t) == multiset(t[..i]) + multiset(t[i..]);
    assert multiset(s[i..]) == multiset(s) - multiset(s[..i]);
    assert multiset(t[i..]) == multiset(t) - multiset(t[..i]);
    assert t[i..][0] in multiset(t[i..]);
  }

  lemma SwapMultiset<T>(s: seq<T>, i: nat, j: nat)
    requires i < |s| && j < |s|
    ensures multiset(Swap(s, i, j)) == multiset(s)
  {
  }

  // The shuffle only permutes, and leaves the positions before i alone.
  lemma {:induction false} ShufflePermutes<T>(s: seq<T>, i: nat, js: seq<nat>)
    requires Choices(js, i, |s|) && i <= |s|
    ensures multiset(ShuffleFrom(s, i, js)) == multiset(s)
    ensures ShuffleFrom(s, i, js)[..i] == s[..i]
    decreases |js|
  {
    if |js| > 0 {
      var u := Swap(s, i, js[0]);
      SwapMultiset(s, i, js[0]);
      ShufflePermutes(u, i + 1, js[1..]);
      assert u[..i] == s[..i];
      assert ShuffleFrom(s, i, js)[..i] == ShuffleFrom(s, i, js)[..i + 1][..i] == u[..i + 1][..i];
    }
  }

  // Every rearrangement is reached: the choices read off from t lead from s to t.
  lemma {:induction false} ChoicesLead<T>(s: seq<T>, t: seq<T>, i: nat)
    requires i <= |s| == |t| && s[..i] == t[..i] && multiset(s) == multiset(t)
    ensures Choices(ChoicesFor(s, t, i), i, |s|)
    ensures ShuffleFrom(s, i, ChoicesFor(s, t, i)) == t
    decreases |s| - i
  {
    if i + 1 < |s| {
      TailHolds(s, t, i);
      var j := IndexFrom(s, t[i], i);
      SwapMultiset(s, i, j);
      var js := ChoicesFor(Swap(s, i, j), t, i + 1);
      ChoicesLead(Swap(s, i, j), t, i + 1);
      assert ChoicesFor(s, t, i) == [j] + js && ([j] + js)[1..] == js;
    } else {
      NothingLeft(s, t, i);
    }
  }

  lemma NothingLeft<T>(s: seq<T>, t: seq<T>, i: nat)
    requires i <= |s| == |t| <= i + 1 && s[..i] == t[..i] && multiset(s) == multiset(t)
    ensures s == t
  {
    if i < |s| {
      TailHolds(s, t, i);
      assert s[i..] == [s[i]];
    }
    assert s == s[..i] + s[i..] && t == t[..i] + t[i..];
  }

  // The first choice decides what stands at position i in the end.
  lemma FirstPlaced<T>(s: seq<T>, i: nat, js: seq<nat>)
    requires Choices(js, i, |s|) && |js| > 0
    ensures ShuffleFrom(s, i, js)[i] == s[js[0]]
  {
    var u := Swap(s, i, js[0]);
    ShufflePermutes(u, i + 1, js[1..]);
    assert ShuffleFrom(s, i, js)[..i + 1][i] == u[..i + 1][i];
  }

  lemma IndexOfChosen<T>(s: seq<T>, i: nat, j: nat)
    requires Distinct(s) && i <= j < |s|
    ensures s[j] in s[i..] && IndexFrom(s, s[j], i) == j
  {
    assert s[i..][j - i] == s[j];
  }

  lemma {:induction false} ReadBackStep<T>(s: seq<T>, i: nat, js: seq<nat>)
    requires Distinct(s) && Choices(js, i, |s|) && |js| > 0
    ensures var u, t := Swap(s, i, js[0]), ShuffleFrom(s, i, js);
            && Distinct(u)
            && s[..i] == t[..i] && multiset(s) == multiset(t) && u[..i + 1] == t[..i + 1] && multiset(u) == multiset(t)
            && ChoicesFor(s, t, i) == [js[0]] + ChoicesFor(u, t, i + 1)
  {
    var u, t := Swap(s, i, js[0]), ShuffleFrom(s, i, js);
    ShufflePermutes(s, i, js);
    ShufflePermutes(u, i + 1, js[1..]);
    FirstPlaced(s, i, js);
    TailHolds(s, t, i);
    IndexOfChosen(s, i, js[0]);
  }

  // And reached only once: from distinct elements the choices can be read back from the result.
  lemma {:induction false} ChoicesReadBack<T>(s: seq<T>, i: nat, js: seq<nat>)
    requires Distinct(s) && Choices(js, i, |s|) && i <= |s|
    ensures s[..i] == ShuffleFrom(s, i, js)[..i] && multiset(s) == multiset(ShuffleFrom(s, i, js))
    ensures ChoicesFor(s, ShuffleFrom(s, i, js), i) == js
    decreases |js|
  {
    if |js| > 0 {
      ReadBackStep(s, i, js);
      ChoicesReadBack(Swap(s, i, js[0]), i + 1, js[1..]);
    }
  }

  ghost predicate Reaches<T>(s: seq<T>, t: seq<T>, js: seq<nat>) {
    Choices(js, 0, |s|) && ShuffleFrom(s, 0, js) == t
  }

  // Fisher-Yates is a bijection: choice sequences correspond one to one to the rearrangements of s.
  lemma ShuffleBijection<T>(s: seq<T>, t: seq<T>)
    requires Distinct(s)
    ensures multiset(t) == multiset(s) <==> exists js :: Reaches(s, t, js)
    ensures forall js, js' :: Reaches(s, t, js) && Reaches(s, t, js') ==> js == js'
  {
    if js :| Reaches(s, t, js) {
      ShufflePermutes(s, 0, js);
    }
    if multiset(t) == multiset(s) {
      assert |t| == |multiset(t)| == |multiset(s)| == |s|;
      ChoicesLead(s, t, 0);
      assert Reaches(s, t, ChoicesFor(s, t, 0));
    }
    forall js, js' | Reaches(s, t, js) && Reaches(s, t, js') ensures js == js' {
      ChoicesReadBack(s, 0, js);
      ChoicesReadBack(s, 0, js');
    }
  }

  /* ----- drawing the choices with rand() ----- */

  // j = i + rand() % (n - i)
  function FromDraws(rs: seq<nat>, i: nat, n: nat): (js: seq<nat>)
    requires i + |rs| == (if i + 1 < n then n - 1 else i)
    ensures Choices(js, i, n)
    decreases |rs|
  {
    if |rs| == 0 then [] else [i + rs[0] % (n - i)] + FromDraws(rs[1..], i + 1, n)
  }

  // The choice j for position p is one of p, ..., n - 1, at a distance that differs from the draw by a multiple of
  // the number of choices there are.
  predicate Follows(draw: nat, p: nat, n: nat, j: nat, q: nat) {
    p <= j < n && draw == q * (n - p) + (j - p)
  }

  lemma FollowsMod(draw: nat, p: nat, n: nat)
    requires p < n
    ensures Follows(draw, p, n, p + draw % (n - p), draw / (n - p))
  {
  }

  lemma {:induction false} ChoiceFollowsDraw(rs: seq<nat>, i: nat, n: nat, k: nat) returns (q: nat)
    requires i + |rs| == (if i + 1 < n then n - 1 else i) && k < |rs|
    ensures |FromDraws(rs, i, n)| == |rs| && Follows(rs[k], i + k, n, FromDraws(rs, i, n)[k], q)
    decreases |rs|
  {
    var js := FromDraws(rs[1..], i + 1, n);
    assert FromDraws(rs, i, n) == [i + rs[0] % (n - i)] + js;
    if k == 0 {
      FollowsMod(rs[0], i, n);
      q := rs[0] / (n - i);
    } else {
      q := ChoiceFollowsDraw(rs[1..], i + 1, n, k - 1);
      assert (i + 1) + (k - 1) == i + k;
    }
  }

  predicate Drawable(rs: seq<nat>, n: nat, randMax: nat) {
    |rs| == (if n > 1 then n - 1 else 0) && forall k :: 0 <= k < |rs| ==> rs[k] <= randMax
  }

  ghost predicate DrawsReach<T>(s: seq<T>, t: seq<T>, randMax: nat) {
    exists rs :: Drawable(rs, |s|, randMax) && ShuffleFrom(s, 0, FromDraws(rs, 0, |s|)) == t
  }

  lemma SmallMod(x: nat, n: nat)
    requires x < n
    ensures x % n == x
  {
  }

  lemma {:induction false} DrawsFor(js: seq<nat>, i: nat, n: nat) returns (rs: seq<nat>)
    requires Choices(js, i, n)
    ensures |rs| == |js| && FromDraws(rs, i, n) == js
    ensures forall k :: 0 <= k < |rs| ==> rs[k] < n
    decreases |js|
  {
    if |js| == 0 {
      rs := [];
    } else {
      var rest := DrawsFor(js[1..], i + 1, n);
      rs := [js[0] - i] + rest;
      assert rs[1..] == rest;
      SmallMod(js[0] - i, n - i);
      assert FromDraws(rs, i, n) == [js[0]] + FromDraws(rest, i + 1, n);
    }
  }

  // Results of rand() up to randMax reach every arrangement exactly when there are at most randMax + 1 nodes.
  lemma EveryOrderDrawableIff<T>(s: seq<T>, randMax: nat)
    requires Distinct(s) && |s| > 0
    ensures (forall t :: multiset(t) == multiset(s) ==> DrawsReach(s, t, randMax)) <==> |s| <= randMax + 1
  {
    var n := |s|;
    if n <= randMax + 1 {
      forall t | multiset(t) == multiset(s) ensures DrawsReach(s, t, randMax) {
        ShuffleBijection(s, t);
        var js :| Reaches(s, t, js);
        var rs := DrawsFor(js, 0, n);
        assert Drawable(rs, n, randMax);
      }
    } else {
      LastNeverFirst(s, randMax);
    }
  }

  lemma FirstDraw(rs: seq<nat>, n: nat)
    requires |rs| == n - 1 > 0 && rs[0] < n
    ensures FromDraws(rs, 0, n)[0] == rs[0]
  {
    SmallMod(rs[0], n);
  }

  // With fewer values of rand() than nodes the last element cannot be brought to the front.
  lemma LastNeverFirst<T>(s: seq<T>, randMax: nat)
    requires Distinct(s) && |s| > randMax + 1
    ensures multiset(Swap(s, 0, |s| - 1)) == multiset(s) && !DrawsReach(s, Swap(s, 0, |s| - 1), randMax)
  {
    var n := |s|;
    var t := Swap(s, 0, n - 1);
    SwapMultiset(s, 0, n - 1);
    if rs :| Drawable(rs, n, randMax) && ShuffleFrom(s, 0, FromDraws(rs, 0, n)) == t {
      FirstDraw(rs, n);
      FirstPlaced(s, 0, FromDraws(rs, 0, n));
    }
  }
}

// test_pointer_chase and MemoryAccessor::pointer_chase: link a ring, shuffle its links, walk.
module PointerChase {
  import opened Permutations
  import opened FisherYates

  function Ring(n: nat): seq<nat> {
    seq(n, i => if i + 1 < n then i + 1 else 0)
  }

  // Positions where the shuffle really exchanged two links.
  function Moves(js: seq<nat>, i: nat): nat
    decreases |js|
  {
    if |js| == 0 then 0 else (if js[0] != i then 1 else 0) + Moves(js[1..], i + 1)
  }

  lemma RingCycle(n: nat)
    requires n > 0
    ensures Bijection(Ring(n)) && |Leaders(Ring(n))| == 1
  {
    var c := seq(n, i => i);
    assert IsCycle(Ring(n), c);
    CoversIff(Ring(n), c);
  }

  // Splits less joins: an exchange counts 1 if its two positions share a cycle when it is made, -1 if not.
  ghost function Balance(p: seq<nat>, i: nat, js: seq<nat>): int
    requires Bijection(p) && Choices(js, i, |p|)
    decreases |js|
  {
    if |js| == 0 then 0 else
    SwapKeepsBijection(p, i, js[0]);
    (if js[0] == i then 0 else if OnCycle(p, i, js[0]) then 1 else -1) + Balance(Swap(p, i, js[0]), i + 1, js[1..])
  }

  // The choices decide the number of cycles the shuffle leaves.
  lemma {:induction false} ShuffleBalance(p: seq<nat>, i: nat, js: seq<nat>)
    requires Bijection(p) && Choices(js, i, |p|)
    ensures Bijection(ShuffleFrom(p, i, js))
    ensures |Leaders(ShuffleFrom(p, i, js))| == |Leaders(p)| + Balance(p, i, js)
    decreases |js|
  {
    if |js| > 0 {
      var q := Swap(p, i, js[0]);
      SwapKeepsBijection(p, i, js[0]);
      if js[0] == i {
        assert q == p;
      } else {
        SwapCounts(p, i, js[0]);
      }
      ShuffleBalance(q, i + 1, js[1..]);
    }
  }

  lemma {:induction false} BalanceParity(p: seq<nat>, i: nat, js: seq<nat>)
    requires Bijection(p) && Choices(js, i, |p|)
    ensures (Balance(p, i, js) - Moves(js, i)) % 2 == 0
    decreases |js|
  {
    if |js| > 0 {
      SwapKeepsBijection(p, i, js[0]);
      BalanceParity(Swap(p, i, js[0]), i + 1, js[1..]);
    }
  }

  // Each real exchange changes the number of cycles by one, so its parity is known after the whole shuffle.
  lemma {:induction false} ShuffleParity(p: seq<nat>, i: nat, js: seq<nat>)
    requires Bijection(p) && Choices(js, i, |p|)
    ensures Bijection(ShuffleFrom(p, i, js))
    ensures (|Leaders(ShuffleFrom(p, i, js))| - |Leaders(p)| - Moves(js, i)) % 2 == 0
  {
    ShuffleBalance(p, i, js);
    BalanceParity(p, i, js);
  }

  function ShuffledRing(n: nat, js: seq<nat>): seq<nat>
    requires Choices(js, 0, n)
  {
    ShuffleFrom(Ring(n), 0, js)
  }

  ghost predicate Visited(p: seq<nat>, steps: nat, y: nat)
    requires Links(p) && |p| > 0
  {
    exists k: nat :: k <= steps && Walk(p, 0, k) == y
  }

  // The walk from node 0 over the shuffled links returns for the first time after some d <= n steps. By then
  // it has visited exactly d nodes, and it never visits any other.
  lemma FirstReturn(n: nat, js: seq<nat>) returns (c: seq<nat>)
    requires n > 0 && Choices(js, 0, n)
    ensures var p := ShuffledRing(n, js);
            && Bijection(p) && IsCycle(p, c) && c[0] == 0 && |c| <= n
            && Walk(p, 0, |c|) == 0 && (forall k: nat :: 0 < k < |c| ==> Walk(p, 0, k) != 0)
            && (forall steps: nat, y: nat :: steps >= |c| - 1 ==> (Visited(p, steps, y) <==> y in c))
  {
    var p := ShuffledRing(n, js);
    RingCycle(n);
    ShuffleParity(Ring(n), 0, js);
    c := CycleThrough(p, 0);
    WalkAlong(p, c, |c|);
    forall k: nat | 0 < k < |c| ensures Walk(p, 0, k) != 0 {
      WalkAlong(p, c, k);
    }
    forall steps: nat, y: nat | steps >= |c| - 1 ensures Visited(p, steps, y) <==> y in c {
      OnCycleIff(p, c, y);
      if y in c {
        var k: nat :| k < |c| && c[k] == y;
        WalkAlong(p, c, k);
        assert k <= steps && Walk(p, 0, k) == y;
      }
    }
  }

  ghost predicate Covers(p: seq<nat>)
    requires Links(p) && |p| > 0
  {
    forall y: nat :: y < |p| ==> Visited(p, |p|, y)
  }

  lemma CoversOneCycle(n: nat, js: seq<nat>)
    requires n > 0 && Choices(js, 0, n)
    ensures Bijection(ShuffledRing(n, js))
    ensures Covers(ShuffledRing(n, js)) <==> |Leaders(ShuffledRing(n, js))| == 1
  {
    var p := ShuffledRing(n, js);
    RingCycle(n);
    ShuffleBalance(Ring(n), 0, js);
    var c := FirstReturn(n, js);
    CoversIff(p, c);
    if |c| == n {
      Pigeonhole(c, n);
    } else {
      var x := Missing(c, n);
      assert !Visited(p, n, x);
    }
  }

  // The chase is meant to touch every node. It does so exactly when the choices split cycles as often as they
  // join them, and so only with an even number of real exchanges.
  lemma CoversIffBalanced(n: nat, js: seq<nat>)
    requires n > 0 && Choices(js, 0, n)
    ensures Bijection(Ring(n)) && Bijection(ShuffledRing(n, js))
    ensures Covers(ShuffledRing(n, js)) <==> Balance(Ring(n), 0, js) == 0
    ensures Covers(ShuffledRing(n, js)) ==> Moves(js, 0) % 2 == 0
  {
    RingCycle(n);
    CoversOneCycle(n, js);
    ShuffleBalance(Ring(n), 0, js);
    BalanceParity(Ring(n), 0, js);
  }

  // At worst the chase never leaves node 0: exactly when the first choice is the last node, whose link leads to 0.
  lemma StuckAtStartIff(n: nat, js: seq<nat>)
    requires n > 1 && Choices(js, 0, n)
    ensures Bijection(ShuffledRing(n, js))
    ensures (forall k: nat :: Walk(ShuffledRing(n, js), 0, k) == 0) <==> js[0] == n - 1
    ensures js[0] == n - 1 ==> !Covers(ShuffledRing(n, js))
  {
    var p := ShuffledRing(n, js);
    RingCycle(n);
    ShuffleBalance(Ring(n), 0, js);
    FirstPlaced(Ring(n), 0, js);
    assert Walk(p, 0, 1) == p[Walk(p, 0, 0)] == Ring(n)[js[0]];
    if js[0] == n - 1 {
      forall k: nat ensures Walk(p, 0, k) == 0 {
        NeverLeaves(p, k);
      }
      assert !Visited(p, n, 1);
    } else {
      assert Walk(p, 0, 1) != 0;
    }
  }

  lemma {:induction false} NeverLeaves(p: seq<nat>, k: nat)
    requires Links(p) && |p| > 0 && p[0] == 0
    ensures Walk(p, 0, k) == 0
  {
    if k > 0 {
      NeverLeaves(p, k - 1);
    }
  }

  // Two nodes and one exchange: node 0 links to itself and node 1 is never visited.
  lemma ExchangeLosesNode()
    ensures Choices([1], 0, 2) && ShuffledRing(2, [1]) == [0, 1]
    ensures !Covers(ShuffledRing(2, [1]))
  {
    assert Ring(2) == [1, 0];
    assert ShuffleFrom(Swap(Ring(2), 0, 1), 1, []) == [0, 1];
    StuckAtStartIff(2, [1]);
  }

  /* ----- the loops ----- */

  method LinkRing(next: array<nat>)
    requires next.Length > 0
    modifies next
    ensures next[..] == Ring(next.Length)
    ensures forall k :: 0 <= k < next.Length - 1 ==> next[k] == k + 1
    ensures next[next.Length - 1] == 0
  {
    var n := next.Length;
    var i := 0;
    while i < n - 1
      invariant 0 <= i <= n - 1
      invariant forall k :: 0 <= k < i ==> next[k] == k + 1
    {
      next[i] := i + 1;
      i := i + 1;
    }
    next[n - 1] := 0;
  }

  method Shuffle(next: array<nat>, draws: seq<nat>)
    requires next.Length > 0 && |draws| == next.Length - 1
    modifies next
    ensures next[..] == ShuffleFrom(old(next[..]), 0, FromDraws(draws, 0, next.Length))
  {
    var n := next.Length;
    var i := 0;
    ghost var goal := ShuffleFrom(next[..], 0, FromDraws(draws, 0, n));
    while i < n - 1
      invariant 0 <= i <= n - 1
      invariant ShuffleFrom(next[..], i, FromDraws(draws[i..], i, n)) == goal
    {
      var j := i + draws[i] % (n - i);
      ghost var before := next[..];
      var temp := next[i];
      next[i] := next[j];
      next[j] := temp;
      assert next[..] == Swap(before, i, j);
      assert draws[i..][1..] == draws[i + 1..];
      i := i + 1;
    }
  }

  // The measured traversal: iterations * n links followed from node 0.
  method Chase(next: array<nat>, iterations: int) returns (current: nat)
    requires next.Length > 0 && Links(next[..])
    ensures current == Walk(next[..], 0, (if iterations > 0 then iterations else 0) * next.Length)
  {
    var n := next.Length;
    current := 0;
    ghost var steps: nat := 0;
    var iter := 0;
    while iter < iterations
      invariant 0 <= iter && (iter <= iterations || iter == 0)
      invariant steps == iter * n && current < n && current == Walk(next[..], 0, steps)
    {
      var i := 0;
      while i < n
        invariant 0 <= i <= n && steps == iter * n + i
        invariant current < n && current == Walk(next[..], 0, steps)
      {
        current := next[current];
        steps := steps + 1;
        i := i + 1;
      }
      iter := iter + 1;
    }
  }

  method TestPointerChase(next: array<nat>, draws: seq<nat>, iterations: int) returns (current: nat)
    requires next.Length > 0 && |draws| == next.Length - 1
    modifies next
    ensures next[..] == ShuffledRing(next.Length, FromDraws(draws, 0, next.Length))
    ensures Bijection(next[..])
    ensures current == Walk(next[..], 0, (if iterations > 0 then iterations else 0) * next.Length)
  {
    LinkRing(next);
    Shuffle(next, draws);
    RingCycle(next.Length);
    ShuffleParity(Ring(next.Length), 0, FromDraws(draws, 0, next.Length));
    current := Chase(next, iterations);
  }
}
