// MemoryAccessor<char>: touching one byte of every cache line, in order or in a shuffled order.
module Traversals {
  import opened Permutations

  const CACHE_LINE_SIZE: nat := 64

  newtype Byte = x: int | 0 <= x < 256

  // A byte after `times` increments, which wrap at 256.
  function Plus(b: Byte, times: nat): Byte {
    ((b as int + times) % 256) as Byte
  }

  function Increment(b: Byte): Byte {
    if b == 255 then 0 else b + 1
  }

  lemma PlusOne(b: Byte, times: nat)
    ensures Increment(Plus(b, times)) == Plus(b, times + 1)
  {
  }

  predicate IsHead(k: nat, lines: nat) {
    k % CACHE_LINE_SIZE == 0 && k / CACHE_LINE_SIZE < lines
  }

  // Memory whose first `lines` line heads have been incremented `times` times.
  function Touched(mem: seq<Byte>, lines: nat, times: nat): seq<Byte> {
    seq(|mem|, k requires 0 <= k < |mem| => if IsHead(k, lines) then Plus(mem[k], times) else mem[k])
  }

  function Times(iterations: int): nat {
    if iterations > 0 then iterations else 0
  }

  // The last line counts even if it is cut short.
  function LinesBegun(size: nat): nat {
    (size + CACHE_LINE_SIZE - 1) / CACHE_LINE_SIZE
  }

  method SequentialAccess(mem: array<Byte>, iterations: int)
    modifies mem
    ensures mem[..] == Touched(old(mem[..]), LinesBegun(mem.Length), Times(iterations))
    ensures forall k :: 0 <= k < mem.Length ==>
              mem[k] as int == if k % 64 == 0
                               then (old(mem[k]) as int + (if iterations > 0 then iterations else 0)) % 256
                               else old(mem[k]) as int
  {
    var size, lines := mem.Length, LinesBegun(mem.Length);
    ghost var start := mem[..];
    var iter := 0;
    assert mem[..] == Touched(start, lines, 0);
    while iter < iterations
      invariant 0 <= iter <= Times(iterations)
      invariant mem[..] == Touched(start, lines, iter)
    {
      var i := 0;
      while i < size
        invariant 0 <= i && i % CACHE_LINE_SIZE == 0
        invariant forall k :: 0 <= k < size ==>
                    mem[k] == if IsHead(k, lines) then Plus(start[k], iter + if k < i then 1 else 0) else start[k]
      {
        PlusOne(start[i], iter);
        mem[i] := Increment(mem[i]);
        i := i + CACHE_LINE_SIZE;
      }
      iter := iter + 1;
    }
    HeadsBegun(start, Times(iterations));
  }

  // What is in memory afterwards, as numbers.
  lemma HeadsTouched(mem: seq<Byte>, lines: nat, times: nat)
    ensures forall k :: 0 <= k < |mem| ==>
              Touched(mem, lines, times)[k] as int ==
              if k % 64 == 0 && k / 64 < lines then (mem[k] as int + times) % 256 else mem[k] as int
  {
  }

  lemma HeadsBegun(mem: seq<Byte>, times: nat)
    ensures forall k :: 0 <= k < |mem| ==>
              Touched(mem, LinesBegun(|mem|), times)[k] as int ==
              if k % 64 == 0 then (mem[k] as int + times) % 256 else mem[k] as int
  {
    HeadsTouched(mem, LinesBegun(|mem|), times);
    forall k: nat | k < |mem| ensures k / 64 < LinesBegun(|mem|) {
      HeadOfBegun(k, |mem|);
    }
  }

  lemma HeadOfBegun(k: nat, size: nat)
    requires k < size
    ensures k / CACHE_LINE_SIZE < LinesBegun(size)
  {
  }

  // `indices` is the shuffled vector: some order of the numbers of whole lines.
  method RandomAccess(mem: array<Byte>, iterations: int, indices: seq<nat>)
    requires |indices| == mem.Length / CACHE_LINE_SIZE && Bijection(indices)
    modifies mem
    ensures mem[..] == Touched(old(mem[..]), mem.Length / CACHE_LINE_SIZE, Times(iterations))
    ensures forall k :: 0 <= k < mem.Length ==>
              mem[k] as int == if k % 64 == 0 && k / 64 < mem.Length / 64
                               then (old(mem[k]) as int + (if iterations > 0 then iterations else 0)) % 256
                               else old(mem[k]) as int
  {
    var size, lines := mem.Length, mem.Length / CACHE_LINE_SIZE;
    ghost var start := mem[..];
    Pigeonhole(indices, lines);
    var iter := 0;
    assert mem[..] == Touched(start, lines, 0);
    while iter < iterations
      invariant 0 <= iter <= Times(iterations)
      invariant mem[..] == Touched(start, lines, iter)
    {
      var a := 0;
      while a < |indices|
        invariant 0 <= a <= |indices|
        invariant forall k :: 0 <= k < size ==>
                    mem[k] == if IsHead(k, lines)
                              then Plus(start[k], iter + if k / CACHE_LINE_SIZE in indices[..a] then 1 else 0)
                              else start[k]
      {
        var head := indices[a] * CACHE_LINE_SIZE;
        PlusOne(start[head], iter);
        mem[head] := Increment(mem[head]);
        assert indices[..a + 1] == indices[..a] + [indices[a]];
        assert head / CACHE_LINE_SIZE == indices[a] && indices[a] !in indices[..a];
        a := a + 1;
      }
      assert indices[..a] == indices;
      iter := iter + 1;
    }
    HeadsTouched(start, lines, Times(iterations));
  }

  // The order of the traversal does not matter, but its extent does: both leave every memory of this size in
  // the same state exactly when there is no cut-off last line or its head has gone round all 256 values.
  lemma SameEffectIff(size: nat, iterations: int)
    ensures (forall mem: seq<Byte> :: |mem| == size ==>
               Touched(mem, LinesBegun(size), Times(iterations)) ==
               Touched(mem, size / CACHE_LINE_SIZE, Times(iterations)))
            <==> size % CACHE_LINE_SIZE == 0 || Times(iterations) % 256 == 0
  {
    var t, whole, begun := Times(iterations), size / CACHE_LINE_SIZE, LinesBegun(size);
    if size % CACHE_LINE_SIZE == 0 {
      assert whole == begun;
    } else if t % 256 == 0 {
      forall mem: seq<Byte> | |mem| == size ensures Touched(mem, begun, t) == Touched(mem, whole, t) {
        forall b: Byte ensures Plus(b, t) == b {}
      }
    } else {
      var last := whole * CACHE_LINE_SIZE;
      var mem: seq<Byte> := seq(size, _ => 0);
      assert IsHead(last, begun) && !IsHead(last, whole);
      assert Touched(mem, begun, t)[last] != Touched(mem, whole, t)[last];
    }
  }
}
