// The allocation statistics of the C++ allocator benchmark, against the blocks that are live.
module AllocationLedger {
  import opened Folding

  const SIZE_T_RANGE: nat := 0x1_0000_0000_0000_0000

  lemma {:induction false} TotalNotNegative(live: seq<nat>)
    ensures Total(live, Same) >= 0
  {
    if |live| > 0 {
      TotalNotNegative(live[1..]);
    }
  }

  // Subtraction of size_t.
  function Minus(a: nat, b: nat): nat {
    if b <= a then a - b else (a - b) % SIZE_T_RANGE
  }

  function Without(live: seq<nat>, k: nat): seq<nat>
    requires k < |live|
  {
    live[..k] + live[k + 1..]
  }

  // Freeing a block takes its bytes out of the total.
  lemma TotalWithout(live: seq<nat>, k: nat)
    requires k < |live|
    ensures Total(live, Same) == Total(Without(live, k), Same) + live[k]
  {
    TotalConcat(live[..k], live[k..], Same);
    TotalConcat(live[..k], live[k + 1..], Same);
    assert live == live[..k] + live[k..] && live[k..][1..] == live[k + 1..];
  }

  // The value is reached and never exceeded.
  predicate IsPeak(usage: seq<int>, peak: int) {
    peak in usage && forall i :: 0 <= i < |usage| ==> usage[i] <= peak
  }

  lemma PeakGrows(usage: seq<int>, peak: int, x: int)
    requires IsPeak(usage, peak)
    ensures IsPeak(usage + [x], if x > peak then x else peak)
  {
    assert x == (usage + [x])[|usage|];
    var i :| 0 <= i < |usage| && usage[i] == peak;
    assert (usage + [x])[i] == peak;
  }

  class Statistics {
    var totalAllocated: nat
    var peakAllocated: nat
    var currentAllocated: nat
    var allocationCount: nat
    var freeCount: nat
    var failedAllocations: nat
    // The sizes of the live blocks, and the bytes they held at the start and after every update.
    ghost var live: seq<nat>
    ghost var usage: seq<int>

    ghost predicate Valid()
      reads this
    {
      && currentAllocated == Total(live, Same)
      && |usage| > 0 && usage[|usage| - 1] == currentAllocated && IsPeak(usage, peakAllocated)
      && allocationCount == freeCount + |live|
    }

    constructor ()
      ensures Valid() && live == [] && usage == [0]
      ensures peakAllocated == currentAllocated == totalAllocated == 0
      ensures allocationCount == freeCount == failedAllocations == 0
    {
      totalAllocated, peakAllocated, currentAllocated := 0, 0, 0;
      allocationCount, freeCount, failedAllocations := 0, 0, 0;
      live, usage := [], [0];
    }

    method UpdateAllocation(size: nat)
      requires Valid()
      modifies this
      ensures Valid() && live == old(live) + [size]
      ensures usage == old(usage) + [Total(live, Same)]
      ensures totalAllocated == old(totalAllocated) + size && allocationCount == old(allocationCount) + 1
      ensures freeCount == old(freeCount) && failedAllocations == old(failedAllocations)
      ensures peakAllocated == if currentAllocated > old(peakAllocated) then currentAllocated else old(peakAllocated)
    {
      TotalAppend(live, size, Same);
      PeakGrows(usage, peakAllocated, currentAllocated + size);
      live := live + [size];
      totalAllocated := totalAllocated + size;
      currentAllocated := currentAllocated + size;
      usage := usage + [currentAllocated];
      allocationCount := allocationCount + 1;
      if currentAllocated > peakAllocated {
        peakAllocated := currentAllocated;
      }
    }

    // Freeing more than is in use would wrap around; freeing a live block with its own size never does.
    method UpdateFree(size: nat, ghost index: nat)
      requires Valid() && index < |live| && live[index] == size
      modifies this
      ensures Valid() && live == Without(old(live), index)
      ensures usage == old(usage) + [Total(live, Same)]
      ensures totalAllocated == old(totalAllocated) && allocationCount == old(allocationCount)
      ensures freeCount == old(freeCount) + 1 && failedAllocations == old(failedAllocations)
      ensures peakAllocated == old(peakAllocated)
    {
      TotalWithout(live, index);
      TotalNotNegative(Without(live, index));
      live := Without(live, index);
      currentAllocated := Minus(currentAllocated, size);
      PeakGrows(usage, peakAllocated, currentAllocated);
      usage := usage + [currentAllocated];
      freeCount := freeCount + 1;
    }
  }

  // The sizes whose allocation succeeded.
  function Succeeded(sizes: seq<nat>, fails: seq<bool>): seq<nat>
    requires |fails| == |sizes|
  {
    if |sizes| == 0 then []
    else
      var k := |sizes| - 1;
      Succeeded(sizes[..k], fails[..k]) + if fails[k] then [] else [sizes[k]]
  }

  lemma SucceededStep(sizes: seq<nat>, fails: seq<bool>, i: nat)
    requires |fails| == |sizes| && i < |sizes|
    ensures var before, after := Succeeded(sizes[..i], fails[..i]), Succeeded(sizes[..i + 1], fails[..i + 1]);
            if fails[i] then after == before
            else after == before + [sizes[i]] && Total(after, Same) == Total(before, Same) + sizes[i]
  {
    assert sizes[..i + 1][..i] == sizes[..i] && fails[..i + 1][..i] == fails[..i];
    TotalAppend(Succeeded(sizes[..i], fails[..i]), sizes[i], Same);
  }

  function Failure(fail: bool): int {
    if fail then 1 else 0
  }

  lemma {:induction false} SucceededAre(sizes: seq<nat>, fails: seq<bool>)
    requires |fails| == |sizes|
    ensures |Succeeded(sizes, fails)| + Total(fails, Failure) == |sizes|
    ensures forall k :: 0 <= k < |sizes| && !fails[k] ==> sizes[k] in Succeeded(sizes, fails)
  {
    if |sizes| > 0 {
      var n := |sizes| - 1;
      SucceededAre(sizes[..n], fails[..n]);
      assert fails == fails[..n] + [fails[n]];
      TotalAppend(fails[..n], fails[n], Failure);
      assert forall k :: 0 <= k < n ==> sizes[..n][k] == sizes[k] && fails[..n][k] == fails[k];
    }
  }

  // The largest of the sizes, or 0 if there are none.
  predicate IsLargest(sizes: seq<nat>, m: nat) {
    (m in sizes || m == 0) && forall s :: s in sizes ==> s <= m
  }

  method OneBlock(stats: Statistics, size: nat)
    requires stats.Valid() && stats.live == []
    modifies stats
    ensures stats.Valid() && stats.live == [] && stats.failedAllocations == old(stats.failedAllocations)
    ensures stats.totalAllocated == old(stats.totalAllocated) + size
    ensures stats.allocationCount == old(stats.allocationCount) + 1 && stats.freeCount == old(stats.freeCount) + 1
    ensures stats.peakAllocated == if size > old(stats.peakAllocated) then size else old(stats.peakAllocated)
  {
    stats.UpdateAllocation(size);
    stats.UpdateFree(size, 0);
  }

  // One thread of scalability_test: each block is freed before the next is allocated, and `fails` tells which
  // allocations throw.
  method ThreadWork(stats: Statistics, sizes: seq<nat>, fails: seq<bool>)
    requires stats.Valid() && stats.live == [] && stats.usage == [0] && |fails| == |sizes|
    requires stats.totalAllocated == stats.allocationCount == stats.freeCount == stats.failedAllocations == 0
    modifies stats
    ensures stats.Valid() && stats.live == [] && stats.currentAllocated == 0
    ensures stats.allocationCount == stats.freeCount == |Succeeded(sizes, fails)|
    ensures stats.allocationCount + stats.failedAllocations == |sizes|
    ensures stats.totalAllocated == Total(Succeeded(sizes, fails), Same)
    ensures IsLargest(Succeeded(sizes, fails), stats.peakAllocated)
    ensures stats.failedAllocations == Total(fails, Failure)
    ensures forall k :: 0 <= k < |sizes| && !fails[k] ==> sizes[k] <= stats.peakAllocated
  {
    assert stats.peakAllocated == 0;
    var i := 0;
    while i < |sizes|
      invariant 0 <= i <= |sizes|
      invariant stats.Valid() && stats.live == []
      invariant stats.allocationCount == stats.freeCount == |Succeeded(sizes[..i], fails[..i])|
      invariant stats.allocationCount + stats.failedAllocations == i
      invariant stats.totalAllocated == Total(Succeeded(sizes[..i], fails[..i]), Same)
      invariant IsLargest(Succeeded(sizes[..i], fails[..i]), stats.peakAllocated)
    {
      SucceededStep(sizes, fails, i);
      if fails[i] {
        stats.failedAllocations := stats.failedAllocations + 1;
      } else {
        OneBlock(stats, sizes[i]);
      }
      i := i + 1;
    }
    assert sizes[..i] == sizes && fails[..i] == fails;
    SucceededAre(sizes, fails);
  }
}
