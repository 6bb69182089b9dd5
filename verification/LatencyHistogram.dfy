// The latency statistics of the C network benchmark: an expanding histogram and a one-pass percentile scan.
module LatencyHistogram {
  import opened ExtendedReals
  import opened Folding
  import opened Moments
  import opened Quantiles

  const HISTOGRAM_BUCKETS: nat := 50

  function Percentiles(): seq<real> {
    [50.0, 90.0, 95.0, 99.0, 99.9]
  }

  // The bucket of a latency, kept inside the table at both ends.
  function BucketOf(latency: real, histogramMax: real): (b: nat)
    requires histogramMax != 0.0
    ensures b < HISTOGRAM_BUCKETS
  {
    var bucket := (Divide(latency, histogramMax) * HISTOGRAM_BUCKETS as real).Floor;
    if bucket >= HISTOGRAM_BUCKETS then HISTOGRAM_BUCKETS - 1 else if bucket < 0 then 0 else bucket
  }

  // All samples counted in the first k buckets.
  ghost function Cumulative(histogram: seq<nat>, k: nat): int
    requires k <= |histogram|
  {
    Total(histogram[..k], Same)
  }

  lemma CumulativeStep(histogram: seq<nat>, k: nat)
    requires k < |histogram|
    ensures Cumulative(histogram, k + 1) == Cumulative(histogram, k) + histogram[k]
  {
    TotalAppend(histogram[..k], histogram[k], Same);
    assert histogram[..k + 1] == histogram[..k] + [histogram[k]];
  }

  // The scale follows the largest latency within a factor of two.
  predicate Tracks(count: nat, max: real, histogramMax: real) {
    if count == 0 then max == histogramMax == 0.0 else 0.0 < max <= histogramMax <= 2.0 * max
  }

  // The first sample sets the scale to twice itself; a larger one than the scale to one and a half times itself.
  function NextScale(histogramMax: real, latency: real): real {
    var scale := if histogramMax == 0.0 then latency * 2.0 else histogramMax;
    if latency > scale then latency * 1.5 else scale
  }

  lemma ScaleTracks(count: nat, max: real, histogramMax: real, latency: real)
    requires Tracks(count, max, histogramMax) && latency >= 0.0 && (latency > 0.0 || count > 0)
    ensures Tracks(count + 1, if latency > max then latency else max, NextScale(histogramMax, latency))
  {
  }

  ghost predicate Summarizes(samples: seq<real>, count: nat, total: real, min: Extended, max: real) {
    && count == |samples| && total == Sum(samples)
    && IsMinimum(multiset(samples), min) && IsMaximum(multiset(samples), max)
  }

  lemma SummaryGrows(samples: seq<real>, count: nat, total: real, min: Extended, max: real, x: real)
    requires Summarizes(samples, count, total, min, max)
    ensures Summarizes(samples + [x], count + 1, total + x,
                       if Below(x, min) then Finite(x) else min, if x > max then x else max)
  {
    MinimumGrows(multiset(samples), min, x);
    MaximumGrows(multiset(samples), max, x);
    assert multiset(samples + [x]) == multiset(samples) + multiset{x};
    assert (samples + [x])[..|samples|] == samples;
  }

  /* ----- the histogram as a function of the samples ----- */

  // The samples the statistics can take: a first latency of 0 would make the scale 0 and the bucket 0 / 0.
  predicate Recordable(samples: seq<real>) {
    NonNegative(samples) && (|samples| > 0 ==> samples[0] > 0.0)
  }

  function ScaleAfter(samples: seq<real>): real {
    if |samples| == 0 then 0.0
    else NextScale(ScaleAfter(samples[..|samples| - 1]), samples[|samples| - 1])
  }

  // No sample is more than twice the first.
  predicate Steady(samples: seq<real>) {
    forall k :: 0 <= k < |samples| ==> samples[k] <= 2.0 * samples[0]
  }

  // The scale covers all samples; it stays what the first sample made it exactly while none goes beyond it.
  lemma {:induction false} ScaleFits(samples: seq<real>)
    requires Recordable(samples) && |samples| > 0
    ensures ScaleAfter(samples) >= 2.0 * samples[0] > 0.0
    ensures forall k :: 0 <= k < |samples| ==> samples[k] <= ScaleAfter(samples)
    ensures ScaleAfter(samples) == 2.0 * samples[0] <==> Steady(samples)
  {
    var n := |samples| - 1;
    var before := samples[..n];
    if n > 0 {
      ScaleFits(before);
      assert forall k :: 0 <= k < n ==> before[k] == samples[k];
    } else {
      assert ScaleAfter(before) == 0.0;
    }
  }

  // A later sample beyond the scale makes it one and a half times that sample, and any other leaves it alone.
  lemma {:induction false} ScaleFollows(samples: seq<real>, x: real)
    requires Recordable(samples) && |samples| > 0 && x >= 0.0
    ensures x > ScaleAfter(samples) ==> 2.0 * ScaleAfter(samples + [x]) == 3.0 * x
    ensures x <= ScaleAfter(samples) ==> ScaleAfter(samples + [x]) == ScaleAfter(samples)
  {
    ScaleFits(samples);
    assert (samples + [x])[..|samples|] == samples;
  }

  lemma {:induction false} ScaleGrows(samples: seq<real>, k: nat)
    requires Recordable(samples) && 0 < k <= |samples|
    ensures ScaleAfter(samples[..k]) <= ScaleAfter(samples)
  {
    var n := |samples| - 1;
    if k <= n {
      ScaleGrows(samples[..n], k);
      assert samples[..n][..k] == samples[..k];
      ScaleFits(samples[..n]);
    } else {
      assert samples[..k] == samples;
    }
  }

  // The bucket of each sample when it was recorded.
  function Placed(samples: seq<real>): (bs: seq<nat>)
    requires Recordable(samples)
    ensures |bs| == |samples| && forall k :: 0 <= k < |bs| ==> bs[k] < HISTOGRAM_BUCKETS
  {
    if |samples| == 0 then [] else
    ScaleFits(samples);
    Placed(samples[..|samples| - 1]) + [BucketOf(samples[|samples| - 1], ScaleAfter(samples))]
  }

  // The bucket of each sample on one and the same scale.
  function Rebucketed(samples: seq<real>, scale: real): (bs: seq<nat>)
    requires scale != 0.0
    ensures |bs| == |samples| && forall k :: 0 <= k < |bs| ==> bs[k] < HISTOGRAM_BUCKETS
  {
    seq(|samples|, k requires 0 <= k < |samples| => BucketOf(samples[k], scale))
  }

  function Tally(bs: seq<nat>): (histogram: seq<nat>)
    requires forall k :: 0 <= k < |bs| ==> bs[k] < HISTOGRAM_BUCKETS
    ensures |histogram| == HISTOGRAM_BUCKETS
  {
    if |bs| == 0 then seq(HISTOGRAM_BUCKETS, _ => 0)
    else
      var before, b := Tally(bs[..|bs| - 1]), bs[|bs| - 1];
      before[b := before[b] + 1]
  }

  lemma {:induction false} PlacedAt(samples: seq<real>, k: nat)
    requires Recordable(samples) && k < |samples|
    ensures ScaleAfter(samples[..k + 1]) > 0.0
    ensures Placed(samples)[k] == BucketOf(samples[k], ScaleAfter(samples[..k + 1]))
  {
    var n := |samples| - 1;
    ScaleFits(samples[..k + 1]);
    if k < n {
      PlacedAt(samples[..n], k);
      assert samples[..n][..k + 1] == samples[..k + 1];
    } else {
      assert samples[..k + 1] == samples;
    }
  }

  function Counted(histogram: seq<nat>, latency: real, scale: real): seq<nat>
    requires |histogram| == HISTOGRAM_BUCKETS && scale != 0.0
  {
    var b := BucketOf(latency, scale);
    histogram[b := histogram[b] + 1]
  }

  lemma {:induction false} RecordOne(samples: seq<real>, x: real)
    requires Recordable(samples) && Recordable(samples + [x])
    ensures ScaleAfter(samples + [x]) == NextScale(ScaleAfter(samples), x) > 0.0
    ensures Tally(Placed(samples + [x])) == Counted(Tally(Placed(samples)), x, ScaleAfter(samples + [x]))
  {
    var longer := samples + [x];
    assert longer[..|samples|] == samples;
    ScaleFits(longer);
    var b := BucketOf(x, ScaleAfter(longer));
    assert Placed(longer) == Placed(samples) + [b];
    assert Placed(longer)[..|samples|] == Placed(samples);
  }

  function Under(k: nat): nat -> int {
    (b: nat) => if b < k then 1 else 0
  }

  // The first k buckets of a tally hold what was counted below k.
  lemma {:induction false} CumulativeTally(bs: seq<nat>, k: nat)
    requires k <= HISTOGRAM_BUCKETS && forall j :: 0 <= j < |bs| ==> bs[j] < HISTOGRAM_BUCKETS
    ensures Cumulative(Tally(bs), k) == Total(bs, Under(k))
  {
    if |bs| == 0 {
      var zero := (n: nat) => 0;
      FoldAgree(INTEGERS, Tally(bs)[..k], Tally(bs)[..k], Same, zero);
      CountBounds(Tally(bs)[..k], zero);
    } else {
      var rest, b := bs[..|bs| - 1], bs[|bs| - 1];
      var before := Tally(rest);
      CumulativeTally(rest, k);
      assert bs == rest + [b];
      TotalAppend<nat>(rest, b, Under(k));
      if b < k {
        TotalUpdate(before[..k], b, before[b] + 1, Same);
        assert Tally(bs)[..k] == before[..k][b := before[b] + 1];
      } else {
        assert Tally(bs)[..k] == before[..k];
      }
    }
  }

  // No sample is lost.
  lemma TallyTotal(bs: seq<nat>)
    requires forall j :: 0 <= j < |bs| ==> bs[j] < HISTOGRAM_BUCKETS
    ensures Total(Tally(bs), Same) == |bs|
  {
    CumulativeTally(bs, HISTOGRAM_BUCKETS);
    CountBounds(bs, Under(HISTOGRAM_BUCKETS));
    assert Tally(bs)[..HISTOGRAM_BUCKETS] == Tally(bs);
  }

  /* ----- when the histogram is that of the samples on its present scale ----- */

  // b and the quotient of latency and scale agree to one bucket.
  predicate InBucket(latency: real, scale: real, b: nat) {
    b as real * scale <= 50.0 * latency <= (b as real + 1.0) * scale
  }

  lemma BucketHolds(latency: real, scale: real)
    requires 0.0 <= latency <= scale && scale > 0.0
    ensures InBucket(latency, scale, BucketOf(latency, scale))
    ensures BelowNext(latency, scale, BucketOf(latency, scale)) || BucketOf(latency, scale) == HISTOGRAM_BUCKETS - 1
  {
    var r := Divide(latency, scale);
    QuotientWithin(latency, scale, r);
    Bounded(BucketOf(latency, scale), r, latency, scale);
  }

  // The bucket does not contain its upper end.
  predicate BelowNext(latency: real, scale: real, b: nat) {
    50.0 * latency < (b as real + 1.0) * scale
  }

  lemma QuotientWithin(a: real, b: real, r: real)
    requires 0.0 <= a <= b && b > 0.0 && b * r == a
    ensures 0.0 <= r <= 1.0
  {
    assert r < 0.0 ==> b * (-r) > 0.0;
    assert r > 1.0 ==> b * (r - 1.0) > 0.0;
  }

  lemma Bounded(b: nat, r: real, latency: real, scale: real)
    requires b as real <= r * 50.0 <= b as real + 1.0 && scale > 0.0 && scale * r == latency
    ensures InBucket(latency, scale, b)
    ensures r * 50.0 < b as real + 1.0 ==> BelowNext(latency, scale, b)
  {
    ProductSign(scale, r * 50.0 - b as real);
    ProductSign(scale, b as real + 1.0 - r * 50.0);
    assert scale * (r * 50.0) == 50.0 * latency;
  }

  // A larger latency is in no lower bucket, and a larger scale puts it in no higher one.
  lemma BucketOrder(x: real, y: real, scale: real)
    requires x <= y && scale > 0.0
    ensures BucketOf(x, scale) <= BucketOf(y, scale)
  {
    LargerShare(x, y, scale, Divide(x, scale), Divide(y, scale));
  }

  lemma BucketOnLargerScale(x: real, scale: real, larger: real)
    requires 0.0 <= x <= scale <= larger && scale > 0.0
    ensures BucketOf(x, larger) <= BucketOf(x, scale)
  {
    SmallerQuotient(x, scale, larger, Divide(x, scale), Divide(x, larger));
  }

  lemma SmallerQuotient(x: real, scale: real, larger: real, r: real, r': real)
    requires 0.0 <= x && 0.0 < scale <= larger && scale * r == x && larger * r' == x
    ensures r' <= r
  {
    assert r < 0.0 ==> scale * (-r) > 0.0;
    assert (larger - scale) * r >= 0.0;
    assert larger * (r - r') >= 0.0;
    assert r < r' ==> larger * (r' - r) > 0.0;
  }

  // The first sample is recorded in the middle, and moves down when the scale has grown.
  lemma FirstBucket(x: real, scale: real)
    requires x > 0.0 && scale >= 2.0 * x
    ensures BucketOf(x, scale) < 25 <==> scale > 2.0 * x
    ensures scale == 2.0 * x ==> BucketOf(x, scale) == 25
  {
    var r := Divide(x, scale);
    HalfQuotient(x, scale, r);
  }

  lemma HalfQuotient(x: real, scale: real, r: real)
    requires x > 0.0 && scale >= 2.0 * x && scale * r == x
    ensures r <= 0.5 && (r == 0.5 <==> scale == 2.0 * x)
  {
    assert r > 0.5 ==> scale * (r - 0.5) > 0.0;
    assert scale * (0.5 - r) == scale * 0.5 - x;
    if r < 0.5 {
      assert scale * (0.5 - r) > 0.0;
    }
  }

  lemma ScaleUpTo(samples: seq<real>, k: nat)
    requires Recordable(samples) && k < |samples|
    ensures 0.0 <= samples[k] <= ScaleAfter(samples[..k + 1]) <= ScaleAfter(samples)
    ensures ScaleAfter(samples[..k + 1]) > 0.0
    ensures Steady(samples) ==> ScaleAfter(samples[..k + 1]) == ScaleAfter(samples)
  {
    var upTo := samples[..k + 1];
    ScaleFits(samples);
    ScaleFits(upTo);
    ScaleGrows(samples, k + 1);
    assert upTo[k] == samples[k] && upTo[0] == samples[0];
    assert Steady(samples) ==> Steady(upTo);
  }

  lemma PlacedNotBelow(samples: seq<real>, k: nat)
    requires Recordable(samples) && k < |samples|
    ensures ScaleAfter(samples) > 0.0 && BucketOf(samples[k], ScaleAfter(samples)) <= Placed(samples)[k]
    ensures Steady(samples) ==> BucketOf(samples[k], ScaleAfter(samples)) == Placed(samples)[k]
  {
    ScaleUpTo(samples, k);
    PlacedAt(samples, k);
    BucketOnLargerScale(samples[k], ScaleAfter(samples[..k + 1]), ScaleAfter(samples));
  }

  // The buckets count the samples on the present scale exactly as long as the first scale is in use: samples
  // recorded before a change are never moved, and the first of them would have to be.
  lemma ExactIff(samples: seq<real>)
    requires Recordable(samples) && |samples| > 0
    ensures ScaleAfter(samples) > 0.0
    ensures Tally(Placed(samples)) == Tally(Rebucketed(samples, ScaleAfter(samples))) <==> Steady(samples)
  {
    ScaleFits(samples);
    var placed, now := Placed(samples), Rebucketed(samples, ScaleAfter(samples));
    forall k | 0 <= k < |samples| ensures now[k] <= placed[k] && (Steady(samples) ==> now[k] == placed[k]) {
      PlacedNotBelow(samples, k);
    }
    if Steady(samples) {
      assert placed == now;
    } else {
      PlacedAt(samples, 0);
      assert samples[..1] == [samples[0]] && samples[..1][..0] == [];
      FirstBucket(samples[0], ScaleAfter(samples[..1]));
      FirstBucket(samples[0], ScaleAfter(samples));
      TotalRises(placed, now, 0, Under(25), Under(25));
      CumulativeTally(placed, 25);
      CumulativeTally(now, 25);
    }
  }

  // The histogram and its scale are those of the samples, and no sample is lost.
  ghost predicate Charted(samples: seq<real>, histogram: seq<nat>, scale: real) {
    && Recordable(samples) && scale == ScaleAfter(samples)
    && histogram == Tally(Placed(samples)) && Total(histogram, Same) == |samples|
  }

  lemma NothingCharted(histogram: seq<nat>)
    requires histogram == seq(HISTOGRAM_BUCKETS, _ => 0)
    ensures Charted([], histogram, 0.0)
  {
    FoldAgree(INTEGERS, histogram, histogram, Same, (n: nat) => 0);
    CountBounds(histogram, (n: nat) => 0);
  }

  lemma {:induction false} ChartOne(samples: seq<real>, histogram: seq<nat>, scale: real, x: real)
    requires Charted(samples, histogram, scale) && x >= 0.0 && (x > 0.0 || |samples| > 0)
    ensures NextScale(scale, x) > 0.0 && |histogram| == HISTOGRAM_BUCKETS
    ensures Charted(samples + [x], Counted(histogram, x, NextScale(scale, x)), NextScale(scale, x))
  {
    RecordOne(samples, x);
    assert histogram == Tally(Placed(samples)) && ScaleAfter(samples + [x]) == NextScale(scale, x);
    TallyTotal(Placed(samples + [x]));
  }

  // All statistics are those of the samples, and the scale fits.
  ghost predicate Accurate(
    samples: seq<real>, count: nat, total: real, min: Extended, max: real, histogram: seq<nat>, scale: real)
  {
    && Summarizes(samples, count, total, min, max)
    && Tracks(count, max, scale)
    && Charted(samples, histogram, scale)
  }

  lemma StaysAccurate(
    samples: seq<real>, count: nat, total: real, min: Extended, max: real, histogram: seq<nat>, scale: real, x: real)
    requires Accurate(samples, count, total, min, max, histogram, scale) && x >= 0.0 && (x > 0.0 || count > 0)
    ensures NextScale(scale, x) > 0.0 && |histogram| == HISTOGRAM_BUCKETS
    ensures Accurate(samples + [x], count + 1, total + x, if Below(x, min) then Finite(x) else min,
                     if x > max then x else max, Counted(histogram, x, NextScale(scale, x)), NextScale(scale, x))
  {
    SummaryGrows(samples, count, total, min, max, x);
    ScaleTracks(count, max, scale, x);
    ChartOne(samples, histogram, scale, x);
  }

  class NetworkStats {
    var totalLatency: real
    var latencyCount: nat
    var minLatency: Extended
    var maxLatency: real
    const histogram: array<nat>
    var histogramMax: real
    ghost var samples: seq<real>

    ghost predicate Valid()
      reads this, histogram
    {
      && histogram.Length == HISTOGRAM_BUCKETS
      && Accurate(samples, latencyCount, totalLatency, minLatency, maxLatency, histogram[..], histogramMax)
    }

    constructor ()
      ensures Valid() && fresh(histogram) && samples == []
    {
      totalLatency, latencyCount, minLatency, maxLatency, histogramMax := 0.0, 0, Infinity, 0.0, 0.0;
      histogram := new nat[HISTOGRAM_BUCKETS](_ => 0);
      samples := [];
      new;
      NothingCharted(histogram[..]);
    }

    method AddLatencySample(latency: real)
      requires Valid() && latency >= 0.0 && (latency > 0.0 || latencyCount > 0)
      modifies this, histogram
      ensures Valid() && samples == old(samples) + [latency]
      ensures histogramMax == NextScale(old(histogramMax), latency) > 0.0
      ensures old(latencyCount) == 0 ==> histogramMax == 2.0 * latency
      ensures old(latencyCount) > 0 && latency > old(histogramMax) ==> 2.0 * histogramMax == 3.0 * latency
      ensures old(latencyCount) > 0 && latency <= old(histogramMax) ==> histogramMax == old(histogramMax)
      ensures histogram[..] == Counted(old(histogram[..]), latency, histogramMax)
    {
      StaysAccurate(
        samples, latencyCount, totalLatency, minLatency, maxLatency, histogram[..], histogramMax, latency);
      samples := samples + [latency];
      UpdateSummary(latency);
      UpdateHistogram(latency);
    }

    // The two halves of add_latency_sample.
    method UpdateSummary(latency: real)
      modifies this`totalLatency, this`latencyCount, this`minLatency, this`maxLatency
      ensures totalLatency == old(totalLatency) + latency && latencyCount == old(latencyCount) + 1
      ensures minLatency == if Below(latency, old(minLatency)) then Finite(latency) else old(minLatency)
      ensures maxLatency == if latency > old(maxLatency) then latency else old(maxLatency)
    {
      totalLatency := totalLatency + latency;
      latencyCount := latencyCount + 1;
      if Below(latency, minLatency) { minLatency := Finite(latency); }
      if latency > maxLatency { maxLatency := latency; }
    }

    method UpdateHistogram(latency: real)
      requires histogram.Length == HISTOGRAM_BUCKETS && NextScale(histogramMax, latency) != 0.0
      modifies this`histogramMax, histogram
      ensures histogramMax == NextScale(old(histogramMax), latency)
      ensures histogram[..] == Counted(old(histogram[..]), latency, histogramMax)
    {
      if histogramMax == 0.0 { histogramMax := latency * 2.0; }
      if latency > histogramMax { histogramMax := latency * 1.5; }
      var bucket := BucketOf(latency, histogramMax);
      histogram[bucket] := histogram[bucket] + 1;
    }

    method CountAll() returns (total: nat)
      requires Valid()
      ensures total == latencyCount
    {
      total := 0;
      var i := 0;
      while i < HISTOGRAM_BUCKETS
        invariant 0 <= i <= HISTOGRAM_BUCKETS && total == Cumulative(histogram[..], i)
      {
        CumulativeStep(histogram[..], i);
        total := total + histogram[i];
        i := i + 1;
      }
      assert histogram[..][..i] == histogram[..];
    }

    // The percentile lines of print_statistics: the buckets reported, and the latencies printed for them.
    method LatencyPercentiles() returns (buckets: seq<nat>, latencies: seq<real>)
      requires Valid()
      ensures latencyCount <= 10 ==> buckets == [] && latencies == []
      ensures latencyCount > 10 ==>
                |buckets| == 5 && Reported(Shares(histogram[..], latencyCount), histogramMax, buckets, latencies)
      ensures latencyCount > 10 ==>
                var shares := Shares(histogram[..], latencyCount);
                && FirstReaching(shares, 50.0, buckets[0]) && FirstReaching(shares, 90.0, buckets[1])
                && FirstReaching(shares, 95.0, buckets[2]) && FirstReaching(shares, 99.0, buckets[3])
                && FirstReaching(shares, 99.9, buckets[4])
      ensures Steady(samples) ==>
                forall p :: 0 <= p < |latencies| ==> NearRank(samples, Percentiles()[p], latencies[p], histogramMax)
    {
      buckets, latencies := [], [];
      if latencyCount > 10 {
        var total := CountAll();
        ghost var shares := Shares(histogram[..], total);
        LastShare(histogram[..], total);
        var cumulative := 0;
        var i := 0;
        while i < HISTOGRAM_BUCKETS && |buckets| < 5
          invariant 0 <= i <= HISTOGRAM_BUCKETS && cumulative == Cumulative(histogram[..], i)
          invariant Reported(shares, histogramMax, buckets, latencies)
          invariant i > 0 && |buckets| < 5 ==> shares[i - 1] < Percentiles()[|buckets|]
        {
          CumulativeStep(histogram[..], i);
          cumulative := cumulative + histogram[i];
          var percent := Divide(cumulative as real * 100.0, total as real);
          assert percent == shares[i] by {
            assert shares[i] == Shares(histogram[..], total)[i];
          }
          while |buckets| < 5 && percent >= Percentiles()[|buckets|]
            invariant Reported(shares, histogramMax, buckets, latencies)
            invariant i > 0 && |buckets| < 5 ==> shares[i - 1] < Percentiles()[|buckets|]
            decreases 5 - |buckets|
          {
            ReportOne(shares, histogramMax, buckets, latencies, i);
            buckets := buckets + [i];
            latencies := latencies + [Midpoint(i, histogramMax)];
          }
          i := i + 1;
        }
        AllReported(shares, histogramMax, buckets, latencies);
        if Steady(samples) {
          AllNearRank(samples, histogram[..], histogramMax, buckets, latencies);
        }
      }
    }
  }

  function Midpoint(bucket: nat, histogramMax: real): real {
    Divide((bucket as real + 0.5) * histogramMax, HISTOGRAM_BUCKETS as real)
  }

  // The share of the samples, in percent, that lies in buckets 0..i.
  ghost function Shares(histogram: seq<nat>, total: nat): seq<real>
    requires total > 0
  {
    seq(|histogram|, i requires 0 <= i < |histogram| =>
          Divide(Cumulative(histogram, i + 1) as real * 100.0, total as real))
  }

  predicate FirstReaching(shares: seq<real>, percentile: real, i: nat) {
    && i < |shares|
    && percentile <= shares[i]
    && (i > 0 ==> shares[i - 1] < percentile)
  }

  // One bucket for each of the lowest percentiles, and the latency printed for it.
  ghost predicate Reported(shares: seq<real>, histogramMax: real, buckets: seq<nat>, latencies: seq<real>) {
    && |buckets| == |latencies| <= 5
    && (forall p :: 0 <= p < |buckets| ==> FirstReaching(shares, Percentiles()[p], buckets[p]))
    && (forall p :: 0 <= p < |buckets| ==> latencies[p] == Midpoint(buckets[p], histogramMax))
  }

  lemma ReportOne(shares: seq<real>, histogramMax: real, buckets: seq<nat>, latencies: seq<real>, i: nat)
    requires Reported(shares, histogramMax, buckets, latencies) && |buckets| < 5
    requires FirstReaching(shares, Percentiles()[|buckets|], i)
    ensures Reported(shares, histogramMax, buckets + [i], latencies + [Midpoint(i, histogramMax)])
  {
  }

  lemma AllReported(shares: seq<real>, histogramMax: real, buckets: seq<nat>, latencies: seq<real>)
    requires Reported(shares, histogramMax, buckets, latencies) && |buckets| == 5
    ensures FirstReaching(shares, 50.0, buckets[0]) && FirstReaching(shares, 90.0, buckets[1])
    ensures FirstReaching(shares, 95.0, buckets[2]) && FirstReaching(shares, 99.0, buckets[3])
    ensures FirstReaching(shares, 99.9, buckets[4])
  {
    assert FirstReaching(shares, Percentiles()[0], buckets[0]) && FirstReaching(shares, Percentiles()[1], buckets[1]);
    assert FirstReaching(shares, Percentiles()[2], buckets[2]) && FirstReaching(shares, Percentiles()[3], buckets[3]);
    assert FirstReaching(shares, Percentiles()[4], buckets[4]);
  }

  // The last bucket brings the share to 100 percent, so no percentile is left unreported.
  lemma LastShare(histogram: seq<nat>, total: nat)
    requires |histogram| == HISTOGRAM_BUCKETS && total > 0 && Total(histogram, Same) == total
    ensures Shares(histogram, total)[HISTOGRAM_BUCKETS - 1] == 100.0
  {
    assert histogram[..HISTOGRAM_BUCKETS] == histogram;
    Whole(total as real, Divide(total as real * 100.0, total as real));
  }

  lemma Whole(t: real, q: real)
    requires t > 0.0 && t * q == t * 100.0
    ensures q == 100.0
  {
    assert t * (q - 100.0) == 0.0;
  }

  lemma LargerShare(a: real, b: real, t: real, qa: real, qb: real)
    requires a <= b && t > 0.0 && t * qa == a && t * qb == b
    ensures qa <= qb
  {
    assert qb < qa ==> t * (qa - qb) > 0.0;
  }

  lemma {:induction false} SharesGrow(histogram: seq<nat>, total: nat, i: nat, j: nat)
    requires total > 0 && i <= j < |histogram|
    ensures Shares(histogram, total)[i] <= Shares(histogram, total)[j]
  {
    if i < j {
      SharesGrow(histogram, total, i, j - 1);
      CumulativeStep(histogram, j);
      LargerShare(Cumulative(histogram, j) as real * 100.0, Cumulative(histogram, j + 1) as real * 100.0, total as real,
                  Shares(histogram, total)[j - 1], Shares(histogram, total)[j]);
    }
  }

  // The bucket reported for a percentile is the smallest that reaches it, and higher percentiles are never
  // reported in lower buckets.
  lemma ReportedInOrder(histogram: seq<nat>, total: nat, p: real, i: nat, p': real, i': nat)
    requires total > 0 && p <= p'
    requires FirstReaching(Shares(histogram, total), p, i) && FirstReaching(Shares(histogram, total), p', i')
    ensures forall k :: 0 <= k < |histogram| ==> (k < i <==> Shares(histogram, total)[k] < p)
    ensures i <= i'
  {
    forall k | 0 <= k < |histogram| ensures k < i <==> Shares(histogram, total)[k] < p {
      if k < i {
        SharesGrow(histogram, total, k, i - 1);
      } else {
        SharesGrow(histogram, total, i, k);
      }
    }
  }

  /* ----- what a reported latency says about the samples ----- */

  // The rank of a percentile among n samples.
  function RankOf(percentile: real, n: nat): real {
    percentile * n as real / 100.0
  }

  lemma SharesAreRanks(histogram: seq<nat>, total: nat, percentile: real, i: nat)
    requires total > 0 && FirstReaching(Shares(histogram, total), percentile, i)
    ensures i < |histogram| && (i > 0 ==> Cumulative(histogram, i) as real < RankOf(percentile, total))
    ensures RankOf(percentile, total) <= Cumulative(histogram, i + 1) as real
  {
    var t := total as real;
    ShareReaches(Cumulative(histogram, i + 1) as real, t, percentile, Shares(histogram, total)[i]);
    if i > 0 {
      ShareReaches(Cumulative(histogram, i) as real, t, percentile, Shares(histogram, total)[i - 1]);
    }
  }

  lemma ShareReaches(c: real, t: real, p: real, share: real)
    requires t > 0.0 && t * share == c * 100.0
    ensures p <= share <==> p * t <= c * 100.0
  {
    assert p <= share ==> t * (share - p) >= 0.0;
    assert share < p ==> t * (p - share) > 0.0;
  }

  predicate Within(latency: real, x: real, distance: real) {
    -distance <= latency - x <= distance
  }

  // Some sample at the rank of the percentile is no further than half a bucket from the latency.
  ghost predicate NearRank(samples: seq<real>, percentile: real, latency: real, scale: real) {
    NearSample(samples, RankOf(percentile, |samples|), latency, scale)
  }

  lemma MidpointNear(x: real, scale: real, b: nat)
    requires InBucket(x, scale, b)
    ensures Within(Midpoint(b, scale), x, scale / 100.0)
  {
    assert (b as real + 0.5) * scale == b as real * scale + 0.5 * scale;
    assert (b as real + 1.0) * scale == b as real * scale + scale;
  }

  // The sample at a rank lies in the first bucket that reaches the rank.
  lemma RankInBucket(samples: seq<real>, scale: real, t: real, x: real, i: nat)
    requires scale > 0.0 && HasRank(samples, t, x)
    requires i > 0 ==> Total(Rebucketed(samples, scale), Under(i)) as real < t
    requires t <= Total(Rebucketed(samples, scale), Under(i + 1)) as real
    ensures BucketOf(x, scale) == i
  {
    var bs, b := Rebucketed(samples, scale), BucketOf(x, scale);
    forall k | 0 <= k < |samples|
      ensures b < i ==> NotAbove(x)(samples[k]) <= Under(i)(bs[k])
      ensures b > i ==> Under(i + 1)(bs[k]) <= StrictlyBelow(x)(samples[k])
    {
      if samples[k] <= x {
        BucketOrder(samples[k], x, scale);
      } else {
        BucketOrder(x, samples[k], scale);
      }
      if x <= samples[k] {
        BucketOrder(x, samples[k], scale);
      }
    }
    if b < i {
      TotalAtMost(samples, bs, NotAbove(x), Under(i));
    } else if b > i {
      TotalAtMost(bs, samples, Under(i + 1), StrictlyBelow(x));
    }
  }

  // The histogram counts the samples on the present scale.
  ghost predicate ExactChart(samples: seq<real>, histogram: seq<nat>, scale: real) {
    && scale > 0.0 && histogram == Tally(Rebucketed(samples, scale))
    && forall k :: 0 <= k < |samples| ==> 0.0 <= samples[k] <= scale
  }

  lemma SteadyIsExact(samples: seq<real>, histogram: seq<nat>, scale: real)
    requires Charted(samples, histogram, scale) && |samples| > 0 && Steady(samples)
    ensures ExactChart(samples, histogram, scale)
  {
    ScaleFits(samples);
    ExactIff(samples);
  }

  ghost predicate NearSample(samples: seq<real>, t: real, latency: real, scale: real) {
    exists x :: HasRank(samples, t, x) && Within(latency, x, scale / 100.0)
  }

  lemma RankNearMidpoint(samples: seq<real>, histogram: seq<nat>, scale: real, t: real, i: nat)
    requires ExactChart(samples, histogram, scale) && 0.0 < t <= |samples| as real && i < HISTOGRAM_BUCKETS
    requires i > 0 ==> Cumulative(histogram, i) as real < t
    requires t <= Cumulative(histogram, i + 1) as real
    ensures NearSample(samples, t, Midpoint(i, scale), scale)
  {
    CumulativeTally(Rebucketed(samples, scale), i);
    CumulativeTally(Rebucketed(samples, scale), i + 1);
    var x := RankExists(samples, t);
    RankInBucket(samples, scale, t, x, i);
    BucketHolds(x, scale);
    MidpointNear(x, scale, i);
  }

  // While the first scale is in use, the latency printed for a percentile is within half a bucket of the sample
  // at its rank.
  lemma ReportedNearRank(samples: seq<real>, histogram: seq<nat>, scale: real, percentile: real, i: nat)
    requires ExactChart(samples, histogram, scale) && |samples| > 0 && 0.0 < percentile <= 100.0
    requires FirstReaching(Shares(histogram, |samples|), percentile, i)
    ensures NearRank(samples, percentile, Midpoint(i, scale), scale)
  {
    var t := RankOf(percentile, |samples|);
    SharesAreRanks(histogram, |samples|, percentile, i);
    RankInRange(percentile, |samples|);
    RankNearMidpoint(samples, histogram, scale, t, i);
  }

  lemma RankInRange(percentile: real, n: nat)
    requires 0.0 < percentile <= 100.0 && n > 0
    ensures 0.0 < RankOf(percentile, n) <= n as real
  {
    ProductSign(percentile, n as real);
    ProductSign(100.0 - percentile, n as real);
  }

  lemma AllNearRank(samples: seq<real>, histogram: seq<nat>, scale: real, buckets: seq<nat>, latencies: seq<real>)
    requires Charted(samples, histogram, scale) && Steady(samples) && |samples| > 0
    requires Reported(Shares(histogram, |samples|), scale, buckets, latencies)
    ensures forall p :: 0 <= p < |latencies| ==> NearRank(samples, Percentiles()[p], latencies[p], scale)
  {
    SteadyIsExact(samples, histogram, scale);
    forall p | 0 <= p < |latencies| ensures NearRank(samples, Percentiles()[p], latencies[p], scale) {
      ReportedNearRank(samples, histogram, scale, Percentiles()[p], buckets[p]);
    }
  }
}
