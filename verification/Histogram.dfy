/** Delay percentiles: the fixed-bucket histogram the engine keeps, against the sorted list of samples that
    the report works from. */
module Histogram {
  import opened Powers
  import opened Prelude
  import opened StableSort

  const BOUNDS: seq<U64> := [
    1_000_000, 5_000_000, 10_000_000, 50_000_000,
    100_000_000, 250_000_000, 500_000_000, 1_000_000_000]
  const BUCKETS: nat := 9

  /** The first bound that is not below `x`, from bound `i` on; the last bucket has none. */
  function BucketFrom(x: U64, i: nat): (bucket: nat)
    requires i < BUCKETS
    ensures i <= bucket < BUCKETS
    ensures forall j | i <= j < bucket :: BOUNDS[j] < x
    ensures bucket < |BOUNDS| ==> x <= BOUNDS[bucket]
    decreases BUCKETS - i
  {
    if i == |BOUNDS| || x <= BOUNDS[i] then i else BucketFrom(x, i + 1)
  }

  function Bucket(x: U64): (bucket: nat)
    ensures bucket < BUCKETS
  {
    BucketFrom(x, 0)
  }

  /** The bucket of every sample. */
  function Buckets(samples: seq<U64>): (buckets: seq<nat>)
    ensures |buckets| == |samples| && forall i | 0 <= i < |buckets| :: buckets[i] < BUCKETS
  {
    if samples == [] then []
    else Buckets(samples[..|samples| - 1]) + [Bucket(samples[|samples| - 1])]
  }

  function CountIn(buckets: seq<nat>, bucket: nat): (n: nat)
    ensures n <= |buckets|
  {
    if buckets == [] then 0
    else CountIn(buckets[..|buckets| - 1], bucket) + if buckets[|buckets| - 1] == bucket then 1 else 0
  }

  /** How many samples fall into the buckets up to `bucket`. */
  function CountUpTo(buckets: seq<nat>, bucket: int): (n: nat)
    ensures n <= |buckets|
  {
    if buckets == [] then 0
    else CountUpTo(buckets[..|buckets| - 1], bucket) + if buckets[|buckets| - 1] <= bucket then 1 else 0
  }

  // ---- the percentile of a histogram ----

  function Rank(sampleCount: U64, percentile: U64): nat {
    (Min(Times(percentile, sampleCount), U64_MAX) + 99) / 100
  }

  /** The first bucket, from `i` on, at which the running total reaches `rank`; `BUCKETS` if none does. */
  function Reaches(counts: seq<U64>, rank: nat, i: nat, total: U64): (bucket: nat)
    requires |counts| == BUCKETS && i <= BUCKETS
    ensures i <= bucket <= BUCKETS
    decreases BUCKETS - i
  {
    if i == BUCKETS then BUCKETS
    else
      var next := SaturatingAdd(total, counts[i]);
      if next >= rank then i else Reaches(counts, rank, i + 1, next)
  }

  function Bound(bucket: nat): U64 {
    BOUNDS[Min(bucket, |BOUNDS| - 1)]
  }

  function PercentileOf(counts: seq<U64>, sampleCount: U64, percentile: U64): U64
    requires |counts| == BUCKETS
  {
    if sampleCount == 0 then 0 else Bound(Reaches(counts, Rank(sampleCount, percentile), 0, 0))
  }

  method PercentileFromHistogram(counts: seq<U64>, sampleCount: U64, percentile: U64) returns (value: U64)
    requires |counts| == BUCKETS
    ensures value == PercentileOf(counts, sampleCount, percentile)
  {
    if sampleCount == 0 {
      return 0;
    }
    TimesIsProduct(percentile, sampleCount);
    var rank := (Min(sampleCount * percentile, U64_MAX) + 99) / 100;
    var cumulative: U64 := 0;
    for idx := 0 to BUCKETS
      invariant Reaches(counts, rank, 0, 0) == Reaches(counts, rank, idx, cumulative)
    {
      cumulative := SaturatingAdd(cumulative, counts[idx]);
      if cumulative >= rank {
        if idx < |BOUNDS| {
          return BOUNDS[idx];
        }
        return BOUNDS[|BOUNDS| - 1];
      }
    }
    return BOUNDS[|BOUNDS| - 1];
  }

  lemma {:induction false} ReachesLater(counts: seq<U64>, low: nat, high: nat, i: nat, total: U64)
    requires |counts| == BUCKETS && i <= BUCKETS && low <= high
    ensures Reaches(counts, low, i, total) <= Reaches(counts, high, i, total)
    decreases BUCKETS - i
  {
    if i < BUCKETS {
      ReachesLater(counts, low, high, i + 1, SaturatingAdd(total, counts[i]));
    }
  }

  lemma BoundGrows(i: nat, j: nat)
    requires i <= j
    ensures Bound(i) <= Bound(j)
  {
  }

  lemma RankGrows(sampleCount: U64, p: U64, q: U64)
    requires p <= q
    ensures Rank(sampleCount, p) <= Rank(sampleCount, q)
  {
    MoreTimesGrows(p, q, sampleCount);
  }

  /** A higher percentile is never reported lower, whatever the counters hold. */
  lemma PercentilesAreOrdered(counts: seq<U64>, sampleCount: U64, p: U64, q: U64)
    requires |counts| == BUCKETS && p <= q
    ensures PercentileOf(counts, sampleCount, p) <= PercentileOf(counts, sampleCount, q)
  {
    RankGrows(sampleCount, p, q);
    ReachesLater(counts, Rank(sampleCount, p), Rank(sampleCount, q), 0, 0);
    BoundGrows(Reaches(counts, Rank(sampleCount, p), 0, 0), Reaches(counts, Rank(sampleCount, q), 0, 0));
  }

  // ---- the sorted list of samples ----

  const NEGATED: U64 -> int := (x: U64) => -(x as int)

  /** `sorted(values)`. */
  function Ascending(samples: seq<U64>): seq<U64> {
    Sort(samples, NEGATED)
  }

  /** The value at a rank, counted from 1, of the sorted samples. */
  function AtRank(samples: seq<U64>, rank: nat): U64 {
    var sorted := Ascending(samples);
    if sorted == [] then 0 else sorted[Max(1, Min(rank, |sorted|)) - 1]
  }

  /** `_percentile`: the nearest-rank value of the samples. */
  function NearestRank(samples: seq<U64>, percentile: nat): U64 {
    AtRank(samples, NearestRankOf(|samples|, percentile))
  }

  function NearestRankOf(n: nat, percentile: nat): nat {
    (Times(percentile, n) + 99) / 100
  }

  function CountAtMost(samples: seq<U64>, b: U64): nat {
    if samples == [] then 0
    else CountAtMost(samples[..|samples| - 1], b) + if samples[|samples| - 1] <= b then 1 else 0
  }

  lemma CountSnoc(samples: seq<U64>, x: U64, b: U64)
    ensures CountAtMost(samples + [x], b) == CountAtMost(samples, b) + if x <= b then 1 else 0
  {
    assert (samples + [x])[..|samples|] == samples;
  }

  lemma {:induction false} CountOfInsert(xs: seq<U64>, x: U64, b: U64)
    ensures CountAtMost(Insert(xs, x, NEGATED), b) == CountAtMost(xs, b) + if x <= b then 1 else 0
    decreases |xs|
  {
    if xs == [] || NEGATED(xs[|xs| - 1]) >= NEGATED(x) {
      CountSnoc(xs, x, b);
    } else {
      CountOfInsert(xs[..|xs| - 1], x, b);
      CountSnoc(Insert(xs[..|xs| - 1], x, NEGATED), xs[|xs| - 1], b);
    }
  }

  lemma {:induction false} CountOfSorted(samples: seq<U64>, b: U64)
    ensures CountAtMost(Ascending(samples), b) == CountAtMost(samples, b)
    decreases |samples|
  {
    if samples != [] {
      CountOfSorted(samples[..|samples| - 1], b);
      CountOfInsert(Ascending(samples[..|samples| - 1]), samples[|samples| - 1], b);
    }
  }

  lemma {:induction false} CountWithin(s: seq<U64>, b: U64)
    ensures CountAtMost(s, b) <= |s|
    ensures (forall i | 0 <= i < |s| :: s[i] <= b) ==> CountAtMost(s, b) == |s|
    decreases |s|
  {
    if s != [] {
      CountWithin(s[..|s| - 1], b);
    }
  }

  /** In an ascending list at least `k` elements are at most `b` exactly when the `k`-th is. */
  lemma {:induction false} CountOfAscending(s: seq<U64>, b: U64, k: nat)
    requires Descending(s, NEGATED) && 1 <= k <= |s|
    ensures CountAtMost(s, b) >= k <==> s[k - 1] <= b
    decreases |s|
  {
    var n := |s| - 1;
    CountWithin(s[..n], b);
    if s[n] <= b {
      forall i | 0 <= i < |s| ensures s[i] <= b {
        assert i < n ==> NEGATED(s[i]) >= NEGATED(s[n]);
      }
      CountWithin(s, b);
    } else if k <= n {
      CountOfAscending(s[..n], b, k);
    }
  }

  // ---- the histogram refines the list ----

  lemma BucketAtMost(x: U64, bucket: nat)
    requires bucket < |BOUNDS|
    ensures Bucket(x) < bucket + 1 <==> x <= BOUNDS[bucket]
  {
    if Bucket(x) <= bucket {
      BoundGrows(Bucket(x), bucket);
    }
  }

  lemma {:induction false} CountUpToIsCountAtMost(samples: seq<U64>, bucket: nat)
    requires bucket < |BOUNDS|
    ensures CountUpTo(Buckets(samples), bucket) == CountAtMost(samples, BOUNDS[bucket])
    decreases |samples|
  {
    if samples != [] {
      var init, last := samples[..|samples| - 1], samples[|samples| - 1];
      CountUpToIsCountAtMost(init, bucket);
      BucketAtMost(last, bucket);
      assert Buckets(samples)[..|init|] == Buckets(init);
    }
  }

  lemma {:induction false} CountUpToNext(buckets: seq<nat>, bucket: nat)
    ensures CountUpTo(buckets, bucket) == CountUpTo(buckets, bucket - 1) + CountIn(buckets, bucket)
    decreases |buckets|
  {
    if buckets != [] {
      CountUpToNext(buckets[..|buckets| - 1], bucket);
    }
  }

  lemma {:induction false} CountUpToEnds(buckets: seq<nat>)
    requires forall i | 0 <= i < |buckets| :: buckets[i] < BUCKETS
    ensures CountUpTo(buckets, -1) == 0 && CountUpTo(buckets, BUCKETS - 1) == |buckets|
    decreases |buckets|
  {
    if buckets != [] {
      CountUpToEnds(buckets[..|buckets| - 1]);
    }
  }

  /** `counts` counts the buckets of the samples. */
  predicate IsHistogram(counts: seq<U64>, buckets: seq<nat>) {
    |counts| == BUCKETS && forall i | 0 <= i < BUCKETS :: counts[i] == CountIn(buckets, i)
  }

  /** The walk stops at the first bucket up to which there are at least `rank` samples. */
  lemma {:induction false} ReachesCountsSamples(counts: seq<U64>, buckets: seq<nat>, rank: nat, i: nat, total: U64)
    requires IsHistogram(counts, buckets) && |buckets| <= U64_MAX && i < BUCKETS
    requires total == CountUpTo(buckets, i - 1) && rank <= CountUpTo(buckets, BUCKETS - 1)
    ensures var bucket := Reaches(counts, rank, i, total);
      && bucket < BUCKETS && CountUpTo(buckets, bucket) >= rank
      && (forall j | i <= j < bucket :: CountUpTo(buckets, j) < rank)
    decreases BUCKETS - i
  {
    CountUpToNext(buckets, i);
    var next := SaturatingAdd(total, counts[i]);
    assert next == CountUpTo(buckets, i);
    if next < rank {
      assert i + 1 < BUCKETS;
      ReachesCountsSamples(counts, buckets, rank, i + 1, next);
    } else {
      assert Reaches(counts, rank, i, total) == i;
    }
  }

  /** The least bound that is not below `v`, or the last bound if `v` exceeds them all. */
  predicate IsLeastBound(value: U64, v: U64) {
    var last := BOUNDS[|BOUNDS| - 1];
    if v > last then value == last
    else value in BOUNDS && v <= value && forall b | b in BOUNDS && v <= b :: value <= b
  }

  /** The bounds, in milliseconds; delays above a second are reported as a second. */
  lemma BoundInMilliseconds(value: U64, v: U64)
    requires IsLeastBound(value, v)
    ensures value == 1_000_000 * (
              if v <= 1_000_000 then 1 else if v <= 5_000_000 then 5 else if v <= 10_000_000 then 10
              else if v <= 50_000_000 then 50 else if v <= 100_000_000 then 100 else if v <= 250_000_000 then 250
              else if v <= 500_000_000 then 500 else 1000)
  {
    assert BOUNDS[0] == 1_000_000 && BOUNDS[1] == 5_000_000 && BOUNDS[2] == 10_000_000 && BOUNDS[3] == 50_000_000;
    assert BOUNDS[4] == 100_000_000 && BOUNDS[5] == 250_000_000 && BOUNDS[6] == 500_000_000;
    assert BOUNDS[7] == 1_000_000_000 && |BOUNDS| == 8;
    if v <= BOUNDS[7] {
      var i :| 0 <= i < |BOUNDS| && BOUNDS[i] == value;
      forall k | 0 <= k < 8 && v <= BOUNDS[k] ensures value <= BOUNDS[k] {
        assert BOUNDS[k] in BOUNDS;
      }
      assert 0 < i ==> BOUNDS[i - 1] < v;
    }
  }

  lemma BoundOfBucket(v: U64, bucket: nat)
    requires bucket < BUCKETS
    requires bucket < |BOUNDS| ==> v <= BOUNDS[bucket]
    requires forall j | 0 <= j < bucket :: BOUNDS[j] < v
    ensures IsLeastBound(Bound(bucket), v)
  {
    if bucket == |BOUNDS| {
      assert BOUNDS[|BOUNDS| - 1] < v;
    } else {
      forall b | b in BOUNDS && v <= b ensures BOUNDS[bucket] <= b {
        var j :| 0 <= j < |BOUNDS| && BOUNDS[j] == b;
        BoundGrows(bucket, j);
      }
    }
  }

  lemma SortedShape(samples: seq<U64>)
    ensures Descending(Ascending(samples), NEGATED) && |Ascending(samples)| == |samples|
  {
    SortIsDescending(samples, NEGATED);
    assert |multiset(Ascending(samples))| == |multiset(samples)|;
  }

  /** At least `rank` samples are at most `b` exactly when the value at that rank is. */
  lemma RankWithin(samples: seq<U64>, rank: nat, b: U64)
    requires 1 <= rank <= |samples|
    ensures CountAtMost(samples, b) >= rank <==> AtRank(samples, rank) <= b
  {
    var sorted := Ascending(samples);
    SortedShape(samples);
    assert AtRank(samples, rank) == sorted[rank - 1];
    CountOfSorted(samples, b);
    CountOfAscending(sorted, b, rank);
  }

  lemma RankWithinBound(samples: seq<U64>, rank: nat, bucket: nat)
    requires 1 <= rank <= |samples| && bucket < |BOUNDS|
    ensures CountUpTo(Buckets(samples), bucket) >= rank <==> AtRank(samples, rank) <= BOUNDS[bucket]
  {
    CountUpToIsCountAtMost(samples, bucket);
    RankWithin(samples, rank, BOUNDS[bucket]);
  }

  lemma WalkFindsRank(counts: seq<U64>, samples: seq<U64>, rank: nat)
    requires IsHistogram(counts, Buckets(samples)) && 1 <= rank <= |samples| <= U64_MAX
    ensures IsLeastBound(Bound(Reaches(counts, rank, 0, 0)), AtRank(samples, rank))
  {
    CountUpToEnds(Buckets(samples));
    ReachesCountsSamples(counts, Buckets(samples), rank, 0, 0);
    var v, bucket := AtRank(samples, rank), Reaches(counts, rank, 0, 0);
    if bucket < |BOUNDS| {
      RankWithinBound(samples, rank, bucket);
    }
    forall j | 0 <= j < bucket ensures BOUNDS[j] < v {
      RankWithinBound(samples, rank, j);
    }
    BoundOfBucket(v, bucket);
  }

  /** The percentile of the histogram is the nearest-rank value of the samples, rounded up to a bound. */
  lemma HistogramRefinesSortedList(counts: seq<U64>, samples: seq<U64>, percentile: U64)
    requires IsHistogram(counts, Buckets(samples)) && samples != [] && 1 <= percentile <= 100
    requires Times(percentile, |samples|) <= U64_MAX
    ensures |samples| <= U64_MAX
    ensures IsLeastBound(PercentileOf(counts, |samples|, percentile), NearestRank(samples, percentile))
  {
    RanksAgree(|samples|, percentile);
    WalkFindsRank(counts, samples, NearestRankOf(|samples|, percentile));
  }

  lemma RanksAgree(n: nat, percentile: nat)
    requires n > 0 && 1 <= percentile <= 100 && Times(percentile, n) <= U64_MAX
    ensures n <= U64_MAX && Rank(n, percentile) == NearestRankOf(n, percentile)
    ensures 1 <= NearestRankOf(n, percentile) <= n
  {
    TimesIsProduct(percentile, n);
    assert n <= n * percentile <= n * 100;
  }

  /** Without samples every percentile is zero, in the report as in the histogram. */
  lemma NoSamplesNoDelay(counts: seq<U64>, percentile: U64)
    requires |counts| == BUCKETS
    ensures NearestRank([], percentile) == PercentileOf(counts, 0, percentile) == 0
  {
  }

  // ---- the counters in place ----

  /** `fetch_add` of one. */
  function Incremented(n: U64): U64 {
    if n == U64_MAX then 0 else n + 1
  }

  /** The counters count the samples, as long as a word can. */
  predicate Counts(counters: seq<U64>, sampleCount: U64, samples: seq<U64>) {
    && |counters| == BUCKETS
    && (|samples| <= U64_MAX ==> sampleCount == |samples| && IsHistogram(counters, Buckets(samples)))
  }

  lemma RecordKeepsCounts(counters: seq<U64>, sampleCount: U64, samples: seq<U64>, x: U64)
    requires Counts(counters, sampleCount, samples)
    ensures Counts(counters[Bucket(x) := Incremented(counters[Bucket(x)])], Incremented(sampleCount), samples + [x])
  {
    assert (samples + [x])[..|samples|] == samples;
    var all := Buckets(samples + [x]);
    assert all[..|samples|] == Buckets(samples);
  }

  method FindBucket(delayNs: U64) returns (idx: nat)
    ensures idx == Bucket(delayNs)
  {
    idx := 0;
    while idx < |BOUNDS| && delayNs > BOUNDS[idx]
      invariant idx <= |BOUNDS| && Bucket(delayNs) == BucketFrom(delayNs, idx)
    {
      idx := idx + 1;
    }
  }

  class AdvancedMetrics {
    const latencyHistogram: array<U64>
    var latencySampleCount: U64
    var delayCount: U64
    ghost var samples: seq<U64>

    /** `samples` are the delays recorded since the last reset; the fault counter of delays agrees with them. */
    ghost predicate Valid()
      reads this, latencyHistogram
    {
      && latencyHistogram.Length == BUCKETS
      && Counts(latencyHistogram[..], latencySampleCount, samples)
      && delayCount == latencySampleCount
    }

    constructor ()
      ensures Valid() && fresh(latencyHistogram) && samples == []
    {
      latencyHistogram := new U64[BUCKETS](_ => 0);
      latencySampleCount := 0;
      delayCount := 0;
      samples := [];
    }

    method RecordDelayNs(delayNs: U64)
      requires Valid()
      modifies this, latencyHistogram
      ensures Valid() && samples == old(samples) + [delayNs]
      ensures latencySampleCount == delayCount == (old(latencySampleCount) + 1) % 0x1_0000_0000_0000_0000
    {
      var idx := FindBucket(delayNs);
      RecordKeepsCounts(latencyHistogram[..], latencySampleCount, samples, delayNs);
      latencyHistogram[idx] := Incremented(latencyHistogram[idx]);
      latencySampleCount := Incremented(latencySampleCount);
      delayCount := Incremented(delayCount);
      samples := samples + [delayNs];
    }

    method Reset()
      requires Valid()
      modifies this, latencyHistogram
      ensures Valid() && samples == []
    {
      for i := 0 to BUCKETS
        modifies latencyHistogram
        invariant forall j | 0 <= j < i :: latencyHistogram[j] == 0
      {
        latencyHistogram[i] := 0;
      }
      latencySampleCount := 0;
      delayCount := 0;
      samples := [];
    }

    /** The three percentiles of a snapshot; they mean what the report computes from the recorded delays. */
    method Snapshot() returns (p50: U64, p95: U64, p99: U64)
      requires Valid()
      ensures p50 <= p95 <= p99
      ensures samples == [] ==> p50 == p95 == p99 == 0
      ensures samples != [] && |samples| * 99 <= U64_MAX ==>
        && IsLeastBound(p50, NearestRank(samples, 50))
        && IsLeastBound(p95, NearestRank(samples, 95))
        && IsLeastBound(p99, NearestRank(samples, 99))
    {
      var counts := latencyHistogram[..];
      p50 := PercentileFromHistogram(counts, latencySampleCount, 50);
      p95 := PercentileFromHistogram(counts, latencySampleCount, 95);
      p99 := PercentileFromHistogram(counts, latencySampleCount, 99);
      PercentilesAreOrdered(counts, latencySampleCount, 50, 95);
      PercentilesAreOrdered(counts, latencySampleCount, 95, 99);
      if samples != [] && |samples| * 99 <= U64_MAX {
        TimesIsProduct(50, |samples|);
        TimesIsProduct(95, |samples|);
        TimesIsProduct(99, |samples|);
        HistogramRefinesSortedList(counts, samples, 50);
        HistogramRefinesSortedList(counts, samples, 95);
        HistogramRefinesSortedList(counts, samples, 99);
      }
    }
  }
}
