/** internal/telemetry/lag.go: lag quantiles estimated from the difference of two cumulative
    histogram snapshots. Bounds and quantiles are reals. */
module Lag {
  import opened Common

  datatype BucketCount = BucketCount(upperBound: real, cumulativeCount: nat)

  datatype Snapshot = Snapshot(count: nat, buckets: seq<BucketCount>)

  /** The bounds of a configured histogram: positive, ascending, at least one. */
  ghost predicate Layout(bounds: seq<real>) {
    bounds != [] && bounds[0] > 0.0 && forall i, j :: 0 <= i < j < |bounds| ==> bounds[i] < bounds[j]
  }

  /** The first n counts together. */
  function Cum(counts: seq<nat>, n: nat): nat
    requires n <= |counts|
  {
    if n == 0 then 0 else Cum(counts, n - 1) + counts[n - 1]
  }

  lemma {:induction false} CumMonotone(counts: seq<nat>, i: nat, j: nat)
    requires i <= j <= |counts|
    ensures Cum(counts, i) <= Cum(counts, j)
  {
    if i < j {
      CumMonotone(counts, i, j - 1);
    }
  }

  lemma {:induction false} CumOfPrefix(a: seq<nat>, b: seq<nat>, n: nat)
    requires n <= |a| && n <= |b| && a[..n] == b[..n]
    ensures Cum(a, n) == Cum(b, n)
  {
    if n > 0 {
      assert a[..n][n - 1] == b[..n][n - 1];
      assert a[..n][..n - 1] == a[..n - 1] && b[..n][..n - 1] == b[..n - 1];
      CumOfPrefix(a, b, n - 1);
    }
  }

  // --------------------------------------------------------- differences

  function Growth(prev: Snapshot, cur: Snapshot, i: nat): int
    requires i < |prev.buckets| && i < |cur.buckets|
  {
    cur.buckets[i].cumulativeCount - prev.buckets[i].cumulativeCount
  }

  /** Same layout, and no bucket shrank. */
  ghost predicate Comparable(prev: Snapshot, cur: Snapshot) {
    var n := |cur.buckets|;
    && |prev.buckets| == n && cur.count >= prev.count
    && (forall i :: 0 <= i < n ==> prev.buckets[i].upperBound == cur.buckets[i].upperBound && Growth(prev, cur, i) >= 0)
    && (forall i :: 0 < i < n ==> Growth(prev, cur, i - 1) <= Growth(prev, cur, i))
    && (n > 0 ==> Growth(prev, cur, n - 1) <= cur.count - prev.count)
  }

  /** Counts whose running sums are the growths of the cumulative counts. */
  ghost predicate AreDeltas(prev: Snapshot, cur: Snapshot, counts: seq<nat>) {
    var n := |cur.buckets|;
    && |prev.buckets| == n && |counts| == n + 1
    && (forall i :: 0 <= i < n ==> Cum(counts, i + 1) == Growth(prev, cur, i))
    && Cum(counts, n + 1) == cur.count - prev.count
  }

  method BucketDeltas(prev: Snapshot, cur: Snapshot) returns (counts: seq<nat>, ok: bool)
    ensures ok <==> Comparable(prev, cur)
    ensures ok ==> AreDeltas(prev, cur, counts)
  {
    if |prev.buckets| != |cur.buckets| || cur.count < prev.count {
      return [], false;
    }
    counts := [];
    var prevCumulative := 0;
    for i := 0 to |cur.buckets|
      invariant |counts| == i && prevCumulative == Cum(counts, i)
      invariant i > 0 ==> prevCumulative == Growth(prev, cur, i - 1)
      invariant forall k :: 0 <= k < i ==> Cum(counts, k + 1) == Growth(prev, cur, k)
      invariant forall k :: 0 <= k < i ==> prev.buckets[k].upperBound == cur.buckets[k].upperBound && Growth(prev, cur, k) >= 0
      invariant forall k :: 0 < k < i ==> Growth(prev, cur, k - 1) <= Growth(prev, cur, k)
    {
      var b, p := cur.buckets[i], prev.buckets[i];
      if p.upperBound != b.upperBound || b.cumulativeCount < p.cumulativeCount {
        return [], false;
      }
      var cumulative := b.cumulativeCount - p.cumulativeCount;
      if cumulative < prevCumulative {
        return [], false;
      }
      ghost var before := counts;
      counts := counts + [cumulative - prevCumulative];
      forall k | 0 <= k <= i
        ensures Cum(counts, k) == Cum(before, k)
      {
        CumOfPrefix(counts, before, k);
      }
      prevCumulative := cumulative;
    }
    var total := cur.count - prev.count;
    if total < prevCumulative {
      return [], false;
    }
    ghost var before := counts;
    counts := counts + [total - prevCumulative];
    forall k | 0 <= k <= |before|
      ensures Cum(counts, k) == Cum(before, k)
    {
      CumOfPrefix(counts, before, k);
    }
    ok := true;
  }

  // --------------------------------------------------------- samples

  function CountLe(samples: seq<real>, v: real): nat {
    if samples == [] then 0
    else CountLe(samples[..|samples| - 1], v) + if samples[|samples| - 1] <= v then 1 else 0
  }

  /** A cumulative histogram of some samples. */
  function SnapshotOf(bounds: seq<real>, samples: seq<real>): Snapshot {
    Snapshot(|samples|, seq(|bounds|, i requires 0 <= i < |bounds| => BucketCount(bounds[i], CountLe(samples, bounds[i]))))
  }

  /** The last bucket, after the finite ones, is the tail up to infinity. */
  predicate InBucket(bounds: seq<real>, x: real, i: nat)
    requires i <= |bounds|
  {
    (i == 0 || bounds[i - 1] < x) && (i == |bounds| || x <= bounds[i])
  }

  function CountIn(bounds: seq<real>, samples: seq<real>, i: nat): nat
    requires i <= |bounds|
  {
    if samples == [] then 0
    else CountIn(bounds, samples[..|samples| - 1], i) + if InBucket(bounds, samples[|samples| - 1], i) then 1 else 0
  }

  /** The samples in the buckets up to the i-th. */
  function CountUpTo(bounds: seq<real>, samples: seq<real>, i: nat): nat
    requires i <= |bounds|
  {
    if i == |bounds| then |samples| else CountLe(samples, bounds[i])
  }

  lemma {:induction false} BucketsPartition(bounds: seq<real>, samples: seq<real>, i: nat)
    requires Layout(bounds) && i <= |bounds|
    ensures CountUpTo(bounds, samples, i) == CountIn(bounds, samples, i) + if i == 0 then 0 else CountUpTo(bounds, samples, i - 1)
  {
    if samples != [] {
      BucketsPartition(bounds, samples[..|samples| - 1], i);
    }
  }

  lemma {:induction false} CountLeDistributes(a: seq<real>, b: seq<real>, v: real)
    ensures CountLe(a + b, v) == CountLe(a, v) + CountLe(b, v)
  {
    if b == [] {
      assert a + b == a;
    } else {
      assert (a + b)[..|a + b| - 1] == a + b[..|b| - 1];
      CountLeDistributes(a, b[..|b| - 1], v);
    }
  }

  lemma {:induction false} CountLeMonotone(samples: seq<real>, v: real, w: real)
    requires v <= w
    ensures CountLe(samples, v) <= CountLe(samples, w) <= |samples|
  {
    if samples != [] {
      CountLeMonotone(samples[..|samples| - 1], v, w);
    }
  }

  /** The counts are those of a set of samples, bucket by bucket, and their sum is its size. */
  ghost predicate CountsOf(bounds: seq<real>, samples: seq<real>, counts: seq<nat>) {
    && |counts| == |bounds| + 1
    && (forall i :: 0 <= i <= |bounds| ==> counts[i] == CountIn(bounds, samples, i))
    && Cum(counts, |counts|) == |samples|
  }

  lemma GrowthIsNew(bounds: seq<real>, earlier: seq<real>, since: seq<real>, i: nat)
    requires i < |bounds|
    ensures Growth(SnapshotOf(bounds, earlier), SnapshotOf(bounds, earlier + since), i) == CountUpTo(bounds, since, i)
  {
    CountLeDistributes(earlier, since, bounds[i]);
  }

  lemma CountUpToMonotone(bounds: seq<real>, samples: seq<real>, i: nat)
    requires Layout(bounds) && 0 < i <= |bounds|
    ensures CountUpTo(bounds, samples, i - 1) <= CountUpTo(bounds, samples, i)
  {
    CountLeMonotone(samples, bounds[i - 1], if i < |bounds| then bounds[i] else bounds[i - 1]);
  }

  /** Snapshots of a growing histogram can always be compared. */
  lemma GrowingIsComparable(bounds: seq<real>, earlier: seq<real>, since: seq<real>)
    requires Layout(bounds)
    ensures Comparable(SnapshotOf(bounds, earlier), SnapshotOf(bounds, earlier + since))
  {
    var prev, cur, n := SnapshotOf(bounds, earlier), SnapshotOf(bounds, earlier + since), |bounds|;
    forall i | 0 <= i < n
      ensures prev.buckets[i].upperBound == cur.buckets[i].upperBound && Growth(prev, cur, i) >= 0
    {
      GrowthIsNew(bounds, earlier, since, i);
    }
    forall i | 0 < i < n
      ensures Growth(prev, cur, i - 1) <= Growth(prev, cur, i)
    {
      GrowthIsNew(bounds, earlier, since, i - 1);
      GrowthIsNew(bounds, earlier, since, i);
      CountUpToMonotone(bounds, since, i);
    }
    GrowthIsNew(bounds, earlier, since, n - 1);
    CountUpToMonotone(bounds, since, n);
  }

  /** The deltas between them are exactly the counts of the samples that came in between. */
  lemma DeltasAreNewSamples(bounds: seq<real>, earlier: seq<real>, since: seq<real>, counts: seq<nat>)
    requires Layout(bounds)
    requires AreDeltas(SnapshotOf(bounds, earlier), SnapshotOf(bounds, earlier + since), counts)
    ensures CountsOf(bounds, since, counts)
  {
    forall i | 0 <= i <= |bounds|
      ensures counts[i] == CountIn(bounds, since, i)
    {
      BucketsPartition(bounds, since, i);
      if i < |bounds| {
        GrowthIsNew(bounds, earlier, since, i);
        assert Cum(counts, i + 1) == CountUpTo(bounds, since, i);
      }
      if i > 0 {
        GrowthIsNew(bounds, earlier, since, i - 1);
        assert Cum(counts, i - 1 + 1) == CountUpTo(bounds, since, i - 1);
      }
    }
  }

  // --------------------------------------------------------- quantiles

  /** The first bucket at or behind i whose running count reaches the target. */
  function Reaching(counts: seq<nat>, target: real, i: nat): (b: nat)
    requires i <= |counts|
    ensures i <= b <= |counts|
    ensures forall k :: i < k <= b ==> Cum(counts, k) as real < target
    ensures b < |counts| ==> Cum(counts, b + 1) as real >= target
    decreases |counts| - i
  {
    if i < |counts| && (Cum(counts, i + 1) as real) < target then Reaching(counts, target, i + 1) else i
  }

  function Lower(bounds: seq<real>, b: nat): real
    requires b <= |bounds|
  {
    if b > 0 then bounds[b - 1] else 0.0
  }

  /** The point at part of n on the way from lower to upper. */
  function Interpolated(lower: real, upper: real, part: real, n: real): real
    requires n > 0.0
  {
    lower + (upper - lower) * part / n
  }

  lemma InterpolatedInside(lower: real, upper: real, part: real, n: real)
    requires lower < upper && 0.0 < part <= n
    ensures lower < Interpolated(lower, upper, part, n) <= upper
  {
    var width, f := upper - lower, part / n;
    assert f * n == part && 0.0 < f <= 1.0;
    assert width * part / n == width * f;
    assert width * f > 0.0 && width * (1.0 - f) >= 0.0;
  }

  lemma InterpolatedMonotone(lower: real, upper: real, a: real, b: real, n: real)
    requires lower < upper && n > 0.0 && a <= b
    ensures Interpolated(lower, upper, a, n) <= Interpolated(lower, upper, b, n)
  {
    var width, d := upper - lower, (b - a) / n;
    assert d >= 0.0 && width * d >= 0.0;
    assert width * b / n - width * a / n == width * d;
  }

  /** The bucket a target falls into: it has samples, and the target is behind those before it. */
  lemma BucketHasSamples(counts: seq<nat>, target: real)
    requires 0.0 < target
    ensures var b := Reaching(counts, target, 0);
            b < |counts| ==> counts[b] > 0 && Cum(counts, b) as real < target <= Cum(counts, b) as real + counts[b] as real
  {
    var b := Reaching(counts, target, 0);
    assert Cum(counts, 0) == 0;
    if b < |counts| {
      assert Cum(counts, b + 1) == Cum(counts, b) + counts[b];
    }
  }

  lemma BucketOfTarget(counts: seq<nat>, target: real)
    requires 0.0 < target <= Cum(counts, |counts|) as real
    ensures var b := Reaching(counts, target, 0);
            b < |counts| && counts[b] > 0 && Cum(counts, b) as real < target <= Cum(counts, b) as real + counts[b] as real
  {
    BucketHasSamples(counts, target);
    assert Cum(counts, 0) == 0;
  }

  /** The estimate for a target: interpolated in its bucket, or the last finite bound when it
      falls into the tail or behind every sample. */
  function Estimate(target: real, bounds: seq<real>, counts: seq<nat>): real
    requires |counts| == |bounds| + 1 && bounds != [] && target > 0.0
  {
    var b := Reaching(counts, target, 0);
    if b >= |bounds| then bounds[|bounds| - 1]
    else
      BucketHasSamples(counts, target);
      Interpolated(Lower(bounds, b), bounds[b], target - Cum(counts, b) as real, counts[b] as real)
  }

  /** Where the q-quantile of a number of samples is looked for. */
  function Target(q: real, total: nat): (target: real)
    requires q > 0.0
    ensures total > 0 ==> 0.0 < target
    ensures total > 0 && q <= 1.0 ==> target <= total as real
  {
    assert q <= 1.0 ==> (1.0 - q) * total as real >= 0.0;
    q * total as real
  }

  function Quantile(q: real, bounds: seq<real>, counts: seq<nat>): real
    requires q > 0.0 && |counts| == |bounds| + 1 && bounds != []
  {
    var total := Cum(counts, |counts|);
    if total == 0 then 0.0 else Estimate(Target(q, total), bounds, counts)
  }

  method Locate(target: real, bounds: seq<real>, counts: seq<nat>) returns (estimate: real)
    requires |counts| == |bounds| + 1 && bounds != [] && target > 0.0
    ensures estimate == Estimate(target, bounds, counts)
  {
    var cumulative := 0.0;
    for i := 0 to |counts|
      invariant cumulative == Cum(counts, i) as real && cumulative < target
      invariant Reaching(counts, target, 0) == Reaching(counts, target, i)
    {
      if counts[i] != 0 {
        var next := cumulative + counts[i] as real;
        if next >= target {
          if i >= |bounds| {
            return bounds[|bounds| - 1];
          }
          var lower := 0.0;
          if i > 0 {
            lower := bounds[i - 1];
          }
          return Interpolated(lower, bounds[i], target - cumulative, counts[i] as real);
        }
        cumulative := next;
      }
    }
    return bounds[|bounds| - 1];
  }

  /** Zero without samples or without bounds. */
  method BucketQuantile(q: real, bounds: seq<real>, counts: seq<nat>) returns (estimate: real)
    requires q > 0.0 && |counts| == |bounds| + 1
    ensures estimate == if bounds == [] then 0.0 else Quantile(q, bounds, counts)
  {
    var total := 0;
    for i := 0 to |counts|
      invariant total == Cum(counts, i)
    {
      total := total + counts[i];
    }
    if total == 0 || |bounds| == 0 {
      return 0.0;
    }
    estimate := Locate(Target(q, total), bounds, counts);
  }

  /** The last bucket with samples. */
  function Highest(counts: seq<nat>, n: nat): (b: int)
    requires n <= |counts|
    ensures -1 <= b < n
    ensures b >= 0 ==> counts[b] > 0
    ensures forall k :: b < k < n ==> counts[k] == 0
  {
    if n == 0 then -1 else if counts[n - 1] > 0 then n - 1 else Highest(counts, n - 1)
  }

  /** The upper bound of a bucket; the tail counts as the last finite one. */
  function Upper(bounds: seq<real>, b: nat): real
    requires b <= |bounds| && bounds != []
  {
    if b == |bounds| then bounds[b - 1] else bounds[b]
  }

  /** Zero without samples. */
  method MaxBound(bounds: seq<real>, counts: seq<nat>) returns (bound: real)
    requires |counts| == |bounds| + 1 && bounds != []
    ensures var b := Highest(counts, |counts|); bound == if b < 0 then 0.0 else Upper(bounds, b)
  {
    var i := |counts| - 1;
    while i >= 0
      invariant -1 <= i < |counts| && Highest(counts, |counts|) == Highest(counts, i + 1)
    {
      if counts[i] != 0 {
        if i >= |bounds| {
          return bounds[|bounds| - 1];
        }
        return bounds[i];
      }
      i := i - 1;
    }
    return 0.0;
  }

  /** The estimate for a target lies in the target's bucket. */
  lemma EstimateInBucket(target: real, bounds: seq<real>, counts: seq<nat>)
    requires Layout(bounds) && |counts| == |bounds| + 1 && 0.0 < target <= Cum(counts, |counts|) as real
    ensures var b, e := Reaching(counts, target, 0), Estimate(target, bounds, counts);
            && b <= |bounds|
            && (b < |bounds| ==> Lower(bounds, b) < e <= bounds[b])
            && (b == |bounds| ==> e == bounds[b - 1])
  {
    BucketOfTarget(counts, target);
    var b := Reaching(counts, target, 0);
    if b < |bounds| {
      InterpolatedInside(Lower(bounds, b), bounds[b], target - Cum(counts, b) as real, counts[b] as real);
    }
  }

  lemma ReachingMonotone(counts: seq<nat>, a: real, b: real)
    requires a <= b
    ensures Reaching(counts, a, 0) <= Reaching(counts, b, 0)
  {
    var i, j := Reaching(counts, a, 0), Reaching(counts, b, 0);
    var k := j + 1;
    assert j < |counts| ==> Cum(counts, k) as real >= b;
  }

  lemma EstimateMonotone(s: real, t: real, bounds: seq<real>, counts: seq<nat>)
    requires Layout(bounds) && |counts| == |bounds| + 1 && 0.0 < s <= t <= Cum(counts, |counts|) as real
    ensures Estimate(s, bounds, counts) <= Estimate(t, bounds, counts)
  {
    ReachingMonotone(counts, s, t);
    EstimateInBucket(s, bounds, counts);
    EstimateInBucket(t, bounds, counts);
    var b := Reaching(counts, s, 0);
    if b == Reaching(counts, t, 0) && b < |bounds| {
      BucketOfTarget(counts, s);
      var c := Cum(counts, b) as real;
      InterpolatedMonotone(Lower(bounds, b), bounds[b], s - c, t - c, counts[b] as real);
    }
  }

  lemma TargetMonotone(p: real, q: real, total: nat)
    requires 0.0 < p <= q <= 1.0
    ensures Target(p, total) <= Target(q, total)
  {
    assert (q - p) * total as real >= 0.0;
  }

  /** A larger quantile has an estimate that is not smaller. */
  lemma QuantileMonotone(p: real, q: real, bounds: seq<real>, counts: seq<nat>)
    requires 0.0 < p <= q <= 1.0 && Layout(bounds) && |counts| == |bounds| + 1
    ensures Quantile(p, bounds, counts) <= Quantile(q, bounds, counts)
  {
    var total := Cum(counts, |counts|);
    if total > 0 {
      TargetMonotone(p, q, total);
      EstimateMonotone(Target(p, total), Target(q, total), bounds, counts);
    }
  }

  /** No estimate exceeds the bound of the highest bucket with samples. */
  lemma QuantileBelowMax(q: real, bounds: seq<real>, counts: seq<nat>)
    requires 0.0 < q <= 1.0 && Layout(bounds) && |counts| == |bounds| + 1 && Cum(counts, |counts|) > 0
    ensures var b := Highest(counts, |counts|);
            b >= 0 && Quantile(q, bounds, counts) <= Upper(bounds, b)
  {
    var target := Target(q, Cum(counts, |counts|));
    BucketOfTarget(counts, target);
    EstimateInBucket(target, bounds, counts);
    assert Highest(counts, |counts|) >= Reaching(counts, target, 0);
  }

  // --------------------------------------------------------- the rank statistic

  function CountLt(samples: seq<real>, v: real): nat {
    if samples == [] then 0
    else CountLt(samples[..|samples| - 1], v) + if samples[|samples| - 1] < v then 1 else 0
  }

  /** x is the k-th smallest sample. */
  ghost predicate IsKth(samples: seq<real>, k: int, x: real) {
    x in samples && CountLt(samples, x) < k <= CountLe(samples, x)
  }

  function Ceil(x: real): int {
    -((-x).Floor)
  }

  lemma CeilIsLeast(x: real, n: int)
    ensures n as real >= x <==> n >= Ceil(x)
  {}

  lemma {:induction false} LtAndLe(samples: seq<real>, v: real, w: real)
    ensures v < w ==> CountLe(samples, v) <= CountLt(samples, w)
    ensures CountLt(samples, v) <= CountLe(samples, v)
    ensures v <= w ==> CountLe(samples, v) <= CountLe(samples, w)
    ensures v <= w ==> CountLt(samples, v) <= CountLt(samples, w) <= |samples|
  {
    if samples != [] {
      LtAndLe(samples[..|samples| - 1], v, w);
    }
  }

  lemma {:induction false} CumIsCountUpTo(bounds: seq<real>, samples: seq<real>, counts: seq<nat>, i: nat)
    requires Layout(bounds) && CountsOf(bounds, samples, counts) && i <= |bounds|
    ensures Cum(counts, i + 1) == CountUpTo(bounds, samples, i)
  {
    BucketsPartition(bounds, samples, i);
    if i > 0 {
      CumIsCountUpTo(bounds, samples, counts, i - 1);
    }
  }

  /** An estimate in the same finite bucket as x, or the last finite bound for an x beyond it. */
  ghost predicate Brackets(bounds: seq<real>, x: real, e: real)
    requires bounds != []
  {
    exists b :: 0 <= b <= |bounds| && InBucket(bounds, x, b) &&
      if b < |bounds| then InBucket(bounds, e, b) else e == bounds[b - 1]
  }

  /** The estimate falls into the finite bucket of the sample whose rank is the quantile, or is
      the last finite bound when that sample lies beyond it. */
  lemma EstimateBracketsRank(q: real, bounds: seq<real>, samples: seq<real>, counts: seq<nat>, x: real)
    requires 0.0 < q <= 1.0 && Layout(bounds) && CountsOf(bounds, samples, counts) && samples != []
    requires IsKth(samples, Ceil(Target(q, |samples|)), x)
    ensures Brackets(bounds, x, Quantile(q, bounds, counts))
  {
    var target := Target(q, |samples|);
    var b := Reaching(counts, target, 0);
    BucketOfTarget(counts, target);
    EstimateInBucket(target, bounds, counts);
    CumIsCountUpTo(bounds, samples, counts, b);
    CeilIsLeast(target, Cum(counts, b + 1));
    if b < |bounds| {
      LtAndLe(samples, bounds[b], x);
    }
    if b > 0 {
      CumIsCountUpTo(bounds, samples, counts, b - 1);
      CeilIsLeast(target, Cum(counts, b));
      LtAndLe(samples, x, bounds[b - 1]);
    }
    assert InBucket(bounds, x, b);
  }

  lemma {:induction false} LargestBelow(samples: seq<real>, v: real) returns (y: real)
    requires CountLt(samples, v) > 0
    ensures y in samples && y < v && CountLe(samples, y) == CountLt(samples, v)
  {
    y := MaxBelow(samples, v);
    CountBetween(samples, y, v);
  }

  lemma {:induction false} MaxBelow(samples: seq<real>, v: real) returns (y: real)
    requires CountLt(samples, v) > 0
    ensures y in samples && y < v && forall z :: z in samples && z < v ==> z <= y
  {
    var front, last := samples[..|samples| - 1], samples[|samples| - 1];
    assert samples == front + [last];
    if CountLt(front, v) > 0 {
      y := MaxBelow(front, v);
      if y < last < v {
        y := last;
      }
    } else {
      NoneBelow(front, v);
      y := last;
    }
  }

  lemma {:induction false} NoneBelow(samples: seq<real>, v: real)
    requires CountLt(samples, v) == 0
    ensures forall z :: z in samples ==> z >= v
  {
    if samples != [] {
      NoneBelow(samples[..|samples| - 1], v);
      assert samples == samples[..|samples| - 1] + [samples[|samples| - 1]];
    }
  }

  lemma {:induction false} CountBetween(samples: seq<real>, y: real, v: real)
    requires y < v && forall z :: z in samples && z < v ==> z <= y
    ensures CountLe(samples, y) == CountLt(samples, v)
  {
    if samples != [] {
      var front := samples[..|samples| - 1];
      assert samples[|samples| - 1] in samples;
      forall z | z in front && z < v
        ensures z <= y
      {
        assert z in samples;
      }
      CountBetween(front, y, v);
    }
  }

  lemma {:induction false} AboveAll(samples: seq<real>) returns (v: real)
    ensures CountLt(samples, v) == |samples|
  {
    if samples == [] {
      v := 0.0;
    } else {
      var front, last := samples[..|samples| - 1], samples[|samples| - 1];
      v := AboveAll(front);
      LtAndLe(front, v, last + 1.0);
      if last >= v {
        v := last + 1.0;
      }
    }
  }

  /** Every rank up to the number of samples is taken by a sample. */
  lemma EveryRankIsTaken(samples: seq<real>, k: int)
    requires 1 <= k <= |samples|
    ensures exists x :: IsKth(samples, k, x)
  {
    var v := AboveAll(samples);
    var x := KthExists(samples, k, v);
  }

  lemma {:induction false} KthExists(samples: seq<real>, k: int, v: real) returns (x: real)
    requires 1 <= k <= CountLt(samples, v)
    ensures IsKth(samples, k, x)
    decreases CountLt(samples, v)
  {
    x := LargestBelow(samples, v);
    if CountLt(samples, x) >= k {
      CountOfMember(samples, x);
      x := KthExists(samples, k, x);
    }
  }

  lemma {:induction false} CountOfMember(samples: seq<real>, x: real)
    requires x in samples
    ensures CountLt(samples, x) < CountLe(samples, x)
  {
    var front, last := samples[..|samples| - 1], samples[|samples| - 1];
    assert samples == front + [last];
    LtAndLe(front, x, x);
    if last != x {
      assert x in front;
      CountOfMember(front, x);
    }
  }

  /** Of the samples that came in between two snapshots there is one whose rank is the
      quantile, and the estimate brackets it. */
  lemma QuantileIsBracketed(q: real, bounds: seq<real>, earlier: seq<real>, since: seq<real>, counts: seq<nat>)
    requires 0.0 < q <= 1.0 && Layout(bounds) && since != []
    requires AreDeltas(SnapshotOf(bounds, earlier), SnapshotOf(bounds, earlier + since), counts)
    ensures exists x :: IsKth(since, Ceil(Target(q, |since|)), x)
    ensures forall x :: IsKth(since, Ceil(Target(q, |since|)), x) ==> Brackets(bounds, x, Quantile(q, bounds, counts))
  {
    var target := Target(q, |since|);
    DeltasAreNewSamples(bounds, earlier, since, counts);
    CeilIsLeast(target, |since|);
    CeilIsLeast(target, 0);
    EveryRankIsTaken(since, Ceil(target));
    forall x | IsKth(since, Ceil(target), x)
      ensures Brackets(bounds, x, Quantile(q, bounds, counts))
    {
      EstimateBracketsRank(q, bounds, since, counts, x);
    }
  }

  // --------------------------------------------------------- the interval summary

  datatype Summary = Summary(samples: nat, p50: real, p99: real, maxLE: real)

  function BoundsOf(s: Snapshot): (bounds: seq<real>)
    ensures |bounds| == |s.buckets|
  {
    seq(|s.buckets|, i requires 0 <= i < |s.buckets| => s.buckets[i].upperBound)
  }

  /** None on a layout mismatch, on a histogram that shrank, and when nothing was sampled. The
      program panics on a histogram without finite buckets that grew, and on nothing else. */
  method LagInterval(prev: Snapshot, cur: Snapshot) returns (r: Option<Summary>)
    requires prev.buckets == cur.buckets == [] ==> cur.count <= prev.count
    ensures r.Some? <==> Comparable(prev, cur) && cur.count > prev.count
    ensures r.Some? ==> r.value.samples == cur.count - prev.count
    ensures r.Some? && Layout(BoundsOf(cur)) ==> r.value.p50 <= r.value.p99 <= r.value.maxLE
    ensures r.Some? ==> exists counts :: AreDeltas(prev, cur, counts) &&
                          r.value.p50 == Quantile(0.5, BoundsOf(cur), counts) && r.value.p99 == Quantile(0.99, BoundsOf(cur), counts)
  {
    var counts, ok := BucketDeltas(prev, cur);
    if !ok || cur.count - prev.count == 0 {
      return None;
    }
    var bounds := BoundsOf(cur);
    var p50 := BucketQuantile(0.5, bounds, counts);
    var p99 := BucketQuantile(0.99, bounds, counts);
    var maxLE := MaxBound(bounds, counts);
    if Layout(bounds) {
      QuantileMonotone(0.5, 0.99, bounds, counts);
      QuantileBelowMax(0.99, bounds, counts);
    }
    r := Some(Summary(cur.count - prev.count, p50, p99, maxLE));
  }
}
