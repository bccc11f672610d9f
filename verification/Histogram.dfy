/**
 The lock-free histogram (src/lock_free.rs): bucket counters beside the samples they stand
 for. A percentile computed from the counters is the lower boundary of the bucket that holds
 the corresponding order statistic of the samples.
 */
module Histogram {
  import opened Wrappers

  ghost predicate Increasing(boundaries: seq<nat>) {
    forall i, j :: 0 <= i < j < |boundaries| ==> boundaries[i] < boundaries[j]
  }

  function CountBelow(samples: seq<nat>, bound: nat): nat {
    if samples == [] then 0
    else CountBelow(samples[..|samples| - 1], bound) + if samples[|samples| - 1] < bound then 1 else 0
  }

  function CountBetween(samples: seq<nat>, lo: nat, hi: nat): nat {
    if samples == [] then 0
    else CountBetween(samples[..|samples| - 1], lo, hi) + if lo <= samples[|samples| - 1] < hi then 1 else 0
  }

  // ---------------------------------------------------------------- order statistics

  ghost predicate Sorted(s: seq<nat>) {
    forall i, j :: 0 <= i < j < |s| ==> s[i] <= s[j]
  }

  function Insert(s: seq<nat>, x: nat): seq<nat> {
    if s == [] || s[|s| - 1] <= x then s + [x] else Insert(s[..|s| - 1], x) + [s[|s| - 1]]
  }

  /** The samples in ascending order; `Sort(samples)[k - 1]` is the k-th smallest. */
  function Sort(samples: seq<nat>): seq<nat> {
    if samples == [] then [] else Insert(Sort(samples[..|samples| - 1]), samples[|samples| - 1])
  }

  lemma {:induction false} InsertContents(s: seq<nat>, x: nat)
    ensures multiset(Insert(s, x)) == multiset(s) + multiset{x} && |Insert(s, x)| == |s| + 1
  {
    if s != [] && s[|s| - 1] > x {
      InsertContents(s[..|s| - 1], x);
      assert s == s[..|s| - 1] + [s[|s| - 1]];
    }
  }

  lemma {:induction false} InsertSorted(s: seq<nat>, x: nat, top: nat)
    requires Sorted(s) && x <= top && forall i :: 0 <= i < |s| ==> s[i] <= top
    ensures Sorted(Insert(s, x)) && forall i :: 0 <= i < |Insert(s, x)| ==> Insert(s, x)[i] <= top
  {
    if s != [] && s[|s| - 1] > x {
      InsertSorted(s[..|s| - 1], x, s[|s| - 1]);
    }
  }

  lemma {:induction false} SortContents(samples: seq<nat>)
    ensures multiset(Sort(samples)) == multiset(samples) && |Sort(samples)| == |samples|
  {
    if samples != [] {
      var rest := samples[..|samples| - 1];
      SortContents(rest);
      InsertContents(Sort(rest), samples[|samples| - 1]);
      assert samples == rest + [samples[|samples| - 1]];
    }
  }

  lemma {:induction false} SortSorts(samples: seq<nat>)
    ensures Sorted(Sort(samples)) && |Sort(samples)| == |samples|
  {
    SortContents(samples);
    if samples != [] {
      var last := samples[|samples| - 1];
      SortSorts(samples[..|samples| - 1]);
      var s := Sort(samples[..|samples| - 1]);
      InsertSorted(s, last, if s == [] || s[|s| - 1] <= last then last else s[|s| - 1]);
    }
  }

  lemma {:induction false} CountBelowInsert(s: seq<nat>, x: nat, bound: nat)
    ensures CountBelow(Insert(s, x), bound) == CountBelow(s, bound) + if x < bound then 1 else 0
  {
    if s == [] || s[|s| - 1] <= x {
      assert (s + [x])[..|s|] == s;
    } else {
      var t := Insert(s[..|s| - 1], x);
      CountBelowInsert(s[..|s| - 1], x, bound);
      assert (t + [s[|s| - 1]])[..|t|] == t;
    }
  }

  lemma {:induction false} CountBelowSort(samples: seq<nat>, bound: nat)
    ensures CountBelow(Sort(samples), bound) == CountBelow(samples, bound)
  {
    if samples != [] {
      CountBelowSort(samples[..|samples| - 1], bound);
      CountBelowInsert(Sort(samples[..|samples| - 1]), samples[|samples| - 1], bound);
    }
  }

  lemma {:induction false} CountBelowSorted(s: seq<nat>, bound: nat, k: nat)
    requires Sorted(s) && 1 <= k <= |s|
    ensures CountBelow(s, bound) <= |s|
    ensures CountBelow(s, bound) >= k <==> s[k - 1] < bound
  {
    var rest := s[..|s| - 1];
    if k <= |rest| {
      CountBelowSorted(rest, bound, k);
    } else if rest != [] {
      CountBelowSorted(rest, bound, |rest|);
    }
  }

  /** At least k samples are below a bound exactly when the k-th smallest is. */
  lemma KthBelow(samples: seq<nat>, bound: nat, k: nat)
    requires 1 <= k <= |samples|
    ensures |Sort(samples)| == |samples|
    ensures CountBelow(samples, bound) >= k <==> Sort(samples)[k - 1] < bound
  {
    SortSorts(samples);
    CountBelowSort(samples, bound);
    CountBelowSorted(Sort(samples), bound, k);
  }

  lemma LastNotAbove(a: seq<nat>, b: seq<nat>)
    requires Sorted(b) && a != [] && b != [] && multiset(a) == multiset(b)
    ensures a[|a| - 1] <= b[|b| - 1]
  {
    assert a[|a| - 1] in multiset(b);
    var i :| 0 <= i < |b| && b[i] == a[|a| - 1];
  }

  lemma WithoutLast(a: seq<nat>)
    requires a != []
    ensures multiset(a[..|a| - 1]) == multiset(a) - multiset{a[|a| - 1]}
  {
    assert a == a[..|a| - 1] + [a[|a| - 1]];
  }

  /** In ascending order the same samples can stand in one way only. */
  lemma {:induction false} SortedUnique(a: seq<nat>, b: seq<nat>)
    requires Sorted(a) && Sorted(b) && multiset(a) == multiset(b)
    ensures a == b
  {
    assert |a| == |multiset(a)| == |multiset(b)| == |b|;
    if a != [] {
      LastNotAbove(a, b);
      LastNotAbove(b, a);
      WithoutLast(a);
      WithoutLast(b);
      SortedUnique(a[..|a| - 1], b[..|b| - 1]);
    }
  }

  /** With the samples in ascending order, `x` is the k-th. */
  ghost predicate IsKthSmallest(samples: seq<nat>, k: nat, x: nat) {
    exists s: seq<nat> :: Sorted(s) && multiset(s) == multiset(samples) && 1 <= k <= |s| && s[k - 1] == x
  }

  lemma KthOfSort(samples: seq<nat>, k: nat, x: nat)
    ensures |Sort(samples)| == |samples|
    ensures IsKthSmallest(samples, k, x) <==> 1 <= k <= |samples| && Sort(samples)[k - 1] == x
  {
    SortContents(samples);
    SortSorts(samples);
    if IsKthSmallest(samples, k, x) {
      var s: seq<nat> :| Sorted(s) && multiset(s) == multiset(samples) && 1 <= k <= |s| && s[k - 1] == x;
      SortedUnique(s, Sort(samples));
    }
  }

  // ---------------------------------------------------------------- buckets

  /** What bucket `i` counts: the samples from the boundary before it up to its own. */
  function BucketCount(samples: seq<nat>, boundaries: seq<nat>, i: nat): nat
    requires i <= |boundaries|
  {
    if i < |boundaries| then
      CountBetween(samples, if i == 0 then 0 else boundaries[i - 1], boundaries[i])
    else
      |samples| - CountBelow'(samples, if i == 0 then 0 else boundaries[i - 1])
  }

  /** `CountBelow` with its obvious bound in the result. */
  function CountBelow'(samples: seq<nat>, bound: nat): (n: nat)
    ensures n == CountBelow(samples, bound) <= |samples|
  {
    CountBelowBound(samples, bound);
    CountBelow(samples, bound)
  }

  lemma {:induction false} CountBelowBound(samples: seq<nat>, bound: nat)
    ensures CountBelow(samples, bound) <= |samples|
    ensures bound == 0 ==> CountBelow(samples, bound) == 0
  {
    if samples != [] {
      CountBelowBound(samples[..|samples| - 1], bound);
    }
  }

  lemma {:induction false} CountsAdd(samples: seq<nat>, lo: nat, hi: nat)
    requires lo <= hi
    ensures CountBelow(samples, lo) + CountBetween(samples, lo, hi) == CountBelow(samples, hi)
  {
    if samples != [] {
      CountsAdd(samples[..|samples| - 1], lo, hi);
    }
  }

  /** The samples in the buckets before number `i`. */
  function Before(samples: seq<nat>, boundaries: seq<nat>, i: nat): nat
    requires i <= |boundaries| + 1
  {
    if i == 0 then 0
    else if i <= |boundaries| then CountBelow(samples, boundaries[i - 1])
    else |samples|
  }

  lemma BeforeNext(samples: seq<nat>, boundaries: seq<nat>, i: nat)
    requires Increasing(boundaries) && i <= |boundaries|
    ensures Before(samples, boundaries, i + 1) == Before(samples, boundaries, i) + BucketCount(samples, boundaries, i)
    ensures Before(samples, boundaries, i + 1) <= |samples|
  {
    CountBelowBound(samples, 0);
    if i < |boundaries| {
      CountBelowBound(samples, boundaries[i]);
      CountsAdd(samples, if i == 0 then 0 else boundaries[i - 1], boundaries[i]);
    }
  }

  /** The index of the bucket a value falls in: the number of boundaries at or below it. */
  ghost predicate IsBucketOf(boundaries: seq<nat>, value: nat, i: nat) {
    && i <= |boundaries|
    && (forall j :: 0 <= j < i ==> boundaries[j] <= value)
    && (i < |boundaries| ==> value < boundaries[i])
  }

  /** The largest boundary not above `value`, or 0. */
  ghost predicate IsFloor(boundaries: seq<nat>, value: nat, r: nat) {
    && (r == 0 || r in boundaries)
    && r <= value
    && forall j :: 0 <= j < |boundaries| && boundaries[j] <= value ==> boundaries[j] <= r
  }

  lemma FloorMonotone(boundaries: seq<nat>, v1: nat, v2: nat, r1: nat, r2: nat)
    requires v1 <= v2 && IsFloor(boundaries, v1, r1) && IsFloor(boundaries, v2, r2)
    ensures r1 <= r2 && (v1 == v2 ==> r1 == r2)
  {
    assert forall r :: r in boundaries ==> exists j :: 0 <= j < |boundaries| && boundaries[j] == r;
  }

  lemma RecordCounts(samples: seq<nat>, boundaries: seq<nat>, value: nat, at: nat, i: nat)
    requires Increasing(boundaries) && IsBucketOf(boundaries, value, at) && i <= |boundaries|
    ensures BucketCount(samples + [value], boundaries, i)
            == BucketCount(samples, boundaries, i) + if i == at then 1 else 0
  {
    assert (samples + [value])[..|samples|] == samples;
  }

  // ---------------------------------------------------------------- snapshot and percentile

  datatype HistogramSnapshot = HistogramSnapshot(buckets: seq<nat>, boundaries: seq<nat>)

  const U64_MAX: nat := 0xFFFF_FFFF_FFFF_FFFF

  ghost predicate Represents(h: HistogramSnapshot, samples: seq<nat>) {
    && Increasing(h.boundaries)
    && |h.buckets| == |h.boundaries| + 1
    && forall i :: 0 <= i < |h.buckets| ==> h.buckets[i] == BucketCount(samples, h.boundaries, i)
  }

  /** The ceiling of `n * p` as an unsigned integer; casting a negative float gives 0. */
  function Rank(n: nat, p: real): nat {
    var c := -((-(n as real * p)).Floor);
    if c < 0 then 0 else c
  }

  lemma ProductSigns(a: real, b: real)
    requires a > 0.0
    ensures a * b <= 0.0 <==> b <= 0.0
  {
    if b > 0.0 {
      assert a * b > 0.0;
    } else {
      assert a * -b >= 0.0;
    }
  }

  /** `k` is the least whole number not below `n * p`. */
  ghost predicate IsCeiling(n: nat, p: real, k: nat) {
    k as real - 1.0 < n as real * p <= k as real
  }

  /** The rank is the ceiling wherever the product is positive, and otherwise 0. */
  lemma RankIsCeiling(n: nat, p: real)
    requires n > 0
    ensures p > 0.0 ==> IsCeiling(n, p, Rank(n, p)) && (Rank(n, p) > n <==> p > 1.0)
    ensures Rank(n, p) == 0 <==> p <= 0.0
  {
    ProductSigns(n as real, p);
    ProductSigns(n as real, p - 1.0);
    assert n as real * (p - 1.0) == n as real * p - n as real;
  }

  lemma CeilingMonotone(n: nat, p: real, q: real, j: nat, k: nat)
    requires p <= q && IsCeiling(n, p, j) && IsCeiling(n, q, k)
    ensures j <= k
  {
    if n > 0 {
      ProductSigns(n as real, p - q);
      assert n as real * (p - q) == n as real * p - n as real * q;
    }
  }

  method TotalCount(h: HistogramSnapshot, ghost samples: seq<nat>) returns (total: nat)
    requires Represents(h, samples)
    ensures total == |samples|
  {
    total := 0;
    for i := 0 to |h.buckets|
      invariant total == Before(samples, h.boundaries, i)
    {
      BeforeNext(samples, h.boundaries, i);
      total := total + h.buckets[i];
    }
  }

  /** `r` is the largest boundary (or 0) not above the k-th smallest sample, k being the ceiling of `n * p`. */
  ghost predicate IsFloorOfRank(boundaries: seq<nat>, samples: seq<nat>, p: real, k: nat, x: nat, r: nat) {
    IsCeiling(|samples|, p, k) && IsKthSmallest(samples, k, x) && IsFloor(boundaries, x, r)
  }

  /**
   The percentile in terms of the samples: for 0 < p <= 1 the largest boundary (or 0) not
   above the ceil(n * p)-th smallest sample; nothing exactly when there is no sample or p
   exceeds 1.
   */
  ghost predicate IsPercentile(boundaries: seq<nat>, samples: seq<nat>, p: real, r: Option<nat>) {
    && (r == None <==> samples == [] || p > 1.0)
    && (samples != [] && p <= 0.0 ==> r == Some(0))
    && (samples != [] && 0.0 < p <= 1.0 ==>
          r.Some? && exists k: nat, x: nat :: IsFloorOfRank(boundaries, samples, p, k, x, r.value))
  }

  /** The bucket scan meets that description; its answer for an index past the boundaries is never given. */
  method Percentile(h: HistogramSnapshot, p: real, ghost samples: seq<nat>) returns (r: Option<nat>)
    requires Represents(h, samples)
    ensures IsPercentile(h.boundaries, samples, p, r)
  {
    var total := TotalCount(h, samples);
    if total == 0 {
      return None;
    }
    var target := Rank(total, p);
    RankIsCeiling(total, p);
    SortSorts(samples);
    var cumulative := 0;
    for i := 0 to |h.buckets|
      invariant cumulative == Before(samples, h.boundaries, i)
      invariant i > 0 ==> cumulative < target
    {
      BeforeNext(samples, h.boundaries, i);
      cumulative := cumulative + h.buckets[i];
      if cumulative >= target {
        if 1 <= target <= total {
          ghost var kth := Sort(samples)[target - 1];
          FloorOfBucket(samples, h.boundaries, target, i);
          KthOfSort(samples, target, kth);
          assert IsFloorOfRank(h.boundaries, samples, p, target, kth, if i == 0 then 0 else h.boundaries[i - 1]);
        }
        if i == 0 {
          return Some(0);
        } else if i <= |h.boundaries| {
          return Some(h.boundaries[i - 1]);
        } else {
          assert false;  // there is one bucket more than boundaries
          return Some(U64_MAX);
        }
      }
    }
    return None;
  }

  /** If the first `i` buckets hold fewer than `k` samples and bucket `i` makes it `k`, the k-th is in it. */
  lemma FloorOfBucket(samples: seq<nat>, boundaries: seq<nat>, k: nat, i: nat)
    requires Increasing(boundaries) && 1 <= k <= |samples| && i <= |boundaries|
    requires Before(samples, boundaries, i) < k <= Before(samples, boundaries, i + 1)
    ensures |Sort(samples)| == |samples|
    ensures IsBucketOf(boundaries, Sort(samples)[k - 1], i)
    ensures IsFloor(boundaries, Sort(samples)[k - 1], if i == 0 then 0 else boundaries[i - 1])
  {
    SortSorts(samples);
    if i > 0 {
      KthBelow(samples, boundaries[i - 1], k);
    }
    if i < |boundaries| {
      KthBelow(samples, boundaries[i], k);
    }
  }

  /** The description has one answer, and the answers grow with `p`. */
  lemma PercentilesGrow(boundaries: seq<nat>, samples: seq<nat>, p: real, q: real, rp: Option<nat>, rq: Option<nat>)
    requires p <= q
    requires IsPercentile(boundaries, samples, p, rp) && IsPercentile(boundaries, samples, q, rq)
    ensures rp.Some? && rq.Some? ==> rp.value <= rq.value
    ensures p == q ==> rp == rq
  {
    if rp.Some? && rq.Some? && p > 0.0 {
      var j: nat, x: nat :| IsFloorOfRank(boundaries, samples, p, j, x, rp.value);
      var k: nat, y: nat :| IsFloorOfRank(boundaries, samples, q, k, y, rq.value);
      KthNotAbove(samples, p, q, j, k, x, y);
      FloorMonotone(boundaries, x, y, rp.value, rq.value);
    }
  }

  lemma KthNotAbove(samples: seq<nat>, p: real, q: real, j: nat, k: nat, x: nat, y: nat)
    requires p <= q && IsCeiling(|samples|, p, j) && IsCeiling(|samples|, q, k)
    requires IsKthSmallest(samples, j, x) && IsKthSmallest(samples, k, y)
    ensures x <= y && (p == q ==> x == y)
  {
    CeilingMonotone(|samples|, p, q, j, k);
    if p == q {
      CeilingMonotone(|samples|, q, p, k, j);
    }
    KthOfSort(samples, j, x);
    KthOfSort(samples, k, y);
    SortSorts(samples);
  }

  // ---------------------------------------------------------------- the shared object

  class LockFreeHistogram {
    const boundaries: seq<nat>
    const buckets: array<nat>
    ghost var samples: seq<nat>

    ghost predicate Valid()
      reads this, buckets
    {
      Represents(HistogramSnapshot(buckets[..], boundaries), samples)
    }

    constructor (boundaries: seq<nat>)
      requires Increasing(boundaries)
      ensures Valid() && fresh(buckets) && this.boundaries == boundaries && samples == []
    {
      this.boundaries := boundaries;
      buckets := new nat[|boundaries| + 1](_ => 0);
      samples := [];
    }

    /** One microsecond up to ten seconds, by factors of ten. */
    constructor Exponential()
      ensures Valid() && fresh(buckets) && samples == []
      ensures boundaries == [1, 10, 100, 1_000, 10_000, 100_000, 1_000_000, 10_000_000]
    {
      boundaries := [1, 10, 100, 1_000, 10_000, 100_000, 1_000_000, 10_000_000];
      buckets := new nat[9](_ => 0);
      samples := [];
    }

    method FindBucketIndex(value: nat) returns (i: nat)
      requires Increasing(boundaries)
      ensures IsBucketOf(boundaries, value, i)
    {
      for j := 0 to |boundaries|
        invariant forall k :: 0 <= k < j ==> boundaries[k] <= value
      {
        if value < boundaries[j] {
          return j;
        }
      }
      return |boundaries|;
    }

    method Record(value: nat)
      requires Valid()
      modifies this, buckets
      ensures Valid() && samples == old(samples) + [value]
    {
      var i := FindBucketIndex(value);
      forall j | 0 <= j < buckets.Length
        ensures BucketCount(samples + [value], boundaries, j)
                == BucketCount(samples, boundaries, j) + if j == i then 1 else 0
      {
        RecordCounts(samples, boundaries, value, i, j);
      }
      ghost var before := buckets[..];
      buckets[i] := buckets[i] + 1;
      assert buckets[..] == before[i := before[i] + 1];
      samples := samples + [value];
    }

    method Snapshot() returns (h: HistogramSnapshot)
      requires Valid()
      ensures h.boundaries == boundaries && Represents(h, samples)
    {
      h := HistogramSnapshot(buckets[..], boundaries);
    }
  }
}
