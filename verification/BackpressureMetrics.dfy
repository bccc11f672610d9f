/**
 The counters beside the bounded channel (src/backpressure.rs): the integer moving average
 of latencies, the lock-free maximum, and the aggregate over all queues.
 */
module BackpressureMetrics {

  // ---------------------------------------------------------------- moving average

  /** One update; an average of 0 counts as "no average yet". */
  function NextAverage(current: nat, sample: nat): (next: nat)
    ensures current == 0 ==> next == sample
    ensures current > 0 ==> 8 * next <= 7 * current + sample < 8 * next + 8
  {
    if current == 0 then sample else (current * 7 + sample) / 8
  }

  /** The average after a whole history of samples. */
  function Average(samples: seq<nat>): nat {
    if samples == [] then 0 else NextAverage(Average(samples[..|samples| - 1]), samples[|samples| - 1])
  }

  lemma {:induction false} AverageWithinSamples(samples: seq<nat>, lo: nat, hi: nat)
    requires samples != []
    requires forall i :: 0 <= i < |samples| ==> lo <= samples[i] <= hi
    ensures lo <= Average(samples) <= hi
  {
    var earlier := samples[..|samples| - 1];
    if earlier != [] {
      AverageWithinSamples(earlier, lo, hi);
    }
  }

  /** The average without rounding, restarted where the integer average is. */
  function ExactAverage(samples: seq<nat>): real {
    if samples == [] then 0.0
    else
      var earlier, last := samples[..|samples| - 1], samples[|samples| - 1] as real;
      if Average(earlier) == 0 then last else ExactAverage(earlier) * 0.875 + last * 0.125
  }

  /** Over any history rounding costs at most 7 in all: errors do not add up. */
  lemma {:induction false} AverageTracksExact(samples: seq<nat>)
    ensures Average(samples) as real <= ExactAverage(samples) <= Average(samples) as real + 7.0
  {
    if samples != [] {
      AverageTracksExact(samples[..|samples| - 1]);
    }
  }

  /** Integer division stalls the average anywhere up to 7 below a steady sample. */
  lemma AverageStalls(current: nat, sample: nat)
    requires current > 0
    ensures NextAverage(current, sample) == current <==> current <= sample < current + 8
  {
  }

  function Feed(current: nat, sample: nat, times: nat): nat
    decreases times
  {
    if times == 0 then current else Feed(NextAverage(current, sample), sample, times - 1)
  }

  /** A steady sample pulls any average to within 7 below it, and the average stays there. */
  lemma {:induction false} AverageSettles(current: nat, sample: nat, times: nat)
    requires times >= if current > sample then current - sample else sample - current
    ensures sample - 7 <= Feed(current, sample, times) <= sample
    decreases times
  {
    if times > 0 {
      var next := NextAverage(current, sample);
      if current <= sample < current + 8 && current > 0 {
        AverageStays(current, sample, times);
      } else {
        AverageSettles(next, sample, times - 1);
      }
    }
  }

  lemma {:induction false} AverageStays(current: nat, sample: nat, times: nat)
    requires 0 < current <= sample < current + 8
    ensures Feed(current, sample, times) == current
    decreases times
  {
    if times > 0 {
      AverageStays(current, sample, times - 1);
    }
  }

  class LatencyMeter {
    var average: nat
    ghost var samples: seq<nat>

    ghost predicate Valid()
      reads this
    {
      average == Average(samples)
    }

    constructor ()
      ensures Valid() && samples == []
    {
      average, samples := 0, [];
    }

    method RecordLatency(latency: nat)
      requires Valid()
      modifies this
      ensures Valid() && samples == old(samples) + [latency]
    {
      if average == 0 {
        average := latency;
      } else {
        average := (average * 7 + latency) / 8;
      }
      samples := samples + [latency];
      assert samples[..|samples| - 1] == old(samples);
    }
  }

  // ---------------------------------------------------------------- aggregate

  datatype Snapshot = Snapshot(
    totalSent: nat, totalReceived: nat, totalDropped: nat, totalTimeouts: nat, currentPending: nat,
    maxPendingReached: nat, avgLatency: nat)

  function Sent(q: Snapshot): nat { q.totalSent }

  function Received(q: Snapshot): nat { q.totalReceived }

  function Dropped(q: Snapshot): nat { q.totalDropped }

  function Timeouts(q: Snapshot): nat { q.totalTimeouts }

  function Pending(q: Snapshot): nat { q.currentPending }

  /** A queue's share of the latency sum. */
  function Weight(q: Snapshot): nat {
    q.avgLatency * q.totalReceived
  }

  /** The sum of one of those over the first `n` queues. */
  function SumOf(queues: seq<Snapshot>, n: nat, part: Snapshot -> nat): nat
    requires n <= |queues|
  {
    if n == 0 then 0 else SumOf(queues, n - 1, part) + part(queues[n - 1])
  }

  lemma {:induction false} SumOfFront(a: seq<Snapshot>, b: seq<Snapshot>, n: nat, part: Snapshot -> nat)
    requires n <= |a|
    ensures SumOf(a + b, n, part) == SumOf(a, n, part)
  {
    if n > 0 {
      SumOfFront(a, b, n - 1, part);
    }
  }

  lemma {:induction false} SumOfRest(a: seq<Snapshot>, b: seq<Snapshot>, n: nat, part: Snapshot -> nat)
    requires n <= |b|
    ensures SumOf(a + b, |a| + n, part) == SumOf(a + b, |a|, part) + SumOf(b, n, part)
  {
    if n > 0 {
      SumOfRest(a, b, n - 1, part);
    }
  }

  /** What makes them sums: they add up over any two groups of queues, and of one queue are its own counts. */
  lemma {:induction false} SumsAddUp(a: seq<Snapshot>, b: seq<Snapshot>, q: Snapshot, part: Snapshot -> nat)
    ensures SumOf(a + b, |a + b|, part) == SumOf(a, |a|, part) + SumOf(b, |b|, part)
    ensures SumOf([q], 1, part) == part(q)
    ensures SumOf([q], 1, Sent) == q.totalSent && SumOf([q], 1, Received) == q.totalReceived
    ensures SumOf([q], 1, Dropped) == q.totalDropped && SumOf([q], 1, Timeouts) == q.totalTimeouts
    ensures SumOf([q], 1, Pending) == q.currentPending && SumOf([q], 1, Weight) == q.avgLatency * q.totalReceived
  {
    SumOfFront(a, b, |a|, part);
    SumOfRest(a, b, |b|, part);
    SumOfOne(q, part);
    SumOfOne(q, Sent);
    SumOfOne(q, Received);
    SumOfOne(q, Dropped);
    SumOfOne(q, Timeouts);
    SumOfOne(q, Pending);
    SumOfOne(q, Weight);
  }

  lemma SumOfOne(q: Snapshot, part: Snapshot -> nat)
    ensures SumOf([q], 1, part) == part(q)
  {
    assert SumOf([q], 0, part) == 0;
  }

  /** Every queue that has received anything has an average within `lo` and `hi`. */
  ghost predicate AveragesWithin(queues: seq<Snapshot>, lo: nat, hi: nat) {
    forall i :: 0 <= i < |queues| && queues[i].totalReceived > 0 ==> lo <= queues[i].avgLatency <= hi
  }

  lemma MulMonotone(a: nat, b: nat, c: nat)
    requires a <= b
    ensures a * c <= b * c
  {
    assert (b - a) * c >= 0;
  }

  lemma {:induction false} LatencyWithinQueues(queues: seq<Snapshot>, n: nat, lo: nat, hi: nat)
    requires n <= |queues| && AveragesWithin(queues, lo, hi)
    ensures lo * SumOf(queues, n, Received) <= SumOf(queues, n, Weight) <= hi * SumOf(queues, n, Received)
  {
    if n > 0 {
      LatencyWithinQueues(queues, n - 1, lo, hi);
      WeightWithin(queues[n - 1], lo, hi);
      Distribute(lo, SumOf(queues, n - 1, Received), queues[n - 1].totalReceived);
      Distribute(hi, SumOf(queues, n - 1, Received), queues[n - 1].totalReceived);
    }
  }

  lemma WeightWithin(q: Snapshot, lo: nat, hi: nat)
    requires q.totalReceived > 0 ==> lo <= q.avgLatency <= hi
    ensures lo * q.totalReceived <= Weight(q) <= hi * q.totalReceived
  {
    if q.totalReceived > 0 {
      MulMonotone(lo, q.avgLatency, q.totalReceived);
      MulMonotone(q.avgLatency, hi, q.totalReceived);
    }
  }

  lemma Distribute(a: nat, b: nat, c: nat)
    ensures a * (b + c) == a * b + a * c
  {
  }

  lemma QuotientAtLeast(q: nat, r: nat, count: nat, lo: nat)
    requires r < count && lo * count <= q * count + r
    ensures lo <= q
  {
    if q < lo {
      Distribute(count, q, 1);
      MulMonotone(q + 1, lo, count);
    }
  }

  lemma QuotientAtMost(q: nat, r: nat, count: nat, hi: nat)
    requires count > 0 && q * count + r <= hi * count
    ensures q <= hi
  {
    if hi < q {
      Distribute(count, hi, 1);
      MulMonotone(hi + 1, q, count);
    }
  }

  lemma QuotientWithin(total: nat, count: nat, lo: nat, hi: nat)
    requires count > 0
    requires lo * count <= total <= hi * count
    ensures lo <= total / count <= hi
  {
    QuotientAtLeast(total / count, total % count, count, lo);
    QuotientAtMost(total / count, total % count, count, hi);
  }

  /** The mean over all queues, and 0 without any message received. */
  function MeanLatency(queues: seq<Snapshot>): nat {
    var received := SumOf(queues, |queues|, Received);
    if received == 0 then 0 else SumOf(queues, |queues|, Weight) / received
  }

  /** The mean of `count` things that come to `total`, rounded down; 0 of nothing. */
  predicate IsMean(mean: nat, total: nat, count: nat) {
    if count == 0 then mean == 0 else mean * count <= total < mean * count + count
  }

  lemma MeanLatencyIsMean(queues: seq<Snapshot>)
    ensures IsMean(MeanLatency(queues), SumOf(queues, |queues|, Weight), SumOf(queues, |queues|, Received))
  {
  }

  /** The received-weighted mean lies between the smallest and the largest per-queue average. */
  lemma AggregateLatencyWithin(queues: seq<Snapshot>, lo: nat, hi: nat)
    requires AveragesWithin(queues, lo, hi)
    requires SumOf(queues, |queues|, Received) > 0
    ensures lo <= MeanLatency(queues) <= hi
  {
    LatencyWithinQueues(queues, |queues|, lo, hi);
    QuotientWithin(SumOf(queues, |queues|, Weight), SumOf(queues, |queues|, Received), lo, hi);
  }

  lemma AggregateLatencyWithinAll(queues: seq<Snapshot>)
    ensures forall lo: nat, hi: nat :: AveragesWithin(queues, lo, hi) && SumOf(queues, |queues|, Received) > 0 ==>
              lo <= MeanLatency(queues) <= hi
  {
    forall lo: nat, hi: nat | AveragesWithin(queues, lo, hi) && SumOf(queues, |queues|, Received) > 0
      ensures lo <= MeanLatency(queues) <= hi
    {
      AggregateLatencyWithin(queues, lo, hi);
    }
  }

  lemma IdleWeighsNothing(q: Snapshot)
    ensures q.totalReceived == 0 ==> Weight(q) == 0
  {
  }

  ghost predicate IsHighest(queues: seq<Snapshot>, n: nat, highest: nat)
    requires n <= |queues|
  {
    && (forall j :: 0 <= j < n ==> queues[j].maxPendingReached <= highest)
    && (highest == 0 || exists q :: q in queues && q.maxPendingReached == highest)
  }

  lemma OneMoreHighest(queues: seq<Snapshot>, n: nat, highest: nat)
    requires n < |queues| && IsHighest(queues, n, highest)
    ensures var next := queues[n].maxPendingReached;
            IsHighest(queues, n + 1, if highest < next then next else highest)
  {
    assert queues[n] in queues;
  }

  /** Each count of `total` is the sum over the first `n` queues, and the maximum is theirs. */
  ghost predicate IsTotal(total: Snapshot, queues: seq<Snapshot>, n: nat)
    requires n <= |queues|
  {
    && total.totalSent == SumOf(queues, n, Sent)
    && total.totalReceived == SumOf(queues, n, Received)
    && total.totalDropped == SumOf(queues, n, Dropped)
    && total.totalTimeouts == SumOf(queues, n, Timeouts)
    && total.currentPending == SumOf(queues, n, Pending)
    && IsHighest(queues, n, total.maxPendingReached)
  }

  /** The counts of one more queue on top. */
  function Plus(total: Snapshot, q: Snapshot): Snapshot {
    Snapshot(total.totalSent + q.totalSent, total.totalReceived + q.totalReceived,
             total.totalDropped + q.totalDropped, total.totalTimeouts + q.totalTimeouts,
             total.currentPending + q.currentPending,
             if total.maxPendingReached < q.maxPendingReached then q.maxPendingReached else total.maxPendingReached,
             total.avgLatency)
  }

  lemma PlusIsTotal(total: Snapshot, queues: seq<Snapshot>, n: nat)
    requires n < |queues| && IsTotal(total, queues, n)
    ensures IsTotal(Plus(total, queues[n]), queues, n + 1)
  {
    OneMoreHighest(queues, n, total.maxPendingReached);
  }

  /** Totals are sums, the maximum is a maximum, the latency is the received-weighted mean. */
  method AggregateMetrics(queues: seq<Snapshot>) returns (total: Snapshot)
    ensures IsTotal(total, queues, |queues|)
    ensures IsMean(total.avgLatency, SumOf(queues, |queues|, Weight), total.totalReceived)
    ensures forall lo: nat, hi: nat :: AveragesWithin(queues, lo, hi) && total.totalReceived > 0 ==>
              lo <= total.avgLatency <= hi
  {
    total := Snapshot(0, 0, 0, 0, 0, 0, 0);
    var latencySum: nat, latencyCount: nat := 0, 0;
    for i := 0 to |queues|
      invariant IsTotal(total, queues, i) && total.avgLatency == 0
      invariant latencySum == SumOf(queues, i, Weight) && latencyCount == SumOf(queues, i, Received)
    {
      var q := queues[i];
      IdleWeighsNothing(q);
      PlusIsTotal(total, queues, i);
      total := Plus(total, q);
      if q.totalReceived > 0 {
        latencySum := latencySum + Weight(q);
        latencyCount := latencyCount + q.totalReceived;
      }
    }
    if latencyCount > 0 {
      total := total.(avgLatency := latencySum / latencyCount);
    }
    MeanLatencyIsMean(queues);
    AggregateLatencyWithinAll(queues);
  }

  // ---------------------------------------------------------------- lock-free maximum

  /** A `record_pending` call in its compare-exchange loop: its count and the value it last saw. */
  datatype Attempt = Attempt(count: nat, seen: nat)

  datatype MaxCell = MaxCell(cell: nat, attempts: map<nat, Attempt>, recorded: seq<nat>)

  /** `Exchange` may fail spuriously, as a weak compare-exchange may. */
  datatype MaxStep = Load(thread: nat, count: nat) | Exchange(thread: nat, spurious: bool)

  /** The loop test: go round again with a fresh value, or leave with the call complete. */
  function Look(m: MaxCell, thread: nat, count: nat): MaxCell {
    if count > m.cell then
      m.(attempts := m.attempts[thread := Attempt(count, m.cell)])
    else
      m.(attempts := m.attempts - {thread}, recorded := m.recorded + [count])
  }

  function NextMax(m: MaxCell, step: MaxStep): MaxCell {
    match step
    case Load(i, count) =>
      if i in m.attempts then m else Look(m, i, count)
    case Exchange(i, spurious) =>
      if i !in m.attempts then m
      else
        var a := m.attempts[i];
        if m.cell == a.seen && !spurious then
          MaxCell(a.count, m.attempts - {i}, m.recorded + [a.count])
        else
          Look(m, i, a.count)
  }

  function RunMax(m: MaxCell, steps: seq<MaxStep>): MaxCell
    decreases |steps|
  {
    if steps == [] then m else RunMax(NextMax(m, steps[0]), steps[1..])
  }

  ghost predicate IsMaximum(m: nat, xs: seq<nat>) {
    (forall x :: x in xs ==> x <= m) && (m == 0 || m in xs)
  }

  ghost predicate MaxInv(m: MaxCell) {
    && IsMaximum(m.cell, m.recorded)
    && forall i :: i in m.attempts ==> m.attempts[i].seen < m.attempts[i].count
  }

  lemma {:induction false} RunMaxKeeps(m: MaxCell, steps: seq<MaxStep>)
    requires MaxInv(m)
    ensures MaxInv(RunMax(m, steps)) && m.cell <= RunMax(m, steps).cell
    decreases |steps|
  {
    if steps != [] {
      var m' := NextMax(m, steps[0]);
      assert MaxInv(m') && m.cell <= m'.cell;
      RunMaxKeeps(m', steps[1..]);
    }
  }

  /** Whatever the interleaving and the spurious failures, no recorded maximum is ever lost. */
  lemma LockFreeMaximum(steps: seq<MaxStep>)
    ensures var m := RunMax(MaxCell(0, map[], []), steps); IsMaximum(m.cell, m.recorded)
  {
    RunMaxKeeps(MaxCell(0, map[], []), steps);
  }
}
