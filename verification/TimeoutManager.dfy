/**
 Adaptive timeouts and retry with backoff (src/timeout_manager.rs). Durations are in
 milliseconds: whole ones where the source stores whole ones, reals in between.
 */
module TimeoutManager {
  import opened Wrappers

  datatype OperationType = RaftMessage | Connection | Proposal | Storage | ConfigChange | HealthCheck | Network

  type Factor = r: real | r >= 0.0 witness 0.0

  datatype TimeoutConfig = TimeoutConfig(
    base: nat, max: nat, min: nat, adaptive: bool, multiplier: Factor, maxRetries: nat, jitterFactor: Factor)

  function DefaultConfig(op: OperationType): TimeoutConfig {
    match op
    case RaftMessage => TimeoutConfig(500, 5000, 100, true, 2.0, 2, 0.1)
    case Connection => TimeoutConfig(5000, 30000, 1000, true, 2.0, 3, 0.1)
    case Proposal => TimeoutConfig(2000, 10000, 500, true, 2.0, 2, 0.1)
    case Storage => TimeoutConfig(1000, 15000, 200, true, 2.0, 2, 0.1)
    case ConfigChange => TimeoutConfig(5000, 30000, 1000, true, 2.0, 1, 0.1)
    case HealthCheck => TimeoutConfig(1000, 5000, 200, true, 2.0, 1, 0.1)
    case Network => TimeoutConfig(3000, 15000, 500, true, 2.0, 3, 0.1)
  }

  /** The bounds make sense: a positive minimum, then the base, then the maximum. */
  predicate Sound(cfg: TimeoutConfig) {
    0 < cfg.min <= cfg.base <= cfg.max
  }

  /** The settings every kind of operation starts with meet the conditions used below. */
  lemma DefaultsAreSound(op: OperationType)
    ensures Sound(DefaultConfig(op)) && DefaultConfig(op).min >= 2 && DefaultConfig(op).multiplier >= 1.0
  {
  }

  datatype TimeoutStats = TimeoutStats(
    totalOperations: nat, timeoutCount: nat, successCount: nat, totalDuration: nat, current: nat, adjustments: nat)

  /** The statistics of one kind of operation and when its timeout was last adjusted. */
  datatype Monitor = Monitor(stats: TimeoutStats, lastAdjustment: int)

  const ADJUSTMENT_INTERVAL: int := 30_000

  function NewMonitor(now: int): Monitor {
    Monitor(TimeoutStats(0, 0, 0, 0, 0, 0), now)
  }

  function TimeoutRate(s: TimeoutStats): real {
    if s.totalOperations == 0 then 0.0 else s.timeoutCount as real / s.totalOperations as real
  }

  function AverageDuration(s: TimeoutStats): nat {
    if s.successCount == 0 then 0 else s.totalDuration / s.successCount
  }

  /** A stored value of 0 means that the base timeout is still in force. */
  function InForce(cfg: TimeoutConfig, stored: nat): nat {
    if stored == 0 then cfg.base else stored
  }

  function Min(a: real, b: real): real {
    if a <= b then a else b
  }

  function Max(a: real, b: real): real {
    if a >= b then a else b
  }

  predicate HighRate(rate: real) {
    rate > 0.1
  }

  predicate Calm(rate: real, average: nat) {
    rate < 0.02 && average > 0
  }

  function NewTimeout(cfg: TimeoutConfig, rate: real, average: nat, current: nat): (t: real)
    ensures t >= 0.0
  {
    if HighRate(rate) then
      Min(current as real * 1.5, cfg.max as real)
    else if Calm(rate, average) then
      Max(Max(average as real * 3.0, current as real * 0.8), cfg.min as real)
    else
      current as real
  }

  /** Storing keeps whole milliseconds only, and only a change is stored. */
  function Adjust(cfg: TimeoutConfig, m: Monitor, now: int): Monitor {
    if now - m.lastAdjustment < ADJUSTMENT_INTERVAL then m
    else
      var current := InForce(cfg, m.stats.current);
      var t := NewTimeout(cfg, TimeoutRate(m.stats), AverageDuration(m.stats), current);
      if t == current as real then m
      else Monitor(m.stats.(current := t.Floor, adjustments := m.stats.adjustments + 1), now)
  }

  /** How one attempt ends. */
  datatype Attempt<+V> = Done(value: V, duration: nat) | Errored(duration: nat) | TimedOut

  function Observe<V>(cfg: TimeoutConfig, m: Monitor, a: Attempt<V>, now: int): Monitor {
    match a
    case Done(_, d) =>
      var m' := m.(stats := RecordSuccess(m.stats, d));
      if cfg.adaptive then Adjust(cfg, m', now) else m'
    case Errored(d) =>
      m.(stats := RecordSuccess(m.stats, d))
    case TimedOut =>
      var m' := m.(stats := RecordTimeout(m.stats));
      if cfg.adaptive then Adjust(cfg, m', now) else m'
  }

  function RecordSuccess(s: TimeoutStats, duration: nat): TimeoutStats {
    s.(totalOperations := s.totalOperations + 1, successCount := s.successCount + 1,
       totalDuration := s.totalDuration + duration)
  }

  function RecordTimeout(s: TimeoutStats): TimeoutStats {
    s.(totalOperations := s.totalOperations + 1, timeoutCount := s.timeoutCount + 1)
  }

  /** An attempt and the time of its end. */
  datatype Observation<+V> = Observation(attempt: Attempt<V>, now: int)

  /** After the first `n` attempts of a history. */
  function Watch<V>(cfg: TimeoutConfig, m: Monitor, history: nat -> Observation<V>, n: nat): Monitor {
    if n == 0 then m
    else
      var last := history(n - 1);
      Observe(cfg, Watch(cfg, m, history, n - 1), last.attempt, last.now)
  }

  // ---------------------------------------------------------------- what the statistics count

  function TimedOutOf<V>(history: nat -> Observation<V>, n: nat): nat {
    if n == 0 then 0 else TimedOutOf(history, n - 1) + if history(n - 1).attempt.TimedOut? then 1 else 0
  }

  function FinishedOf<V>(history: nat -> Observation<V>, n: nat): nat {
    if n == 0 then 0 else FinishedOf(history, n - 1) + if history(n - 1).attempt.TimedOut? then 0 else 1
  }

  /** The time taken by those of the first `n` attempts that finished. */
  function TimeSpentOn<V>(history: nat -> Observation<V>, n: nat): nat {
    if n == 0 then 0
    else
      var last := history(n - 1).attempt;
      TimeSpentOn(history, n - 1) + if last.TimedOut? then 0 else last.duration
  }

  /** Over every history the statistics are its counts; an attempt that fails in time has finished. */
  lemma {:induction false} StatisticsAreCounts<V>(
    cfg: TimeoutConfig, start: int, history: nat -> Observation<V>, n: nat)
    ensures var s := Watch(cfg, NewMonitor(start), history, n).stats;
            && s.totalOperations == n == TimedOutOf(history, n) + FinishedOf(history, n)
            && s.timeoutCount == TimedOutOf(history, n)
            && s.successCount == FinishedOf(history, n)
            && s.totalDuration == TimeSpentOn(history, n)
  {
    if n > 0 {
      StatisticsAreCounts(cfg, start, history, n - 1);
    }
  }

  function Smaller(a: nat, b: nat): nat {
    if a <= b then a else b
  }

  function Larger(a: nat, b: nat): nat {
    if a >= b then a else b
  }

  lemma TimesPositive(a: real, b: real, c: real)
    requires c > 0.0
    ensures a > b <==> a * c > b * c
  {
    if a > b {
      assert (a - b) * c > 0.0;
    } else {
      assert (b - a) * c >= 0.0;
    }
  }

  lemma QuotientTimes(c: real, all: real)
    requires all > 0.0
    ensures c / all * all == c
  {
  }

  /** A rate against a bound is its numerator against that share of the denominator. */
  lemma RateAgainst(c: real, all: real, bound: real)
    requires all > 0.0
    ensures c / all > bound <==> c > bound * all
    ensures c / all < bound <==> c < bound * all
  {
    QuotientTimes(c, all);
    TimesPositive(c / all, bound, all);
    TimesPositive(bound, c / all, all);
  }

  lemma TenthAndFiftieth(count: nat, n: nat)
    ensures count as real > 0.1 * n as real <==> 10 * count > n
    ensures count as real < 0.02 * n as real <==> 50 * count < n
  {
    assert (10 * count) as real == 10.0 * count as real && (50 * count) as real == 50.0 * count as real;
  }

  lemma RateThresholds(count: nat, n: nat)
    requires n > 0
    ensures count as real / n as real > 0.1 <==> 10 * count > n
    ensures count as real / n as real < 0.02 <==> 50 * count < n
  {
    RateAgainst(count as real, n as real, 0.1);
    RateAgainst(count as real, n as real, 0.02);
    TenthAndFiftieth(count, n);
  }

  lemma RaisedWhole(cfg: TimeoutConfig, rate: real, average: nat, current: nat)
    requires HighRate(rate) && current > 0
    ensures var t := NewTimeout(cfg, rate, average, current);
            t.Floor == Smaller(3 * current / 2, cfg.max) && (t == current as real <==> current == cfg.max)
  {
  }

  lemma CalmWhole(cfg: TimeoutConfig, rate: real, average: nat, current: nat)
    requires Calm(rate, average) && current > 0
    ensures var t := NewTimeout(cfg, rate, average, current);
            && t.Floor == Larger(Larger(3 * average, 4 * current / 5), cfg.min)
            && (t == current as real <==> current == Larger(3 * average, cfg.min))
  {
  }

  /** One adjustment in whole milliseconds and whole counts. */
  lemma AdjustWhole(cfg: TimeoutConfig, m: Monitor, now: int)
    requires Sound(cfg) && InForce(cfg, m.stats.current) > 0 && m.stats.totalOperations > 0
    ensures var m' := Adjust(cfg, m, now);
            var s, current, average := m.stats, InForce(cfg, m.stats.current), AverageDuration(m.stats);
            var asked := now - m.lastAdjustment >= 30_000;
            var high := asked && 10 * s.timeoutCount > s.totalOperations;
            var calm := asked && 50 * s.timeoutCount < s.totalOperations && average > 0;
            && InForce(cfg, m'.stats.current) == WholeTimeout(cfg, high, calm, average, current)
            && m'.lastAdjustment == if Changes(cfg, high, calm, average, current) then now else m.lastAdjustment
  {
    var current, average, rate := InForce(cfg, m.stats.current), AverageDuration(m.stats), TimeoutRate(m.stats);
    RateThresholds(m.stats.timeoutCount, m.stats.totalOperations);
    if HighRate(rate) {
      RaisedWhole(cfg, rate, average, current);
    } else if Calm(rate, average) {
      CalmWhole(cfg, rate, average, current);
    }
  }

  function WholeTimeout(cfg: TimeoutConfig, high: bool, calm: bool, average: nat, current: nat): nat {
    if high then Smaller(3 * current / 2, cfg.max)
    else if calm then Larger(Larger(3 * average, 4 * current / 5), cfg.min)
    else current
  }

  /** The timeout is not yet where the branch leads to. */
  predicate Changes(cfg: TimeoutConfig, high: bool, calm: bool, average: nat, current: nat) {
    (high && current != cfg.max) || (calm && current != Larger(3 * average, cfg.min))
  }

  /**
   What the next attempt of any history does to the timeout, in whole milliseconds and in terms of
   the history alone. An attempt that succeeds or times out, at least 30 seconds after the last
   change, raises it by half up to the maximum if more than a tenth of all attempts timed out, and
   sets it to the largest of three averages, four fifths of itself and the minimum if fewer than a
   fiftieth did and the average is positive. It counts as a change unless the timeout was already
   where the branch leads to. Until the first change the base timeout is in force.
   */
  lemma NextTimeoutFromHistory<V>(cfg: TimeoutConfig, start: int, history: nat -> Observation<V>, n: nat)
    requires Sound(cfg)
    ensures var m, m' := Watch(cfg, NewMonitor(start), history, n), Watch(cfg, NewMonitor(start), history, n + 1);
            var o, current := history(n), InForce(cfg, m.stats.current);
            var late, done := TimedOutOf(history, n + 1), FinishedOf(history, n + 1);
            var average := if done == 0 then 0 else TimeSpentOn(history, n + 1) / done;
            var asked := cfg.adaptive && !o.attempt.Errored? && o.now - m.lastAdjustment >= 30_000;
            var high, calm := asked && 10 * late > n + 1, asked && 50 * late < n + 1 && average > 0;
            && InForce(cfg, m'.stats.current) ==
               (if high then Smaller(3 * current / 2, cfg.max)
                else if calm then Larger(Larger(3 * average, 4 * current / 5), cfg.min)
                else current)
            && m'.lastAdjustment ==
               (if (high && current != cfg.max) || (calm && current != Larger(3 * average, cfg.min)) then o.now
                else m.lastAdjustment)
    ensures var m := Watch(cfg, NewMonitor(start), history, n);
            m.stats.adjustments == 0 ==> InForce(cfg, m.stats.current) == cfg.base
  {
    TimeoutAtLeastMin(cfg, start, history, n);
    StatisticsAreCounts(cfg, start, history, n);
    var m, o := Watch(cfg, NewMonitor(start), history, n), history(n);
    match o.attempt
    case Done(_, d) => AdjustWhole(cfg, m.(stats := RecordSuccess(m.stats, d)), o.now);
    case Errored(_) =>
    case TimedOut => AdjustWhole(cfg, m.(stats := RecordTimeout(m.stats)), o.now);
  }

  // ---------------------------------------------------------------- range

  /** Every value ever stored is at least the minimum, so the 0 sentinel is never stored. */
  lemma {:induction false} TimeoutAtLeastMin<V>(cfg: TimeoutConfig, start: int, history: nat -> Observation<V>, n: nat)
    requires Sound(cfg)
    ensures var m := Watch(cfg, NewMonitor(start), history, n);
            && (m.stats.current == 0 || m.stats.current >= cfg.min)
            && (m.stats.current == 0 <==> m.stats.adjustments == 0)
            && InForce(cfg, m.stats.current) >= cfg.min
  {
    if n > 0 {
      TimeoutAtLeastMin(cfg, start, history, n - 1);
    }
  }

  /**
   In any run a calm adjustment is the one way past the maximum, and it goes past exactly
   when three times the average duration does.
   */
  lemma PassesMaxIff<V>(cfg: TimeoutConfig, start: int, history: nat -> Observation<V>, n: nat, next: Observation<V>)
    requires Sound(cfg)
    requires InForce(cfg, Watch(cfg, NewMonitor(start), history, n).stats.current) <= cfg.max
    ensures var m := Watch(cfg, NewMonitor(start), history, n);
            var m' := Observe(cfg, m, next.attempt, next.now);
            InForce(cfg, m'.stats.current) > cfg.max <==>
              && cfg.adaptive && !next.attempt.Errored?
              && next.now - m.lastAdjustment >= ADJUSTMENT_INTERVAL
              && Calm(TimeoutRate(m'.stats), AverageDuration(m'.stats))
              && 3 * AverageDuration(m'.stats) > cfg.max
  {
    TimeoutAtLeastMin(cfg, start, history, n);
  }

  predicate DurationWithin<V>(a: Attempt<V>, bound: nat) {
    match a
    case Done(_, d) => d <= bound
    case Errored(d) => d <= bound
    case TimedOut => true
  }

  lemma {:induction false} AverageWithin<V>(
    cfg: TimeoutConfig, start: int, history: nat -> Observation<V>, n: nat, bound: nat)
    requires forall i :: 0 <= i < n ==> DurationWithin(history(i).attempt, bound)
    ensures var s := Watch(cfg, NewMonitor(start), history, n).stats;
            s.totalDuration <= bound * s.successCount && AverageDuration(s) <= bound
  {
    if n > 0 {
      AverageWithin(cfg, start, history, n - 1, bound);
      OneMoreDuration(Watch(cfg, NewMonitor(start), history, n - 1).stats, bound);
    }
    var s := Watch(cfg, NewMonitor(start), history, n).stats;
    if s.successCount > 0 {
      QuotientAtMost(s.totalDuration, s.successCount, bound);
    }
  }

  lemma OneMoreDuration(s: TimeoutStats, bound: nat)
    ensures bound * (s.successCount + 1) == bound * s.successCount + bound
  {
  }

  lemma QuotientAtMost(total: nat, count: nat, bound: nat)
    requires count > 0 && total <= bound * count
    ensures total / count <= bound
  {
    var q := total / count;
    var r := total % count;
    assert total == q * count + r;
    assert q > bound ==> (q - bound - 1) * count >= 0;
  }

  /** As long as no operation takes more than a third of the maximum, the timeout stays within it. */
  lemma {:induction false} TimeoutAtMostMax<V>(cfg: TimeoutConfig, start: int, history: nat -> Observation<V>, n: nat)
    requires Sound(cfg) && forall i :: 0 <= i < n ==> DurationWithin(history(i).attempt, cfg.max / 3)
    ensures InForce(cfg, Watch(cfg, NewMonitor(start), history, n).stats.current) <= cfg.max
  {
    if n > 0 {
      TimeoutAtMostMax(cfg, start, history, n - 1);
      AverageWithin(cfg, start, history, n, cfg.max / 3);
      PassesMaxIff(cfg, start, history, n - 1, history(n - 1));
    }
  }

  /**
   Without that condition the maximum does not hold: four message sends with the default
   settings, half a minute apart and each just within the timeout in force, raise the
   timeout from 500 ms past the maximum of 5000 ms.
   */
  lemma TimeoutPastMax()
    ensures var cfg := DefaultConfig(RaftMessage);
            var m1 := Observe(cfg, NewMonitor(0), Done((), 500), 30_000);
            var m2 := Observe(cfg, m1, Done((), 1_500), 60_000);
            var m3 := Observe(cfg, m2, Done((), 3_000), 90_000);
            var m4 := Observe(cfg, m3, Done((), 4_998), 120_000);
            && InForce(cfg, 0) == 500 && InForce(cfg, m1.stats.current) == 1_500
            && InForce(cfg, m2.stats.current) == 3_000 && InForce(cfg, m3.stats.current) == 4_998
            && InForce(cfg, m4.stats.current) == 7_497 > cfg.max
  {
    var cfg := DefaultConfig(RaftMessage);
    var m1 := Observe(cfg, NewMonitor(0), Done((), 500), 30_000);
    assert m1.stats == TimeoutStats(1, 0, 1, 500, 1_500, 1);
    var m2 := Observe(cfg, m1, Done((), 1_500), 60_000);
    assert m2.stats == TimeoutStats(2, 0, 2, 2_000, 3_000, 2);
    var m3 := Observe(cfg, m2, Done((), 3_000), 90_000);
    assert m3.stats == TimeoutStats(3, 0, 3, 5_000, 4_998, 3);
  }

  // ---------------------------------------------------------------- convergence

  /** One adjustment with fixed statistics, as seen in the timeout in force. */
  function Adjusted(cfg: TimeoutConfig, rate: real, average: nat, current: nat): nat {
    InForce(cfg, NewTimeout(cfg, rate, average, current).Floor)
  }

  function Repeat(cfg: TimeoutConfig, rate: real, average: nat, current: nat, times: nat): nat
    decreases times
  {
    if times == 0 then current else Repeat(cfg, rate, average, Adjusted(cfg, rate, average, current), times - 1)
  }

  /** The monitor after `times` adjustments with no attempt in between, the k-th of them at `clock(k)`. */
  function AdjustRepeatedly(cfg: TimeoutConfig, m: Monitor, clock: nat -> int, times: nat): Monitor {
    if times == 0 then m else Adjust(cfg, AdjustRepeatedly(cfg, m, clock, times - 1), clock(times - 1))
  }

  /** Far enough apart for none of them to be skipped. */
  ghost predicate Spaced(m: Monitor, clock: nat -> int) {
    && clock(0) - m.lastAdjustment >= ADJUSTMENT_INTERVAL
    && forall k: nat :: clock(k + 1) - clock(k) >= ADJUSTMENT_INTERVAL
  }

  lemma {:induction false} RepeatLast(cfg: TimeoutConfig, rate: real, average: nat, current: nat, times: nat)
    ensures Repeat(cfg, rate, average, current, times + 1)
            == Adjusted(cfg, rate, average, Repeat(cfg, rate, average, current, times))
    decreases times
  {
    if times > 0 {
      RepeatLast(cfg, rate, average, Adjusted(cfg, rate, average, current), times - 1);
    }
  }

  /** Adjustments change nothing that they depend on but the timeout itself. */
  lemma {:induction false} AdjustmentsRepeat(cfg: TimeoutConfig, m: Monitor, clock: nat -> int, times: nat)
    requires Sound(cfg) && Spaced(m, clock)
    ensures var m' := AdjustRepeatedly(cfg, m, clock, times);
            && TimeoutRate(m'.stats) == TimeoutRate(m.stats) && AverageDuration(m'.stats) == AverageDuration(m.stats)
            && clock(times) - m'.lastAdjustment >= ADJUSTMENT_INTERVAL
            && InForce(cfg, m'.stats.current) ==
               Repeat(cfg, TimeoutRate(m.stats), AverageDuration(m.stats), InForce(cfg, m.stats.current), times)
  {
    if times > 0 {
      AdjustmentsRepeat(cfg, m, clock, times - 1);
      RepeatLast(cfg, TimeoutRate(m.stats), AverageDuration(m.stats), InForce(cfg, m.stats.current), times - 1);
      AdjustIsAdjusted(cfg, AdjustRepeatedly(cfg, m, clock, times - 1), clock(times - 1));
      assert clock(times - 1 + 1) - clock(times - 1) >= ADJUSTMENT_INTERVAL;
    }
  }

  lemma AdjustIsAdjusted(cfg: TimeoutConfig, m: Monitor, now: int)
    requires now - m.lastAdjustment >= ADJUSTMENT_INTERVAL
    ensures var m' := Adjust(cfg, m, now);
            && TimeoutRate(m'.stats) == TimeoutRate(m.stats) && AverageDuration(m'.stats) == AverageDuration(m.stats)
            && (m'.lastAdjustment == m.lastAdjustment || m'.lastAdjustment == now)
            && InForce(cfg, m'.stats.current) ==
               Adjusted(cfg, TimeoutRate(m.stats), AverageDuration(m.stats), InForce(cfg, m.stats.current))
  {
  }

  function CalmGoal(cfg: TimeoutConfig, average: nat): nat {
    if 3 * average >= cfg.min then 3 * average else cfg.min
  }

  lemma {:induction false} CalmRepeats(cfg: TimeoutConfig, rate: real, average: nat, current: nat, times: nat)
    requires Sound(cfg) && Calm(rate, average) && current > 0
    requires var goal := CalmGoal(cfg, average);
             times >= if current > goal then current - goal else if current < goal then 1 else 0
    ensures Repeat(cfg, rate, average, current, times) == CalmGoal(cfg, average)
    decreases times
  {
    if times > 0 {
      CalmRepeats(cfg, rate, average, Adjusted(cfg, rate, average, current), times - 1);
    }
  }

  /**
   With fixed statistics calm adjustments bring the timeout in force down, or let it jump up, to
   the larger of three averages and the minimum, at least a millisecond a step, and it stays.
   */
  lemma CalmConverges(cfg: TimeoutConfig, m: Monitor, clock: nat -> int, times: nat)
    requires Sound(cfg) && Spaced(m, clock) && Calm(TimeoutRate(m.stats), AverageDuration(m.stats))
    requires var current, goal := InForce(cfg, m.stats.current), CalmGoal(cfg, AverageDuration(m.stats));
             times >= if current > goal then current - goal else if current < goal then 1 else 0
    ensures InForce(cfg, AdjustRepeatedly(cfg, m, clock, times).stats.current)
            == CalmGoal(cfg, AverageDuration(m.stats))
  {
    AdjustmentsRepeat(cfg, m, clock, times);
    CalmRepeats(cfg, TimeoutRate(m.stats), AverageDuration(m.stats), InForce(cfg, m.stats.current), times);
  }

  lemma {:induction false} HighRateClimbs(cfg: TimeoutConfig, rate: real, average: nat, current: nat, times: nat)
    requires Sound(cfg) && HighRate(rate) && (current >= 2 || (current == 1 && cfg.max == 1))
    requires times >= if current > cfg.max then 1 else cfg.max - current
    ensures Repeat(cfg, rate, average, current, times) == cfg.max
    decreases times
  {
    if times > 0 {
      if current > cfg.max && cfg.max == 1 {
        HighRateClimbs(cfg, rate, average, 1, times - 1);
      } else {
        HighRateClimbs(cfg, rate, average, Adjusted(cfg, rate, average, current), times - 1);
      }
    }
  }

  lemma {:induction false} OneMillisecondStalls(cfg: TimeoutConfig, rate: real, average: nat, times: nat)
    requires Sound(cfg) && HighRate(rate)
    ensures Repeat(cfg, rate, average, 1, times) == 1
    decreases times
  {
    if times > 0 {
      OneMillisecondStalls(cfg, rate, average, times - 1);
    }
  }

  /** From the n-th adjustment on the timeout is the maximum. */
  ghost predicate SettledAtMax(cfg: TimeoutConfig, m: Monitor, clock: nat -> int, n: nat) {
    forall times: nat :: times >= n ==> InForce(cfg, AdjustRepeatedly(cfg, m, clock, times).stats.current) == cfg.max
  }

  /**
   With fixed statistics adjustments under a high timeout rate reach the maximum and stay exactly
   when the timeout starts from at least 2 ms (or the maximum is 1 ms): half of one is lost in
   storing.
   */
  lemma HighRateReachesMaxIff(cfg: TimeoutConfig, m: Monitor, clock: nat -> int)
    requires Sound(cfg) && Spaced(m, clock) && HighRate(TimeoutRate(m.stats))
    ensures (exists n :: SettledAtMax(cfg, m, clock, n)) <==> InForce(cfg, m.stats.current) >= 2 || cfg.max == 1
  {
    var rate, average, current := TimeoutRate(m.stats), AverageDuration(m.stats), InForce(cfg, m.stats.current);
    if current >= 2 || cfg.max == 1 {
      forall times: nat | times >= cfg.max + 1
        ensures InForce(cfg, AdjustRepeatedly(cfg, m, clock, times).stats.current) == cfg.max {
        AdjustmentsRepeat(cfg, m, clock, times);
        HighRateClimbs(cfg, rate, average, current, times);
      }
      assert SettledAtMax(cfg, m, clock, cfg.max + 1);
    } else {
      forall n: nat ensures !SettledAtMax(cfg, m, clock, n) {
        AdjustmentsRepeat(cfg, m, clock, n);
        OneMillisecondStalls(cfg, rate, average, n);
      }
    }
  }

  // ---------------------------------------------------------------- backoff

  type Delay = r: real | r >= 0.0 witness 0.0

  /** Jitter in whole milliseconds, for a draw from 0 up to 1. */
  function Jitter(cfg: TimeoutConfig, delay: Delay, draw: real): nat {
    var j := (delay.Floor as real * cfg.jitterFactor * draw).Floor;
    if j < 0 then 0 else j
  }

  function Scale(d: Delay, factor: Factor): Delay {
    ProductMonotone(0.0, d, factor);
    d * factor
  }

  function Jittered(cfg: TimeoutConfig, delay: Delay, draw: real): (d: Delay)
    ensures d >= Scale(delay, cfg.multiplier)
  {
    Scale(delay, cfg.multiplier) + Jitter(cfg, delay, draw) as real
  }

  function NextDelay(cfg: TimeoutConfig, delay: Delay, draw: real): (d: Delay)
    ensures d <= cfg.max as real
  {
    Min(Jittered(cfg, delay, draw), cfg.max as real)
  }

  function Iterate(f: (Delay, nat) -> Delay, start: Delay, k: nat): Delay {
    if k == 0 then start else f(Iterate(f, start, k - 1), k - 1)
  }

  function Backoff(cfg: TimeoutConfig, draw: nat -> real): (Delay, nat) -> Delay {
    (d, i) => NextDelay(cfg, d, draw(i))
  }

  /** The delay after `k` failed attempts; before the first it is the base timeout. */
  function DelayAfter(cfg: TimeoutConfig, draw: nat -> real, k: nat): Delay {
    Iterate(Backoff(cfg, draw), cfg.base as real, k)
  }

  function Grow(factor: Factor): (Delay, nat) -> Delay {
    (d, i) => Scale(d, factor)
  }

  /** `base * factor^k`. */
  function Growth(base: Delay, factor: Factor, k: nat): Delay {
    Iterate(Grow(factor), base, k)
  }

  /** The first `n` sleeps together. */
  function TotalOf(sleeps: seq<real>, n: nat): real
    requires n <= |sleeps|
  {
    if n == 0 then 0.0 else TotalOf(sleeps, n - 1) + sleeps[n - 1]
  }

  function Total(sleeps: seq<real>): real {
    TotalOf(sleeps, |sleeps|)
  }

  ghost predicate Draws(draw: nat -> real) {
    forall k :: 0.0 <= draw(k) < 1.0
  }

  /** `j` is the whole part of the share `draw` of the jitter on a delay of `d`. */
  ghost predicate IsJitter(cfg: TimeoutConfig, d: real, draw: real, j: nat) {
    j as real <= d.Floor as real * cfg.jitterFactor * draw < j as real + 1.0
  }

  /** `next` is `d` scaled and with a jitter of `j` milliseconds, or the maximum. */
  predicate IsBackoff(cfg: TimeoutConfig, d: real, j: nat, next: real) {
    var full := d * cfg.multiplier + j as real;
    next == if full <= cfg.max as real then full else cfg.max as real
  }

  lemma JitterIsWholePart(cfg: TimeoutConfig, d: Delay, draw: real)
    requires 0.0 <= draw < 1.0
    ensures IsJitter(cfg, d, draw, Jitter(cfg, d, draw))
  {
    ScaledDown(d.Floor as real, d, cfg.jitterFactor, draw);
  }

  lemma NextDelayIsBackoff(cfg: TimeoutConfig, d: Delay, draw: real)
    ensures IsBackoff(cfg, d, Jitter(cfg, d, draw), NextDelay(cfg, d, draw))
  {
  }

  /**
   The recurrence of the delays: from the base timeout on, each is the one before times the
   multiplier, plus the whole milliseconds of a random share of the jitter, up to the maximum.
   */
  lemma DelayRecurrence(cfg: TimeoutConfig, draw: nat -> real, k: nat)
    requires Draws(draw)
    ensures DelayAfter(cfg, draw, 0) == cfg.base as real
    ensures var d, next := DelayAfter(cfg, draw, k), DelayAfter(cfg, draw, k + 1);
            exists j: nat :: IsJitter(cfg, d, draw(k), j) && IsBackoff(cfg, d, j, next)
  {
    var d := DelayAfter(cfg, draw, k);
    JitterIsWholePart(cfg, d, draw(k));
    NextDelayIsBackoff(cfg, d, draw(k));
    assert DelayAfter(cfg, draw, k + 1) == NextDelay(cfg, d, draw(k));
  }

  lemma ProductMonotone(a: real, b: real, c: real)
    requires a <= b && c >= 0.0
    ensures a * c <= b * c
  {
  }

  lemma ScaledDown(f: real, g: real, j: real, r: real)
    requires 0.0 <= f <= g && j >= 0.0 && 0.0 <= r <= 1.0
    ensures 0.0 <= f * j * r <= g * j
  {
    ProductMonotone(f, g, j);
    ProductMonotone(0.0, f, j);
    ProductMonotone(r, 1.0, f * j);
    ProductMonotone(0.0, r, f * j);
  }

  lemma JitterAtMost(cfg: TimeoutConfig, delay: Delay, draw: real)
    requires 0.0 <= draw < 1.0
    ensures Jitter(cfg, delay, draw) as real <= delay * cfg.jitterFactor
  {
    ScaledDown(delay.Floor as real, delay, cfg.jitterFactor, draw);
  }

  lemma JitteredAtMost(cfg: TimeoutConfig, d: Delay, draw: real)
    requires 0.0 <= draw < 1.0
    ensures Jittered(cfg, d, draw) <= Scale(d, cfg.multiplier + cfg.jitterFactor)
  {
    JitterAtMost(cfg, d, draw);
    assert d * (cfg.multiplier + cfg.jitterFactor) == d * cfg.multiplier + d * cfg.jitterFactor;
  }

  lemma ScaleMonotone(d: Delay, p: Delay, m: Factor)
    requires d <= p
    ensures Scale(d, m) <= Scale(p, m)
  {
    ProductMonotone(d, p, m);
  }

  lemma ScaleUp(d: Delay, m: Factor)
    requires m >= 1.0
    ensures d <= Scale(d, m)
  {
    ProductMonotone(1.0, m, d);
    assert m * d == d * m;
  }

  lemma ScaleDown(d: Delay, m: Factor)
    requires m < 1.0
    ensures Scale(d, m) <= d
  {
    ProductMonotone(m, 1.0, d);
    assert m * d == d * m;
  }

  lemma NextDelayAtMost(cfg: TimeoutConfig, d: Delay, draw: real, p: Delay)
    requires 0.0 <= draw < 1.0 && d <= p
    ensures NextDelay(cfg, d, draw) <= Scale(p, cfg.multiplier + cfg.jitterFactor)
  {
    JitteredAtMost(cfg, d, draw);
    ScaleMonotone(d, p, cfg.multiplier + cfg.jitterFactor);
  }

  lemma NextDelayAtLeastGrown(cfg: TimeoutConfig, d: Delay, draw: real, p: Delay)
    requires cfg.multiplier >= 1.0 && d >= Min(p, cfg.max as real)
    ensures NextDelay(cfg, d, draw) >= Min(Scale(p, cfg.multiplier), cfg.max as real)
  {
    if d >= p {
      ScaleMonotone(p, d, cfg.multiplier);
    } else {
      ScaleUp(d, cfg.multiplier);
    }
  }

  /** A factor below 1 keeps a growth that starts within the maximum within it. */
  lemma NextDelayAtLeastShrunk(cfg: TimeoutConfig, d: Delay, draw: real, p: Delay)
    requires cfg.multiplier < 1.0 && p <= cfg.max as real && d >= p
    ensures NextDelay(cfg, d, draw) >= Scale(p, cfg.multiplier) && Scale(p, cfg.multiplier) <= cfg.max as real
  {
    ScaleMonotone(p, d, cfg.multiplier);
    ScaleDown(p, cfg.multiplier);
  }

  lemma NextDelayNotShorter(cfg: TimeoutConfig, d: Delay, draw: real)
    requires cfg.multiplier >= 1.0 && d <= cfg.max as real
    ensures d <= NextDelay(cfg, d, draw)
  {
    ScaleUp(d, cfg.multiplier);
  }

  /** What one step of both iterations keeps, the iterations keep. */
  lemma {:induction false} IterateRelated(
    f: (Delay, nat) -> Delay, g: (Delay, nat) -> Delay, a: Delay, b: Delay, related: (Delay, Delay) -> bool, k: nat)
    requires related(a, b)
    requires forall x, y, i :: related(x, y) ==> related(f(x, i), g(y, i))
    ensures related(Iterate(f, a, k), Iterate(g, b, k))
  {
    if k > 0 {
      IterateRelated(f, g, a, b, related, k - 1);
    }
  }

  /** The k-th delay is at most the capped geometric growth by multiplier plus jitter. */
  lemma DelayAtMost(cfg: TimeoutConfig, draw: nat -> real, k: nat)
    requires Draws(draw)
    ensures DelayAfter(cfg, draw, k) <= Growth(cfg.base as real, cfg.multiplier + cfg.jitterFactor, k)
    ensures k > 0 ==> DelayAfter(cfg, draw, k) <= cfg.max as real
  {
    var f, g := Backoff(cfg, draw), Grow(cfg.multiplier + cfg.jitterFactor);
    var related := (x: Delay, y: Delay) => x <= y;
    forall x, y, i | related(x, y) ensures related(f(x, i), g(y, i)) {
      NextDelayAtMost(cfg, x, draw(i), y);
    }
    IterateRelated(f, g, cfg.base as real, cfg.base as real, related, k);
  }

  lemma GrowingDelayAtLeast(cfg: TimeoutConfig, draw: nat -> real, k: nat)
    requires cfg.multiplier >= 1.0
    ensures DelayAfter(cfg, draw, k) >= Min(Growth(cfg.base as real, cfg.multiplier, k), cfg.max as real)
  {
    var f, g := Backoff(cfg, draw), Grow(cfg.multiplier);
    var related := (x: Delay, y: Delay) => x >= Min(y, cfg.max as real);
    forall x, y, i | related(x, y) ensures related(f(x, i), g(y, i)) {
      NextDelayAtLeastGrown(cfg, x, draw(i), y);
    }
    IterateRelated(f, g, cfg.base as real, cfg.base as real, related, k);
  }

  lemma ShrinkingDelayAtLeast(cfg: TimeoutConfig, draw: nat -> real, k: nat)
    requires cfg.multiplier < 1.0 && cfg.base <= cfg.max
    ensures DelayAfter(cfg, draw, k) >= Growth(cfg.base as real, cfg.multiplier, k)
  {
    var f, g := Backoff(cfg, draw), Grow(cfg.multiplier);
    var related := (x: Delay, y: Delay) => x >= y && y <= cfg.max as real;
    forall x, y, i | related(x, y) ensures related(f(x, i), g(y, i)) {
      NextDelayAtLeastShrunk(cfg, x, draw(i), y);
    }
    IterateRelated(f, g, cfg.base as real, cfg.base as real, related, k);
  }

  /** And at least the capped geometric growth by the multiplier alone, also where that shrinks. */
  lemma DelayAtLeast(cfg: TimeoutConfig, draw: nat -> real, k: nat)
    requires cfg.multiplier >= 1.0 || cfg.base <= cfg.max
    ensures DelayAfter(cfg, draw, k) >= Min(Growth(cfg.base as real, cfg.multiplier, k), cfg.max as real)
  {
    if cfg.multiplier >= 1.0 {
      GrowingDelayAtLeast(cfg, draw, k);
    } else {
      ShrinkingDelayAtLeast(cfg, draw, k);
    }
  }

  /** With a multiplier of at least 1 and a base within the maximum, delays never get shorter. */
  lemma DelaysGrow(cfg: TimeoutConfig, draw: nat -> real, k: nat)
    requires cfg.multiplier >= 1.0 && cfg.base <= cfg.max
    ensures DelayAfter(cfg, draw, k) <= DelayAfter(cfg, draw, k + 1) <= cfg.max as real
  {
    var d := DelayAfter(cfg, draw, k);
    if k > 0 {
      assert d == NextDelay(cfg, DelayAfter(cfg, draw, k - 1), draw(k - 1));
    }
    NextDelayNotShorter(cfg, d, draw(k));
    assert DelayAfter(cfg, draw, k + 1) == NextDelay(cfg, d, draw(k));
  }

  /**
   The settings every kind of operation starts with: the timeout in force keeps its minimum, 0 is
   never stored, and the sleeps of a retry never get shorter and stay within the maximum.
   */
  lemma DefaultsBehave<V>(
    op: OperationType, start: int, history: nat -> Observation<V>, n: nat, draw: nat -> real, k: nat)
    ensures var cfg := DefaultConfig(op);
            var m := Watch(cfg, NewMonitor(start), history, n);
            && InForce(cfg, m.stats.current) >= cfg.min >= 2
            && (m.stats.current == 0 <==> m.stats.adjustments == 0)
            && DelayAfter(cfg, draw, k) <= DelayAfter(cfg, draw, k + 1) <= cfg.max as real
  {
    DefaultsAreSound(op);
    TimeoutAtLeastMin(DefaultConfig(op), start, history, n);
    DelaysGrow(DefaultConfig(op), draw, k);
  }

  lemma OneMoreTime(n: nat, x: real)
    ensures (n + 1) as real * x == n as real * x + x
  {
  }

  lemma {:induction false} TotalAtMost(sleeps: seq<real>, n: nat, budget: nat, cap: nat)
    requires n <= |sleeps| && n <= budget && forall i :: 0 <= i < n ==> sleeps[i] <= cap as real
    ensures TotalOf(sleeps, n) <= budget as real * cap as real
  {
    if n > 0 {
      TotalAtMost(sleeps, n - 1, budget - 1, cap);
      OneMoreTime(budget - 1, cap as real);
    } else {
      ProductMonotone(0.0, budget as real, cap as real);
    }
  }

  /** The total is what adds up over any cut of the sleeps and is a single sleep itself. */
  lemma {:induction false} TotalAdds(a: seq<real>, b: seq<real>, sleep: real)
    ensures Total(a + b) == Total(a) + Total(b) && Total([sleep]) == sleep
  {
    TotalOfPrefix(a, b, |a|);
    TotalOfRest(a, b, |b|);
    assert TotalOf([sleep], 1) == TotalOf([sleep], 0) + sleep;
  }

  lemma {:induction false} TotalOfPrefix(a: seq<real>, b: seq<real>, n: nat)
    requires n <= |a|
    ensures TotalOf(a + b, n) == TotalOf(a, n)
  {
    if n > 0 {
      TotalOfPrefix(a, b, n - 1);
    }
  }

  lemma {:induction false} TotalOfRest(a: seq<real>, b: seq<real>, n: nat)
    requires n <= |b|
    ensures TotalOf(a + b, |a| + n) == TotalOf(a + b, |a|) + TotalOf(b, n)
  {
    if n > 0 {
      TotalOfRest(a, b, n - 1);
    }
  }

  /** Every retry slept for the maximum. */
  function SleepBudget(cfg: TimeoutConfig): real {
    cfg.maxRetries as real * cfg.max as real
  }

  /** The k-th sleep is the k-th delay of the backoff. */
  ghost predicate SleptAsPlanned(cfg: TimeoutConfig, draw: nat -> real, sleeps: seq<real>) {
    forall i :: 0 <= i < |sleeps| ==> sleeps[i] == DelayAfter(cfg, draw, i + 1)
  }

  lemma OneMoreSleep(cfg: TimeoutConfig, draw: nat -> real, sleeps: seq<real>)
    requires SleptAsPlanned(cfg, draw, sleeps)
    ensures SleptAsPlanned(cfg, draw, sleeps + [NextDelay(cfg, DelayAfter(cfg, draw, |sleeps|), draw(|sleeps|))])
  {
  }

  lemma SleepsWithinMax(cfg: TimeoutConfig, draw: nat -> real, sleeps: seq<real>)
    requires SleptAsPlanned(cfg, draw, sleeps)
    ensures forall i :: 0 <= i < |sleeps| ==> sleeps[i] <= cfg.max as real
  {
    forall i | 0 <= i < |sleeps| ensures sleeps[i] <= cfg.max as real {
      assert sleeps[i] == NextDelay(cfg, DelayAfter(cfg, draw, i), draw(i));
    }
  }

  lemma SleepsWithinBudget(cfg: TimeoutConfig, draw: nat -> real, sleeps: seq<real>)
    requires |sleeps| <= cfg.maxRetries && SleptAsPlanned(cfg, draw, sleeps)
    ensures Total(sleeps) <= SleepBudget(cfg)
    ensures forall i :: 0 <= i < |sleeps| ==> sleeps[i] <= cfg.max as real
  {
    SleepsWithinMax(cfg, draw, sleeps);
    TotalAtMost(sleeps, |sleeps|, cfg.maxRetries, cfg.max);
  }

  // ---------------------------------------------------------------- the manager

  class TimeoutManager {
    var configs: map<OperationType, TimeoutConfig>
    var monitors: map<OperationType, Monitor>

    ghost predicate Valid()
      reads this
    {
      forall op: OperationType :: op in configs && op in monitors
    }

    constructor (now: int)
      ensures Valid()
      ensures forall op: OperationType :: configs[op] == DefaultConfig(op) && monitors[op] == NewMonitor(now)
    {
      var ops := {RaftMessage, Connection, Proposal, Storage, ConfigChange, HealthCheck, Network};
      assert forall op: OperationType :: op in ops by {
        forall op: OperationType ensures op in ops {
          match op case RaftMessage => case Connection => case Proposal => case Storage =>
          case ConfigChange => case HealthCheck => case Network =>
        }
      }
      configs := map op | op in ops :: DefaultConfig(op);
      monitors := map op | op in ops :: NewMonitor(now);
    }

    method GetCurrentTimeout(op: OperationType) returns (t: nat)
      requires Valid()
      ensures t == InForce(configs[op], monitors[op].stats.current)
    {
      var current := monitors[op].stats.current;
      if current == 0 {
        t := configs[op].base;
      } else {
        t := current;
      }
    }

    method AdjustTimeoutIfNeeded(op: OperationType, now: int)
      requires Valid()
      modifies `monitors
      ensures Valid()
      ensures monitors == old(monitors)[op := Adjust(configs[op], old(monitors)[op], now)]
    {
      var m, config := monitors[op], configs[op];
      if now - m.lastAdjustment < ADJUSTMENT_INTERVAL {
        return;
      }
      var rate, average := TimeoutRate(m.stats), AverageDuration(m.stats);
      var current := GetCurrentTimeout(op);
      var newTimeout;
      if rate > 0.1 {
        newTimeout := Min(current as real * 1.5, config.max as real);
      } else if rate < 0.02 && average > 0 {
        var target, decreased := average as real * 3.0, current as real * 0.8;
        newTimeout := Max(Max(target, decreased), config.min as real);
      } else {
        newTimeout := current as real;
      }
      if newTimeout != current as real {
        var stats := m.stats.(current := newTimeout.Floor, adjustments := m.stats.adjustments + 1);
        monitors := monitors[op := Monitor(stats, now)];
      }
    }

    /** One attempt under the timeout in force; an error still counts as finished in time. */
    method ExecuteWithTimeout<V>(op: OperationType, attempt: Attempt<V>, now: int) returns (r: Option<V>, limit: nat)
      requires Valid()
      modifies `monitors
      ensures Valid()
      ensures limit == InForce(configs[op], old(monitors)[op].stats.current)
      ensures monitors == old(monitors)[op := Observe(configs[op], old(monitors)[op], attempt, now)]
      ensures r == if attempt.Done? then Some(attempt.value) else None
    {
      limit := GetCurrentTimeout(op);
      var m := monitors[op];
      match attempt
      case Done(value, duration) =>
        monitors := monitors[op := m.(stats := RecordSuccess(m.stats, duration))];
        if configs[op].adaptive {
          AdjustTimeoutIfNeeded(op, now);
        }
        r := Some(value);
      case Errored(duration) =>
        monitors := monitors[op := m.(stats := RecordSuccess(m.stats, duration))];
        r := None;
      case TimedOut =>
        monitors := monitors[op := m.(stats := RecordTimeout(m.stats))];
        if configs[op].adaptive {
          AdjustTimeoutIfNeeded(op, now);
        }
        r := None;
    }

    /**
     Retries until a success or the retry budget is used up, sleeping in between. `history`
     gives the outcome and end time of each attempt, `draw` the random draw of each jitter.
     */
    method ExecuteWithRetry<V>(op: OperationType, history: nat -> Observation<V>, draw: nat -> real)
      returns (r: Option<V>, attempts: nat, sleeps: seq<real>)
      requires Valid()
      modifies `monitors
      ensures Valid()
      ensures 1 <= attempts <= configs[op].maxRetries + 1 && |sleeps| == attempts - 1
      ensures forall i :: 0 <= i < attempts - 1 ==> !history(i).attempt.Done?
      ensures r == if history(attempts - 1).attempt.Done? then Some(history(attempts - 1).attempt.value) else None
      ensures r == None ==> attempts == configs[op].maxRetries + 1
      ensures SleptAsPlanned(configs[op], draw, sleeps)
      ensures forall i :: 0 <= i < |sleeps| ==> sleeps[i] <= configs[op].max as real
      ensures Total(sleeps) <= SleepBudget(configs[op])
      ensures monitors == old(monitors)[op := Watch(configs[op], old(monitors)[op], history, attempts)]
    {
      var config := configs[op];
      var delay: Delay := config.base as real;
      var retryCount := 0;
      sleeps := [];
      while true
        invariant Valid() && retryCount == |sleeps| <= config.maxRetries
        invariant forall i :: 0 <= i < retryCount ==> !history(i).attempt.Done?
        invariant delay == DelayAfter(config, draw, retryCount)
        invariant SleptAsPlanned(config, draw, sleeps)
        invariant monitors == old(monitors)[op := Watch(config, old(monitors)[op], history, retryCount)]
        decreases config.maxRetries - retryCount
      {
        var o := history(retryCount);
        var result, _ := ExecuteWithTimeout(op, o.attempt, o.now);
        SleepsWithinBudget(config, draw, sleeps);
        if result.Some? {
          return result, retryCount + 1, sleeps;
        }
        retryCount := retryCount + 1;
        if retryCount > config.maxRetries {
          return None, retryCount, sleeps;
        }
        OneMoreSleep(config, draw, sleeps);
        delay := NextDelay(config, delay, draw(retryCount - 1));
        sleeps := sleeps + [delay];
      }
    }
  }
}
