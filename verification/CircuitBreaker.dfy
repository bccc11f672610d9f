/**
 The circuit breaker (src/circuit_breaker.rs). `Allow`, `Succeed` and `Fail` are the three
 decisions as functions of the state and the clock; the class keeps the fields in place and
 cleans its deque from the front. Every method is one atomic step.
 */
module CircuitBreaker {
  import opened Wrappers

  /** The failure window: 60 seconds, in nanoseconds. */
  const WINDOW: int := 60_000_000_000

  datatype BreakerState = Closed | Open | HalfOpen

  datatype Config = Config(failureThreshold: nat, timeout: nat, successThreshold: nat, halfOpenMaxRequests: nat)

  datatype Breaker = Breaker(
    state: BreakerState,
    lastFailure: Option<int>,
    halfOpenRequests: nat,
    halfOpenSuccesses: nat,
    recentFailures: seq<int>,
    openedCount: nat,
    closedCount: nat
  )

  function NewBreaker(): Breaker {
    Breaker(Closed, None, 0, 0, [], 0, 0)
  }

  /** The times still inside the window that ends at `now`, in order. */
  function InWindow(times: seq<int>, now: int): seq<int> {
    InWindowFrom(times, now, 0)
  }

  function InWindowFrom(times: seq<int>, now: int, i: nat): seq<int>
    requires i <= |times|
    decreases |times| - i
  {
    if i == |times| then []
    else (if times[i] < now - WINDOW then [] else [times[i]]) + InWindowFrom(times, now, i + 1)
  }

  ghost predicate Ordered(times: seq<int>) {
    forall i, j :: 0 <= i < j < |times| ==> times[i] <= times[j]
  }

  /** A request is let through, and what that does to the state. */
  function Allow(cfg: Config, b: Breaker, now: int): (Breaker, bool) {
    match b.state
    case Closed => (b, true)
    case Open =>
      if b.lastFailure.Some? && now - b.lastFailure.value > cfg.timeout then
        (b.(state := HalfOpen, halfOpenRequests := 0, halfOpenSuccesses := 0), true)
      else
        (b, false)
    case HalfOpen =>
      if b.halfOpenRequests < cfg.halfOpenMaxRequests then
        (b.(halfOpenRequests := b.halfOpenRequests + 1), true)
      else
        (b, false)
  }

  function Succeed(cfg: Config, b: Breaker, now: int): Breaker {
    match b.state
    case HalfOpen =>
      var b' := b.(halfOpenSuccesses := b.halfOpenSuccesses + 1);
      if b'.halfOpenSuccesses >= cfg.successThreshold then Close(b') else b'
    case _ =>
      b.(recentFailures := InWindow(b.recentFailures, now))
  }

  function Fail(cfg: Config, b: Breaker, now: int): Breaker {
    var b' := b.(lastFailure := Some(now), recentFailures := InWindow(b.recentFailures + [now], now));
    match b.state
    case Closed => if |b'.recentFailures| >= cfg.failureThreshold then Trip(b') else b'
    case HalfOpen => Trip(b')
    case Open => b'
  }

  function Trip(b: Breaker): Breaker {
    b.(state := Open, openedCount := b.openedCount + 1)
  }

  function Close(b: Breaker): Breaker {
    b.(state := Closed, lastFailure := None, recentFailures := [], closedCount := b.closedCount + 1)
  }

  function ForceOpen(b: Breaker, now: int): Breaker {
    Trip(b).(lastFailure := Some(now))
  }

  // ---------------------------------------------------------------- the window

  lemma {:induction false} InWindowFromAppend(times: seq<int>, t: int, now: int, i: nat)
    requires i <= |times|
    ensures InWindowFrom(times + [t], now, i) == InWindowFrom(times, now, i) + if t < now - WINDOW then [] else [t]
    decreases |times| - i
  {
    if i < |times| {
      InWindowFromAppend(times, t, now, i + 1);
    } else {
      assert InWindowFrom(times + [t], now, i + 1) == [];
    }
  }

  lemma InWindowAppend(times: seq<int>, t: int, now: int)
    ensures InWindow(times + [t], now) == InWindow(times, now) + if t < now - WINDOW then [] else [t]
  {
    InWindowFromAppend(times, t, now, 0);
  }

  lemma {:induction false} InWindowFromShift(times: seq<int>, now: int, i: nat)
    requires i < |times|
    ensures InWindowFrom(times, now, i + 1) == InWindowFrom(times[1..], now, i)
    decreases |times| - i
  {
    if i + 1 < |times| {
      InWindowFromShift(times, now, i + 1);
    }
  }

  lemma {:induction false} InWindowFromAll(times: seq<int>, now: int, i: nat)
    requires i <= |times| && forall j :: i <= j < |times| ==> times[j] >= now - WINDOW
    ensures InWindowFrom(times, now, i) == times[i..]
    decreases |times| - i
  {
    if i < |times| {
      InWindowFromAll(times, now, i + 1);
    }
  }

  /** On ordered times, looking at the front is enough to decide what to drop. */
  lemma InWindowFromFront(times: seq<int>, now: int)
    requires Ordered(times) && times != []
    ensures times[0] < now - WINDOW ==> InWindow(times, now) == InWindow(times[1..], now)
    ensures times[0] >= now - WINDOW ==> InWindow(times, now) == times
  {
    if times[0] < now - WINDOW {
      InWindowFromShift(times, now, 0);
    } else {
      InWindowFromAll(times, now, 0);
    }
  }

  /** Places in the history of the failures of the last 60 seconds. */
  function LastMinute(failures: seq<int>, now: int): set<nat> {
    set i: nat | i < |failures| && now - failures[i] <= 60_000_000_000
  }

  lemma LastMinuteAppend(failures: seq<int>, last: int, now: int)
    ensures LastMinute(failures + [last], now)
            == LastMinute(failures, now) + if now - last <= 60_000_000_000 then {|failures|} else {}
  {
    var all := failures + [last];
    forall i: nat ensures i in LastMinute(all, now) <==>
                      i in LastMinute(failures, now) || (i == |failures| && now - last <= 60_000_000_000) {
      assert i < |failures| ==> all[i] == failures[i];
    }
  }

  /** The window counts the failures at most 60 seconds old, one exactly that old included. */
  lemma {:induction false} WindowCountsLastMinute(failures: seq<int>, now: int)
    ensures |InWindow(failures, now)| == |LastMinute(failures, now)|
  {
    if failures == [] {
      assert LastMinute(failures, now) == {};
    } else {
      var earlier, last := failures[..|failures| - 1], failures[|failures| - 1];
      assert failures == earlier + [last];
      WindowCountsLastMinute(earlier, now);
      InWindowAppend(earlier, last, now);
      LastMinuteAppend(earlier, last, now);
      assert |earlier| !in LastMinute(earlier, now);
    }
  }

  /** Cleaning at an earlier time first makes no difference, except that it may leave more. */
  lemma {:induction false} InWindowTwice(times: seq<int>, earlier: int, now: int)
    requires earlier <= now
    ensures InWindow(InWindow(times, earlier), now) == InWindow(times, now)
    ensures |InWindow(times, now)| <= |InWindow(times, earlier)|
  {
    if times != [] {
      var rest, last := times[..|times| - 1], times[|times| - 1];
      assert times == rest + [last];
      InWindowTwice(rest, earlier, now);
      InWindowAppend(rest, last, earlier);
      InWindowAppend(rest, last, now);
      if last < earlier - WINDOW {
        assert InWindow(times, earlier) == InWindow(rest, earlier);
      } else {
        InWindowAppend(InWindow(rest, earlier), last, now);
      }
    }
  }

  /** Times in order, none later than `clock`. */
  ghost predicate Timeline(times: seq<int>, clock: int) {
    Ordered(times) && (times != [] ==> times[|times| - 1] <= clock)
  }

  lemma TimelineAppend(times: seq<int>, clock: int, now: int)
    requires Timeline(times, clock) && clock <= now
    ensures Timeline(times, now) && Timeline(times + [now], now)
  {
  }

  lemma {:induction false} InWindowTimeline(times: seq<int>, clock: int, now: int)
    requires Timeline(times, clock)
    ensures Timeline(InWindow(times, now), clock)
  {
    if times != [] {
      var rest, last := times[..|times| - 1], times[|times| - 1];
      assert times == rest + [last];
      InWindowTimeline(rest, last, now);
      InWindowAppend(rest, last, now);
      if last < now - WINDOW {
        assert InWindow(times, now) == InWindow(rest, now);
      } else {
        TimelineAppend(InWindow(rest, now), last, last);
      }
    }
  }

  // ---------------------------------------------------------------- the shared object

  datatype CallResult<+V> = Rejected | Returned(value: V) | Failed

  class CircuitBreaker {
    const config: Config
    var state: BreakerState
    var lastFailureTime: Option<int>
    var halfOpenRequests: nat
    var halfOpenSuccesses: nat
    var recentFailures: seq<int>
    var totalRequests: nat
    var totalSuccesses: nat
    var totalFailures: nat
    var rejectedRequests: nat
    var openedCount: nat
    var closedCount: nat

    ghost function View(): Breaker
      reads this
    {
      Breaker(state, lastFailureTime, halfOpenRequests, halfOpenSuccesses, recentFailures, openedCount, closedCount)
    }

    /** The deque is in time order and nothing in it is later than `clock`. */
    ghost predicate Valid(clock: int)
      reads this
    {
      Timeline(recentFailures, clock)
    }

    constructor (config: Config)
      ensures this.config == config && View() == NewBreaker() && forall clock :: Valid(clock)
      ensures totalRequests == totalSuccesses == totalFailures == rejectedRequests == 0
    {
      this.config := config;
      state, lastFailureTime, recentFailures := Closed, None, [];
      halfOpenRequests, halfOpenSuccesses := 0, 0;
      totalRequests, totalSuccesses, totalFailures, rejectedRequests := 0, 0, 0, 0;
      openedCount, closedCount := 0, 0;
    }

    method AllowRequest(now: int) returns (allowed: bool)
      requires Valid(now)
      modifies `state, `halfOpenRequests, `halfOpenSuccesses
      ensures Valid(now)
      ensures (View(), allowed) == Allow(config, old(View()), now)
      ensures old(state) == Closed ==> allowed && View() == old(View())
    {
      match state
      case Closed =>
        return true;
      case Open =>
        if lastFailureTime.Some? && now - lastFailureTime.value > config.timeout {
          state := HalfOpen;
          halfOpenRequests := 0;
          halfOpenSuccesses := 0;
          return true;
        }
        return false;
      case HalfOpen =>
        if halfOpenRequests < config.halfOpenMaxRequests {
          halfOpenRequests := halfOpenRequests + 1;
          return true;
        }
        return false;
    }

    /** Popping stale failures off the front leaves exactly the failures in the window. */
    method CleanOldFailures(now: int)
      requires Valid(now)
      modifies `recentFailures
      ensures Valid(now)
      ensures recentFailures == InWindow(old(recentFailures), now)
    {
      InWindowTimeline(recentFailures, now, now);
      var cutoff := now - WINDOW;
      while recentFailures != [] && recentFailures[0] < cutoff
        invariant Ordered(recentFailures)
        invariant InWindow(recentFailures, now) == InWindow(old(recentFailures), now)
        decreases |recentFailures|
      {
        InWindowFromFront(recentFailures, now);
        recentFailures := recentFailures[1..];
      }
      if recentFailures != [] {
        InWindowFromFront(recentFailures, now);
      }
    }

    method OnSuccess(now: int)
      requires Valid(now)
      modifies `state, `halfOpenSuccesses, `lastFailureTime, `recentFailures, `closedCount
      ensures Valid(now)
      ensures View() == Succeed(config, old(View()), now)
    {
      if state == HalfOpen {
        halfOpenSuccesses := halfOpenSuccesses + 1;
        if halfOpenSuccesses >= config.successThreshold {
          state := Closed;
          lastFailureTime := None;
          recentFailures := [];
          closedCount := closedCount + 1;
        }
      } else {
        CleanOldFailures(now);
      }
    }

    method OnFailure(now: int)
      requires Valid(now)
      modifies `state, `lastFailureTime, `recentFailures, `openedCount
      ensures Valid(now)
      ensures View() == Fail(config, old(View()), now)
    {
      TimelineAppend(recentFailures, now, now);
      lastFailureTime := Some(now);
      recentFailures := recentFailures + [now];
      CleanOldFailures(now);
      match state
      case Closed =>
        if |recentFailures| >= config.failureThreshold {
          state := Open;
          openedCount := openedCount + 1;
        }
      case HalfOpen =>
        state := Open;
        openedCount := openedCount + 1;
      case Open =>
    }

    /** One protected call with nothing else under way: admitted at `start`, done at `end`. */
    method Call<V>(start: int, outcome: Option<V>, end: int) returns (r: CallResult<V>)
      requires Valid(start) && start <= end
      modifies this
      ensures Valid(end)
      ensures var (b, allowed) := Allow(config, old(View()), start);
              if !allowed then
                r == Rejected && View() == b && totalRequests == old(totalRequests)
              else
                && totalRequests == old(totalRequests) + 1
                && (outcome.Some? ==> r == Returned(outcome.value) && View() == Succeed(config, b, end))
                && (outcome.None? ==> r == Failed && View() == Fail(config, b, end))
      ensures rejectedRequests == old(rejectedRequests) + if r == Rejected then 1 else 0
      ensures totalSuccesses == old(totalSuccesses) + if r.Returned? then 1 else 0
      ensures totalFailures == old(totalFailures) + if r == Failed then 1 else 0
    {
      var allowed := AllowRequest(start);
      if !allowed {
        rejectedRequests := rejectedRequests + 1;
        return Rejected;
      }
      totalRequests := totalRequests + 1;
      match outcome
      case Some(value) =>
        OnSuccess(end);
        totalSuccesses := totalSuccesses + 1;
        return Returned(value);
      case None =>
        OnFailure(end);
        totalFailures := totalFailures + 1;
        return Failed;
    }

    method ForceOpenNow(now: int)
      requires Valid(now)
      modifies `state, `lastFailureTime, `openedCount
      ensures Valid(now) && View() == ForceOpen(old(View()), now)
    {
      state := Open;
      lastFailureTime := Some(now);
      openedCount := openedCount + 1;
    }

    method ForceCloseNow(now: int)
      requires Valid(now)
      modifies `state, `lastFailureTime, `recentFailures, `closedCount
      ensures Valid(now) && View() == Close(old(View()))
    {
      state := Closed;
      lastFailureTime := None;
      recentFailures := [];
      closedCount := closedCount + 1;
    }
  }
}
