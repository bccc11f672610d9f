/**
 Runs of the circuit breaker (src/circuit_breaker.rs) with any number of overlapping calls:
 a call is admitted in one state and may report back in a later one. The clock never goes
 backwards; each event says how long after the previous one it happens.
 */
module CircuitBreakerRuns {
  import opened Wrappers
  import opened CircuitBreaker

  datatype Event =
    | Request(wait: nat)
    | Success(wait: nat)      // some call under way ends well
    | Failure(wait: nat)      // some call under way ends badly
    | Dropped(wait: nat)      // some call under way is abandoned by its caller and never reports
    | ForcedOpen(wait: nat)
    | ForcedClose(wait: nat)

  datatype System = System(
    b: Breaker,
    clock: int,
    inFlight: nat,
    failures: seq<int>,   // every failure reported since the breaker last closed
    trips: seq<int>,      // those, and the forced openings
    cleanedAt: int,       // when stale failures were last dropped
    episode: nat,         // requests admitted since the breaker last went half-open
    episodeGood: nat,     // calls that ended well since then, the breaker being half-open
    episodeDrops: nat,    // calls dropped since then
    requests: nat,
    rejections: nat,
    successes: nat,
    failed: nat,
    dropped: nat,
    admitted: bool        // the answer to the latest request
  )

  function NewSystem(): System {
    System(NewBreaker(), 0, 0, [], [], 0, 0, 0, 0, 0, 0, 0, 0, 0, false)
  }

  function Next(cfg: Config, s: System, e: Event): System {
    var now := s.clock + e.wait;
    match e
    case Request(_) =>
      var (b, ok) := Allow(cfg, s.b, now);
      if ok then
        s.(b := b, clock := now, admitted := true, inFlight := s.inFlight + 1, requests := s.requests + 1,
           episode := if s.b.state == Open then 1 else s.episode + 1,
           episodeGood := if s.b.state == Open then 0 else s.episodeGood,
           episodeDrops := if s.b.state == Open then 0 else s.episodeDrops)
      else
        s.(b := b, clock := now, admitted := false, rejections := s.rejections + 1)
    case Success(_) =>
      if s.inFlight == 0 then s
      else
        var b := Succeed(cfg, s.b, now);
        var t := s.(b := b, clock := now, inFlight := s.inFlight - 1, successes := s.successes + 1);
        if s.b.state != HalfOpen then t.(cleanedAt := now)
        else if b.state == Closed then t.(episodeGood := s.episodeGood + 1, failures := [], trips := [])
        else t.(episodeGood := s.episodeGood + 1)
    case Failure(_) =>
      if s.inFlight == 0 then s
      else
        s.(b := Fail(cfg, s.b, now), clock := now, inFlight := s.inFlight - 1, failed := s.failed + 1,
           failures := s.failures + [now], trips := s.trips + [now], cleanedAt := now)
    case Dropped(_) =>
      if s.inFlight == 0 then s
      else
        s.(clock := now, inFlight := s.inFlight - 1, dropped := s.dropped + 1, episodeDrops := s.episodeDrops + 1)
    case ForcedOpen(_) =>
      s.(b := ForceOpen(s.b, now), clock := now, trips := s.trips + [now])
    case ForcedClose(_) =>
      s.(b := Close(s.b), clock := now, failures := [], trips := [])
  }

  function Run(cfg: Config, s: System, events: seq<Event>): System
    decreases |events|
  {
    if events == [] then s else Run(cfg, Next(cfg, s, events[0]), events[1..])
  }

  /** Where a fresh breaker stands after `events`. */
  function After(cfg: Config, events: seq<Event>): System {
    Run(cfg, NewSystem(), events)
  }

  function AtLeastOne(n: nat): nat {
    if n == 0 then 1 else n
  }

  ghost predicate WindowInv(cfg: Config, s: System) {
    && Timeline(s.failures, s.clock)
    && s.cleanedAt <= s.clock
    && s.b.recentFailures == InWindow(s.failures, s.cleanedAt)
    && (s.b.state == Closed ==> |s.b.recentFailures| < AtLeastOne(cfg.failureThreshold))
  }

  ghost predicate OpenInv(s: System) {
    && Timeline(s.trips, s.clock)
    && s.b.lastFailure == (if s.trips == [] then None else Some(s.trips[|s.trips| - 1]))
    && (s.b.state == Open ==> s.trips != [])
  }

  ghost predicate ProbeInv(cfg: Config, s: System) {
    s.b.state == HalfOpen ==>
      && s.inFlight + s.b.halfOpenSuccesses + s.episodeDrops >= 1 + s.b.halfOpenRequests
      && s.b.halfOpenSuccesses < AtLeastOne(cfg.successThreshold)
      && s.b.halfOpenRequests <= cfg.halfOpenMaxRequests
      && s.episode == s.b.halfOpenRequests + 1
      && s.episodeGood == s.b.halfOpenSuccesses
  }

  ghost predicate Inv(cfg: Config, s: System) {
    WindowInv(cfg, s) && OpenInv(s) && ProbeInv(cfg, s)
    && s.requests == s.inFlight + s.successes + s.failed + s.dropped
  }

  /** Cleaning at `now` leaves the failures of the window that ends at `now`, and no more than before. */
  lemma Cleaned(failures: seq<int>, cleanedAt: int, now: int)
    requires cleanedAt <= now
    ensures var recent := InWindow(failures, cleanedAt);
            InWindow(recent, now) == InWindow(failures, now) && |InWindow(failures, now)| <= |recent|
  {
    InWindowTwice(failures, cleanedAt, now);
  }

  lemma CleanedWithNew(failures: seq<int>, cleanedAt: int, now: int)
    requires cleanedAt <= now
    ensures var recent := InWindow(failures, cleanedAt);
            && InWindow(recent + [now], now) == InWindow(failures + [now], now)
            && |InWindow(failures + [now], now)| <= |recent| + 1
  {
    Cleaned(failures, cleanedAt, now);
    InWindowAppend(failures, now, now);
    InWindowAppend(InWindow(failures, cleanedAt), now, now);
  }

  lemma FailureKeepsWindow(cfg: Config, s: System, wait: nat)
    requires WindowInv(cfg, s)
    ensures WindowInv(cfg, Next(cfg, s, Failure(wait)))
  {
    var now := s.clock + wait;
    CleanedWithNew(s.failures, s.cleanedAt, now);
    TimelineAppend(s.failures, s.clock, now);
  }

  lemma ProbeSuccessKeepsWindow(cfg: Config, s: System, wait: nat)
    requires WindowInv(cfg, s) && s.b.state == HalfOpen && s.inFlight > 0
    ensures WindowInv(cfg, Next(cfg, s, Success(wait)))
  {
    var s' := Next(cfg, s, Success(wait));
    if s'.b.state == Closed {
      assert s'.failures == [] && s'.b.recentFailures == [];
    } else {
      assert s'.failures == s.failures && s'.b.recentFailures == s.b.recentFailures && s'.cleanedAt == s.cleanedAt;
      TimelineAppend(s.failures, s.clock, s'.clock);
    }
  }

  lemma LateSuccessKeepsWindow(cfg: Config, s: System, wait: nat)
    requires WindowInv(cfg, s) && s.b.state != HalfOpen && s.inFlight > 0
    ensures WindowInv(cfg, Next(cfg, s, Success(wait)))
  {
    TimelineAppend(s.failures, s.clock, s.clock + wait);
    Cleaned(s.failures, s.cleanedAt, s.clock + wait);
  }

  lemma SuccessKeepsWindow(cfg: Config, s: System, wait: nat)
    requires WindowInv(cfg, s)
    ensures WindowInv(cfg, Next(cfg, s, Success(wait)))
  {
    if s.inFlight > 0 {
      if s.b.state == HalfOpen {
        ProbeSuccessKeepsWindow(cfg, s, wait);
      } else {
        LateSuccessKeepsWindow(cfg, s, wait);
      }
    }
  }

  lemma NextKeepsWindow(cfg: Config, s: System, e: Event)
    requires WindowInv(cfg, s)
    ensures WindowInv(cfg, Next(cfg, s, e))
  {
    TimelineAppend(s.failures, s.clock, s.clock + e.wait);
    match e
    case Request(_) =>
    case Success(wait) =>
      SuccessKeepsWindow(cfg, s, wait);
    case Failure(wait) =>
      FailureKeepsWindow(cfg, s, wait);
    case Dropped(_) =>
    case ForcedOpen(_) =>
    case ForcedClose(_) =>
  }

  lemma FailureKeepsOpen(cfg: Config, s: System, wait: nat)
    requires OpenInv(s)
    ensures OpenInv(Next(cfg, s, Failure(wait)))
  {
    TimelineAppend(s.trips, s.clock, s.clock + wait);
  }

  lemma SuccessKeepsOpen(cfg: Config, s: System, wait: nat)
    requires OpenInv(s)
    ensures OpenInv(Next(cfg, s, Success(wait)))
  {
    TimelineAppend(s.trips, s.clock, s.clock + wait);
  }

  lemma NextKeepsOpen(cfg: Config, s: System, e: Event)
    requires OpenInv(s)
    ensures OpenInv(Next(cfg, s, e))
  {
    TimelineAppend(s.trips, s.clock, s.clock + e.wait);
    match e
    case Request(_) =>
    case Success(wait) =>
      SuccessKeepsOpen(cfg, s, wait);
    case Failure(wait) =>
      FailureKeepsOpen(cfg, s, wait);
    case Dropped(_) =>
    case ForcedOpen(_) =>
    case ForcedClose(_) =>
  }

  lemma NextKeepsProbe(cfg: Config, s: System, e: Event)
    requires ProbeInv(cfg, s)
    ensures ProbeInv(cfg, Next(cfg, s, e))
  {
  }

  lemma NextKeepsInv(cfg: Config, s: System, e: Event)
    requires Inv(cfg, s)
    ensures Inv(cfg, Next(cfg, s, e))
  {
    NextKeepsWindow(cfg, s, e);
    NextKeepsOpen(cfg, s, e);
    NextKeepsProbe(cfg, s, e);
  }

  lemma {:induction false} RunKeepsInv(cfg: Config, s: System, events: seq<Event>)
    requires Inv(cfg, s)
    ensures Inv(cfg, Run(cfg, s, events))
    decreases |events|
  {
    if events != [] {
      NextKeepsInv(cfg, s, events[0]);
      RunKeepsInv(cfg, Next(cfg, s, events[0]), events[1..]);
    }
  }

  lemma Reachable(cfg: Config, events: seq<Event>)
    ensures Inv(cfg, After(cfg, events))
  {
    RunKeepsInv(cfg, NewSystem(), events);
  }

  // ---------------------------------------------------------------- what runs guarantee

  /**
   The deque refines a count over the whole failure history. A closed breaker opens exactly
   when a failure brings the failures of the last 60 seconds to the threshold, and until
   then it has had fewer.
   */
  lemma OpensExactlyAtThreshold(cfg: Config, events: seq<Event>, wait: nat)
    ensures var s := After(cfg, events);
            var now := s.clock + wait;
            s.b.state == Closed ==>
              && |LastMinute(s.failures, now)| < AtLeastOne(cfg.failureThreshold)
              && (s.inFlight > 0 ==>
                    (Next(cfg, s, Failure(wait)).b.state == Open <==>
                     |LastMinute(s.failures, now)| + 1 >= cfg.failureThreshold))
  {
    Reachable(cfg, events);
    var s := After(cfg, events);
    var now := s.clock + wait;
    Cleaned(s.failures, s.cleanedAt, now);
    CleanedWithNew(s.failures, s.cleanedAt, now);
    InWindowAppend(s.failures, now, now);
    WindowCountsLastMinute(s.failures, now);
  }

  /**
   While open, a request gets through exactly when the timeout has strictly passed since
   every failure and forced opening since the last close, late failures included.
   */
  lemma OpenAdmitsOnlyAfterTimeout(cfg: Config, events: seq<Event>, wait: nat)
    ensures var s := After(cfg, events);
            var now := s.clock + wait;
            s.b.state == Open ==>
              && s.trips != []
              && (Next(cfg, s, Request(wait)).admitted <==> forall t :: t in s.trips ==> now - t > cfg.timeout)
  {
    Reachable(cfg, events);
    var s := After(cfg, events);
    if s.b.state == Open {
      var last := s.trips[|s.trips| - 1];
      assert last in s.trips;
      forall t | t in s.trips ensures t <= last {
        var i :| 0 <= i < |s.trips| && s.trips[i] == t;
      }
    }
  }

  /** A half-open episode admits at most one request more than its budget. */
  lemma ProbeBudget(cfg: Config, events: seq<Event>)
    ensures var s := After(cfg, events);
            s.b.state == HalfOpen ==>
              && s.episode <= cfg.halfOpenMaxRequests + 1
              && (forall wait :: Next(cfg, s, Request(wait)).admitted <==> s.episode <= cfg.halfOpenMaxRequests)
  {
    Reachable(cfg, events);
  }

  /**
   Every request of every run: a closed breaker lets it through and stays as it is, an open one
   exactly when the timeout has passed since everything that opened it or failed, and that makes
   it half-open, and a half-open one exactly while the episode has let in no more than the budget.
   */
  lemma AdmittedIff(cfg: Config, events: seq<Event>, wait: nat)
    ensures var s := After(cfg, events);
            var t := Next(cfg, s, Request(wait));
            && (t.admitted <==>
                  match s.b.state
                  case Closed => true
                  case Open => forall trip :: trip in s.trips ==> s.clock + wait - trip > cfg.timeout
                  case HalfOpen => s.episode <= cfg.halfOpenMaxRequests)
            && (s.b.state == Closed ==> t.b == s.b)
            && t.b.state == if s.b.state == Open && t.admitted then HalfOpen else s.b.state
  {
    Reachable(cfg, events);
    if After(cfg, events).b.state == Open {
      OpenAdmitsOnlyAfterTimeout(cfg, events, wait);
    }
  }

  /** What each event does to the state, in every run, read off the history. */
  lemma StateChangesIff(cfg: Config, events: seq<Event>, e: Event)
    ensures var s := After(cfg, events);
            var now := s.clock + e.wait;
            var failed := e.Failure? && s.inFlight > 0;
            var next := Next(cfg, s, e).b.state;
            match s.b.state
            case Closed =>
              && next != HalfOpen
              && (next == Open <==>
                    e.ForcedOpen? || (failed && |LastMinute(s.failures, now)| + 1 >= cfg.failureThreshold))
            case Open =>
              && (next == HalfOpen <==> e.Request? && forall trip :: trip in s.trips ==> now - trip > cfg.timeout)
              && (next == Closed <==> e.ForcedClose?)
            case HalfOpen =>
              && (next == Open <==> e.ForcedOpen? || failed)
              && (next == Closed <==>
                    e.ForcedClose? || (e.Success? && s.inFlight > 0 && s.episodeGood + 1 >= cfg.successThreshold))
  {
    Reachable(cfg, events);
    match e
    case Request(wait) => AdmittedIff(cfg, events, wait);
    case Failure(wait) => OpensExactlyAtThreshold(cfg, events, wait);
    case _ =>
  }

  function Asked(events: seq<Event>): nat {
    if events == [] then 0 else (if events[0].Request? then 1 else 0) + Asked(events[1..])
  }

  lemma {:induction false} RequestsAreAnswered(cfg: Config, s: System, events: seq<Event>)
    ensures var t := Run(cfg, s, events); t.requests + t.rejections == s.requests + s.rejections + Asked(events)
    decreases |events|
  {
    if events != [] {
      RequestsAreAnswered(cfg, Next(cfg, s, events[0]), events[1..]);
    }
  }

  /**
   Every request was admitted or rejected, and every admitted call is under way, was dropped, or
   has been counted once as a success or a failure.
   */
  lemma CallsAreCounted(cfg: Config, events: seq<Event>)
    ensures var s := After(cfg, events);
            && s.requests + s.rejections == Asked(events)
            && s.requests == s.inFlight + s.successes + s.failed + s.dropped
  {
    Reachable(cfg, events);
    RequestsAreAnswered(cfg, NewSystem(), events);
  }

  predicate Forced(e: Event) {
    e.ForcedOpen? || e.ForcedClose?
  }

  /** The event opens the breaker, by force or from another state. */
  predicate Opens(cfg: Config, s: System, e: Event) {
    e.ForcedOpen? || (s.b.state != Open && Next(cfg, s, e).b.state == Open)
  }

  predicate Closes(cfg: Config, s: System, e: Event) {
    e.ForcedClose? || (s.b.state != Closed && Next(cfg, s, e).b.state == Closed)
  }

  function Openings(cfg: Config, s: System, events: seq<Event>): nat
    decreases |events|
  {
    if events == [] then 0
    else (if Opens(cfg, s, events[0]) then 1 else 0) + Openings(cfg, Next(cfg, s, events[0]), events[1..])
  }

  function Closings(cfg: Config, s: System, events: seq<Event>): nat
    decreases |events|
  {
    if events == [] then 0
    else (if Closes(cfg, s, events[0]) then 1 else 0) + Closings(cfg, Next(cfg, s, events[0]), events[1..])
  }

  lemma ChangeIsCounted(cfg: Config, s: System, e: Event)
    ensures Next(cfg, s, e).b.openedCount == s.b.openedCount + if Opens(cfg, s, e) then 1 else 0
    ensures Next(cfg, s, e).b.closedCount == s.b.closedCount + if Closes(cfg, s, e) then 1 else 0
  {
  }

  /** The two counters of the metrics count exactly the events that open and that close it. */
  lemma {:induction false} ChangesAreCounted(cfg: Config, s: System, events: seq<Event>)
    ensures var t := Run(cfg, s, events);
            && t.b.openedCount == s.b.openedCount + Openings(cfg, s, events)
            && t.b.closedCount == s.b.closedCount + Closings(cfg, s, events)
    decreases |events|
  {
    if events != [] {
      ChangeIsCounted(cfg, s, events[0]);
      ChangesAreCounted(cfg, Next(cfg, s, events[0]), events[1..]);
    }
  }

  /** Left to itself the breaker has opened at least once more than it has closed, unless it is closed. */
  lemma {:induction false} OpensAndCloses(cfg: Config, s: System, events: seq<Event>)
    requires s.b.openedCount >= s.b.closedCount + if s.b.state == Closed then 0 else 1
    requires forall i :: 0 <= i < |events| ==> !Forced(events[i])
    ensures var t := Run(cfg, s, events); t.b.openedCount >= t.b.closedCount + if t.b.state == Closed then 0 else 1
    decreases |events|
  {
    if events != [] {
      OpensAndCloses(cfg, Next(cfg, s, events[0]), events[1..]);
    }
  }

  // ---------------------------------------------------------------- half-open and stuck

  /** Half-open, nothing under way that could change that, and no request gets through. */
  ghost predicate Stuck(cfg: Config, s: System) {
    s.b.state == HalfOpen && s.inFlight == 0 && s.b.halfOpenRequests >= cfg.halfOpenMaxRequests
  }

  /** Once stuck the breaker rejects every request, for as long as nobody forces it. */
  lemma {:induction false} StuckForever(cfg: Config, s: System, events: seq<Event>)
    requires Stuck(cfg, s)
    requires forall i :: 0 <= i < |events| ==> !Forced(events[i])
    ensures var t := Run(cfg, s, events); Stuck(cfg, t) && t.requests == s.requests
    decreases |events|
  {
    if events != [] {
      StuckForever(cfg, Next(cfg, s, events[0]), events[1..]);
    }
  }

  lemma NeverStuck(cfg: Config, drops: nat, events: seq<Event>)
    requires AtLeastOne(cfg.successThreshold) + drops <= cfg.halfOpenMaxRequests + 1
    ensures After(cfg, events).episodeDrops <= drops ==> !Stuck(cfg, After(cfg, events))
  {
    Reachable(cfg, events);
  }

  lemma {:induction false} RunAppend(cfg: Config, s: System, a: seq<Event>, b: seq<Event>)
    ensures Run(cfg, s, a + b) == Run(cfg, Run(cfg, s, a), b)
    decreases |a|
  {
    if a == [] {
      assert a + b == b;
    } else {
      assert (a + b)[1..] == a[1..] + b;
      RunAppend(cfg, Next(cfg, s, a[0]), a[1..], b);
    }
  }

  lemma RunTwo(cfg: Config, s: System, a: Event, b: Event)
    ensures Run(cfg, s, [a, b]) == Next(cfg, Next(cfg, s, a), b)
  {
    assert [a, b][1..] == [b];
    assert Run(cfg, Next(cfg, s, a), [b]) == Run(cfg, Next(cfg, Next(cfg, s, a), b), []);
  }

  /** Enough failing calls at one instant open a closed breaker. */
  lemma {:induction false} FailuresOpen(cfg: Config, s: System) returns (events: seq<Event>)
    requires s.b.state == Closed && s.inFlight == 0
    requires forall i :: 0 <= i < |s.b.recentFailures| ==> s.b.recentFailures[i] == s.clock
    ensures forall i :: 0 <= i < |events| ==> !Forced(events[i])
    ensures var t := Run(cfg, s, events);
            t.b.state == Open && t.inFlight == 0 && t.b.lastFailure == Some(t.clock) && t.dropped == s.dropped
    decreases cfg.failureThreshold - |s.b.recentFailures|
  {
    events := [Request(0), Failure(0)];
    RunTwo(cfg, s, Request(0), Failure(0));
    var t := Run(cfg, s, events);
    InWindowFromAll(s.b.recentFailures + [s.clock], s.clock, 0);
    assert t.b.recentFailures == s.b.recentFailures + [s.clock];
    if t.b.state == Closed {
      var more := FailuresOpen(cfg, t);
      RunAppend(cfg, s, events, more);
      events := events + more;
    }
  }

  /** The breaker needs more successes, drops allowed for, than it lets requests in. */
  predicate CanStarve(cfg: Config, drops: nat) {
    AtLeastOne(cfg.successThreshold) + drops > cfg.halfOpenMaxRequests + 1
  }

  /** How a probe ends that brings the breaker closer to stuck: well while that does not close it, else dropped. */
  function Wasted(cfg: Config, successes: nat): Event {
    if successes + 1 < cfg.successThreshold then Success(0) else Dropped(0)
  }

  /** Probes that succeed without closing the breaker, and then dropped ones, use up the budget. */
  lemma {:induction false} ProbesExhaust(cfg: Config, drops: nat, s: System) returns (events: seq<Event>)
    requires s.b.state == HalfOpen && s.inFlight == 0 && s.b.halfOpenSuccesses < AtLeastOne(cfg.successThreshold)
    requires s.b.halfOpenSuccesses + s.dropped == s.b.halfOpenRequests + 1 <= cfg.halfOpenMaxRequests + 1
    requires s.episodeDrops == s.dropped <= drops && CanStarve(cfg, drops)
    requires s.dropped > 0 ==> s.b.halfOpenSuccesses + 1 == AtLeastOne(cfg.successThreshold)
    ensures forall i :: 0 <= i < |events| ==> !Forced(events[i])
    ensures var t := Run(cfg, s, events); Stuck(cfg, t) && t.episodeDrops == t.dropped <= drops
    decreases cfg.halfOpenMaxRequests - s.b.halfOpenRequests
  {
    if s.b.halfOpenRequests == cfg.halfOpenMaxRequests {
      events := [];
    } else {
      var end := Wasted(cfg, s.b.halfOpenSuccesses);
      events := [Request(0), end];
      RunTwo(cfg, s, Request(0), end);
      var more := ProbesExhaust(cfg, drops, Run(cfg, s, events));
      RunAppend(cfg, s, events, more);
      events := events + more;
    }
  }

  /** A run of ordinary calls, no more than `drops` of them dropped, that ends stuck. */
  lemma StuckRun(cfg: Config, drops: nat) returns (events: seq<Event>)
    requires AtLeastOne(cfg.successThreshold) + drops > cfg.halfOpenMaxRequests + 1
    ensures forall i :: 0 <= i < |events| ==> !Forced(events[i])
    ensures var t := After(cfg, events); Stuck(cfg, t) && t.episodeDrops == t.dropped <= drops
  {
    var opening := FailuresOpen(cfg, NewSystem());
    var open := After(cfg, opening);
    var end := Wasted(cfg, 0);
    var probe := [Request(cfg.timeout + 1), end];
    RunTwo(cfg, open, Request(cfg.timeout + 1), end);
    var half := Run(cfg, open, probe);
    var exhausting := ProbesExhaust(cfg, drops, half);
    RunAppend(cfg, open, probe, exhausting);
    RunAppend(cfg, NewSystem(), opening, probe + exhausting);
    events := opening + (probe + exhausting);
  }

  /** Whatever the settings, dropping as many calls as half-open lets in leaves it stuck. */
  lemma DroppedProbesStick(cfg: Config) returns (events: seq<Event>)
    ensures forall i :: 0 <= i < |events| ==> !Forced(events[i])
    ensures Stuck(cfg, After(cfg, events)) && After(cfg, events).dropped <= cfg.halfOpenMaxRequests + 1
  {
    events := StuckRun(cfg, cfg.halfOpenMaxRequests + 1);
  }

  /**
   The exact condition under which half-open is never stuck, over all runs with late and
   overlapping results in which at most `drops` calls are dropped since the breaker last went
   half-open: the successes needed to close and those drops together do not exceed the
   requests let in.
   */
  lemma NeverStuckIff(cfg: Config, drops: nat)
    ensures (forall events :: After(cfg, events).episodeDrops <= drops ==> !Stuck(cfg, After(cfg, events)))
            <==> AtLeastOne(cfg.successThreshold) + drops <= cfg.halfOpenMaxRequests + 1
  {
    if AtLeastOne(cfg.successThreshold) + drops <= cfg.halfOpenMaxRequests + 1 {
      forall events | After(cfg, events).episodeDrops <= drops ensures !Stuck(cfg, After(cfg, events)) {
        NeverStuck(cfg, drops, events);
      }
    } else {
      var events := StuckRun(cfg, drops);
      assert Stuck(cfg, After(cfg, events));
    }
  }

  /** `n` calls one after the other, each a success. */
  function GoodCalls(n: nat): seq<Event> {
    if n == 0 then [] else [Request(0), Success(0)] + GoodCalls(n - 1)
  }

  lemma {:induction false} GoodCallsUnforced(n: nat)
    ensures forall i :: 0 <= i < |GoodCalls(n)| ==> !Forced(GoodCalls(n)[i])
  {
    if n > 0 {
      GoodCallsUnforced(n - 1);
    }
  }

  /** The successes a half-open breaker still needs. */
  function Missing(cfg: Config, s: System): int {
    AtLeastOne(cfg.successThreshold) - s.b.halfOpenSuccesses
  }

  /**
   From half-open with nothing under way, the missing number of good calls closes the breaker
   exactly when the probe budget has room for them.
   */
  lemma {:induction false} GoodCallsCloseIff(cfg: Config, s: System)
    requires s.b.state == HalfOpen && s.inFlight == 0 && Missing(cfg, s) > 0
    ensures Run(cfg, s, GoodCalls(Missing(cfg, s))).b.state == Closed
            <==> s.b.halfOpenRequests + Missing(cfg, s) <= cfg.halfOpenMaxRequests
    decreases Missing(cfg, s)
  {
    var n := Missing(cfg, s);
    if s.b.halfOpenRequests >= cfg.halfOpenMaxRequests {
      GoodCallsUnforced(n);
      StuckForever(cfg, s, GoodCalls(n));
    } else {
      var pair := [Request(0), Success(0)];
      RunTwo(cfg, s, Request(0), Success(0));
      RunAppend(cfg, s, pair, GoodCalls(n - 1));
      if n > 1 {
        GoodCallsCloseIff(cfg, Run(cfg, s, pair));
      }
    }
  }

  /** And it has, in every reachable state, as long as few enough calls are dropped while half-open. */
  lemma GoodCallsClose(cfg: Config, s: System)
    requires AtLeastOne(cfg.successThreshold) + s.episodeDrops <= cfg.halfOpenMaxRequests + 1
    requires Inv(cfg, s) && s.b.state == HalfOpen && s.inFlight == 0
    ensures Missing(cfg, s) > 0 && Run(cfg, s, GoodCalls(Missing(cfg, s))).b.state == Closed
  {
    GoodCallsCloseIff(cfg, s);
  }
}
