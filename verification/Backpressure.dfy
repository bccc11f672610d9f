/**
 The bounded channel with backpressure (src/backpressure.rs): a semaphore and a bounded
 queue side by side. A sender takes a permit, pushes, and then forgets the permit; the
 receiver pops and then re-creates it.

 `Channel` is the protocol: any number of senders and one receiver interleave at those
 points. A step that is not enabled leaves the state alone, so every sequence of steps is
 a run. The class `BackpressureQueue` is the shared object with its non-blocking calls;
 each call is one uninterrupted stretch of the protocol.
 */
module Backpressure {
  import opened Wrappers
  import Metrics = BackpressureMetrics

  // ---------------------------------------------------------------- the protocol

  /** Where an active sender stands; a sender with no entry is between calls. */
  datatype SenderPhase<T> =
    | Holding(msg: T)  // has a permit, has not pushed yet
    | Pushed(msg: T)   // has pushed, still to count the message and forget the permit

  /** `Popped` is a receiver that has a message but has not re-created its permit. */
  datatype ReceiverPhase<T> = Idle | Popped(msg: T)

  datatype Channel<T> = Channel(
    capacity: nat,
    available: nat,
    queue: seq<T>,
    closed: bool,
    senders: map<nat, SenderPhase<T>>,
    receiver: ReceiverPhase<T>,
    totalSent: nat,
    totalReceived: nat,
    totalTimeouts: nat,
    fullSeen: bool,     // some push found the queue full
    sent: seq<T>,       // every message pushed, in order
    received: seq<T>,   // every message popped, in order
    lost: seq<T>        // what was queued when the receiver went away
  )

  datatype Step<T> =
    | Acquire(sender: nat, msg: T)
    | Push(sender: nat)
    | Abort(sender: nat)
    | Finish(sender: nat)
    | Pop
    | Release
    | CloseReceiver

  function NewChannel<T>(capacity: nat): Channel<T> {
    Channel(capacity, capacity, [], false, map[], Idle, 0, 0, 0, false, [], [], [])
  }

  function Next<T>(c: Channel<T>, step: Step<T>): Channel<T> {
    match step
    case Acquire(i, m) =>
      if i !in c.senders && c.available > 0 then
        c.(available := c.available - 1, senders := c.senders[i := Holding(m)])
      else c
    case Push(i) =>
      if i in c.senders && c.senders[i].Holding? then
        if c.closed then
          DropPermit(c, i)
        else if |c.queue| >= c.capacity then
          DropPermit(c, i).(fullSeen := true)
        else
          var m := c.senders[i].msg;
          c.(queue := c.queue + [m], sent := c.sent + [m], senders := c.senders[i := Pushed(m)])
      else c
    case Abort(i) =>
      if i in c.senders && c.senders[i].Holding? then
        DropPermit(c, i).(totalTimeouts := c.totalTimeouts + 1)
      else c
    case Finish(i) =>
      if i in c.senders && c.senders[i].Pushed? then
        c.(senders := c.senders - {i}, totalSent := c.totalSent + 1)
      else c
    case Pop =>
      if c.receiver.Idle? && c.queue != [] then
        c.(queue := c.queue[1..], received := c.received + [c.queue[0]], receiver := Popped(c.queue[0]))
      else c
    case Release =>
      if c.receiver.Popped? then
        c.(receiver := Idle, totalReceived := c.totalReceived + 1, available := c.available + 1)
      else c
    case CloseReceiver =>
      if c.receiver.Idle? && !c.closed then
        c.(closed := true, queue := [], lost := c.queue)
      else c
  }

  /** A failed push gives the permit back as the guard goes out of scope. */
  function DropPermit<T>(c: Channel<T>, i: nat): Channel<T> {
    c.(available := c.available + 1, senders := c.senders - {i})
  }

  function Run<T>(c: Channel<T>, steps: seq<Step<T>>): Channel<T>
    decreases |steps|
  {
    if steps == [] then c else Run(Next(c, steps[0]), steps[1..])
  }

  function HoldingIds<T>(senders: map<nat, SenderPhase<T>>): set<nat> {
    set i | i in senders && senders[i].Holding?
  }

  function PushedIds<T>(senders: map<nat, SenderPhase<T>>): set<nat> {
    set i | i in senders && senders[i].Pushed?
  }

  function Unreleased<T>(c: Channel<T>): nat {
    if c.receiver.Popped? then 1 else 0
  }

  /** The permit ledger, the message ledger and the two counters against them. */
  ghost predicate Balanced<T>(c: Channel<T>) {
    && c.available + |HoldingIds(c.senders)| + |c.queue| + Unreleased(c) + |c.lost| == c.capacity
    && c.received + c.queue + c.lost == c.sent
    && (c.closed ==> c.queue == [])
    && (!c.closed ==> c.lost == [])
    && c.totalSent + |PushedIds(c.senders)| == |c.sent|
    && c.totalReceived + Unreleased(c) == |c.received|
    && !c.fullSeen
  }

  /** How one sender's change of phase moves the two head counts. */
  lemma PhaseCounts<T>(senders: map<nat, SenderPhase<T>>, i: nat, phase: SenderPhase<T>)
    ensures HoldingIds(senders[i := phase])
            == if phase.Holding? then HoldingIds(senders) + {i} else HoldingIds(senders) - {i}
    ensures PushedIds(senders[i := phase])
            == if phase.Pushed? then PushedIds(senders) + {i} else PushedIds(senders) - {i}
    ensures HoldingIds(senders - {i}) == HoldingIds(senders) - {i}
    ensures PushedIds(senders - {i}) == PushedIds(senders) - {i}
  {
  }

  /** A permit held before the push always has a place in the queue waiting for it. */
  lemma HolderHasRoom<T>(c: Channel<T>, i: nat)
    requires Balanced(c)
    requires i in c.senders && c.senders[i].Holding?
    ensures |c.queue| < c.capacity
  {
    assert i in HoldingIds(c.senders);
    assert HoldingIds(c.senders) != {};
  }

  lemma SenderStepKeepsBalance<T>(c: Channel<T>, i: nat)
    requires Balanced(c)
    requires i in c.senders
    ensures Balanced(Next(c, Abort(i)))
    ensures Balanced(Next(c, Finish(i)))
  {
    PhaseCounts(c.senders, i, c.senders[i]);
    assert i in HoldingIds(c.senders) <==> c.senders[i].Holding?;
    assert i in PushedIds(c.senders) <==> c.senders[i].Pushed?;
  }

  lemma PushKeepsBalance<T>(c: Channel<T>, i: nat)
    requires Balanced(c)
    requires i in c.senders && c.senders[i].Holding?
    ensures Balanced(Next(c, Push(i)))
  {
    HolderHasRoom(c, i);
    PhaseCounts(c.senders, i, Pushed(c.senders[i].msg));
    assert i in HoldingIds(c.senders) && i !in PushedIds(c.senders);
    var c' := Next(c, Push(i));
    assert !c.closed ==> c'.received + c'.queue + c'.lost == c.received + c.queue + [c.senders[i].msg];
  }

  lemma ReceiverStepKeepsBalance<T>(c: Channel<T>)
    requires Balanced(c)
    ensures Balanced(Next(c, Pop))
    ensures Balanced(Next(c, Release))
    ensures Balanced(Next(c, CloseReceiver))
  {
    if c.receiver.Idle? && c.queue != [] {
      assert c.received + c.queue == c.received + [c.queue[0]] + c.queue[1..];
    }
  }

  lemma NextKeepsBalance<T>(c: Channel<T>, step: Step<T>)
    requires Balanced(c)
    ensures Balanced(Next(c, step))
  {
    match step
    case Acquire(i, m) =>
      PhaseCounts(c.senders, i, Holding(m));
      assert i !in c.senders ==> i !in HoldingIds(c.senders) && i !in PushedIds(c.senders);
    case Push(i) =>
      if i in c.senders && c.senders[i].Holding? {
        PushKeepsBalance(c, i);
      }
    case Abort(i) =>
      if i in c.senders {
        SenderStepKeepsBalance(c, i);
      }
    case Finish(i) =>
      if i in c.senders {
        SenderStepKeepsBalance(c, i);
      }
    case Pop =>
      ReceiverStepKeepsBalance(c);
    case Release =>
      ReceiverStepKeepsBalance(c);
    case CloseReceiver =>
      ReceiverStepKeepsBalance(c);
  }

  lemma {:induction false} RunKeepsBalance<T>(c: Channel<T>, steps: seq<Step<T>>)
    requires Balanced(c)
    ensures Balanced(Run(c, steps))
    decreases |steps|
  {
    if steps != [] {
      NextKeepsBalance(c, steps[0]);
      RunKeepsBalance(Next(c, steps[0]), steps[1..]);
    }
  }

  /**
   Permit conservation. In every interleaving no permit is made or lost, the queue stays
   within its capacity, its own "full" answer is never given, and the count of used
   permits (`total - available`) does not underflow.
   */
  lemma PermitConservation<T>(capacity: nat, steps: seq<Step<T>>)
    ensures var c := Run(NewChannel(capacity), steps);
            && c.capacity == capacity
            && c.available + |HoldingIds(c.senders)| + |c.queue| + Unreleased(c) + |c.lost| == capacity
            && |c.queue| <= c.available + |c.queue| <= capacity
            && !c.fullSeen
            && (forall i | i in c.senders && c.senders[i].Holding? :: |c.queue| < capacity)
  {
    assert Balanced(NewChannel<T>(capacity));
    RunKeepsBalance(NewChannel(capacity), steps);
    RunKeepsCapacity(NewChannel<T>(capacity), steps);
    var c := Run(NewChannel(capacity), steps);
    forall i | i in c.senders && c.senders[i].Holding? ensures |c.queue| < c.capacity {
      HolderHasRoom(c, i);
    }
  }

  lemma {:induction false} RunKeepsCapacity<T>(c: Channel<T>, steps: seq<Step<T>>)
    ensures Run(c, steps).capacity == c.capacity
    decreases |steps|
  {
    if steps != [] {
      RunKeepsCapacity(Next(c, steps[0]), steps[1..]);
    }
  }

  /**
   Lossless FIFO. What was received is a prefix of what was sent; while the receiver lives
   the rest is exactly the queue. With no call under way the two counters differ by the
   queue length, and a permit is to be had exactly when the queue has room.
   */
  lemma LosslessFifo<T>(capacity: nat, steps: seq<Step<T>>)
    ensures var c := Run(NewChannel(capacity), steps);
            && c.received <= c.sent
            && (!c.closed ==> c.sent == c.received + c.queue)
            && (c.senders == map[] && c.receiver.Idle? && !c.closed ==>
                  && c.totalSent == c.totalReceived + |c.queue|
                  && c.available == capacity - |c.queue|)
  {
    assert Balanced(NewChannel<T>(capacity));
    RunKeepsBalance(NewChannel(capacity), steps);
    RunKeepsCapacity(NewChannel<T>(capacity), steps);
    var c := Run(NewChannel(capacity), steps);
    assert c.sent[..|c.received|] == c.received;
    if c.senders == map[] {
      assert HoldingIds(c.senders) == {} && PushedIds(c.senders) == {};
    }
  }

  /**
   The receive counter may run ahead of the send counter, because a message can be popped
   before its sender has counted it; it does so by at most the number of such senders.
   */
  lemma CountersSkew<T>(capacity: nat, steps: seq<Step<T>>)
    ensures var c := Run(NewChannel(capacity), steps);
            c.totalReceived <= c.totalSent + |PushedIds(c.senders)|
  {
    assert Balanced(NewChannel<T>(capacity));
    RunKeepsBalance(NewChannel(capacity), steps);
  }

  // ---------------------------------------------------------------- how calls end

  ghost predicate Holds<T>(c: Channel<T>, i: nat) {
    i in c.senders && c.senders[i].Holding?
  }

  /** The calls that got a permit during a run. */
  ghost function Started<T>(c: Channel<T>, steps: seq<Step<T>>): nat
    decreases |steps|
  {
    if steps == [] then 0
    else
      var starts := steps[0].Acquire? && steps[0].sender !in c.senders && c.available > 0;
      (if starts then 1 else 0) + Started(Next(c, steps[0]), steps[1..])
  }

  /** Those turned away at the push. */
  ghost function Refused<T>(c: Channel<T>, steps: seq<Step<T>>): nat
    decreases |steps|
  {
    if steps == [] then 0
    else
      var refused := steps[0].Push? && Holds(c, steps[0].sender) && (c.closed || |c.queue| >= c.capacity);
      (if refused then 1 else 0) + Refused(Next(c, steps[0]), steps[1..])
  }

  /** Those that ran out of time with a permit in hand. */
  ghost function TimedOut<T>(c: Channel<T>, steps: seq<Step<T>>): nat
    decreases |steps|
  {
    if steps == [] then 0
    else
      (if steps[0].Abort? && Holds(c, steps[0].sender) then 1 else 0) + TimedOut(Next(c, steps[0]), steps[1..])
  }

  lemma SendersPlus<T>(senders: map<nat, SenderPhase<T>>, i: nat, phase: SenderPhase<T>)
    ensures |senders[i := phase]| == |senders| + if i in senders then 0 else 1
    ensures i in senders ==> |senders - {i}| == |senders| - 1
  {
    assert senders[i := phase].Keys == senders.Keys + {i};
    assert (senders - {i}).Keys == senders.Keys - {i};
  }

  /** One step's part of each count, and what it does to the calls under way. */
  ghost predicate StepCounted<T>(c: Channel<T>, step: Step<T>) {
    var c' := Next(c, step);
    var started := step.Acquire? && step.sender !in c.senders && c.available > 0;
    var refused := step.Push? && Holds(c, step.sender) && (c.closed || |c.queue| >= c.capacity);
    var late := step.Abort? && Holds(c, step.sender);
    && |c'.senders| + (c'.totalSent - c.totalSent) + (if refused then 1 else 0) + (if late then 1 else 0)
       == |c.senders| + (if started then 1 else 0)
    && c'.totalTimeouts == c.totalTimeouts + if late then 1 else 0
  }

  lemma AcquireCounts<T>(c: Channel<T>, i: nat, m: T)
    ensures StepCounted(c, Acquire(i, m))
  {
    SendersPlus(c.senders, i, Holding(m));
  }

  lemma PushCounts<T>(c: Channel<T>, i: nat)
    ensures StepCounted(c, Push(i))
  {
    if i in c.senders {
      SendersPlus(c.senders, i, Pushed(c.senders[i].msg));
    }
  }

  lemma EndCounts<T>(c: Channel<T>, i: nat)
    ensures StepCounted(c, Abort(i)) && StepCounted(c, Finish(i))
  {
    if i in c.senders {
      SendersPlus(c.senders, i, c.senders[i]);
    }
  }

  lemma SenderCounts<T>(c: Channel<T>, step: Step<T>)
    ensures StepCounted(c, step)
  {
    match step
    case Acquire(i, m) => AcquireCounts(c, i, m);
    case Push(i) => PushCounts(c, i);
    case Abort(i) => EndCounts(c, i);
    case Finish(i) => EndCounts(c, i);
    case _ =>
  }

  /**
   Every call that got a permit is under way or has ended in one of three ways: counted as sent,
   refused at the push, or timed out; and the timeouts of the metrics are the last kind.
   */
  lemma {:induction false} CallsEndOnce<T>(c: Channel<T>, steps: seq<Step<T>>)
    ensures var t := Run(c, steps);
            && t.totalTimeouts == c.totalTimeouts + TimedOut(c, steps)
            && |t.senders| + (t.totalSent - c.totalSent) + Refused(c, steps) + TimedOut(c, steps)
               == |c.senders| + Started(c, steps)
    decreases |steps|
  {
    if steps != [] {
      SenderCounts(c, steps[0]);
      CallsEndOnce(Next(c, steps[0]), steps[1..]);
    }
  }

  // ---------------------------------------------------------------- the shared object

  datatype SendResult = Sent | AtCapacity | ChannelFull | ChannelClosed

  datatype RecvResult<T> = Received(msg: T) | Empty | Disconnected

  /** The three protocol points of one `try_send`, and the two of one `try_recv`. */
  function TrySendSteps<T>(m: T): seq<Step<T>> {
    [Acquire(0, m), Push(0), Finish(0)]
  }

  function TryRecvSteps<T>(): seq<Step<T>> {
    [Pop, Release]
  }

  lemma RunThree<T>(c: Channel<T>, a: Step<T>, b: Step<T>, d: Step<T>)
    ensures Run(c, [a, b, d]) == Next(Next(Next(c, a), b), d)
  {
    assert [a, b, d][1..] == [b, d];
    RunTwo(Next(c, a), b, d);
  }

  lemma RunTwo<T>(c: Channel<T>, a: Step<T>, b: Step<T>)
    ensures Run(c, [a, b]) == Next(Next(c, a), b)
  {
    assert [a, b][1..] == [b];
    assert [b][1..] == [];
    assert Run(Next(c, a), [b]) == Run(Next(Next(c, a), b), []);
  }

  /** The channel once one more message is sent. */
  function WithSent<T>(c: Channel<T>, m: T): Channel<T>
    requires c.available > 0
  {
    c.(available := c.available - 1, queue := c.queue + [m], sent := c.sent + [m], totalSent := c.totalSent + 1)
  }

  lemma AlonePushes<T>(c: Channel<T>, m: T)
    requires c.senders == map[] && c.available > 0 && !c.closed && |c.queue| < c.capacity
    ensures Next(Next(Next(c, Acquire(0, m)), Push(0)), Finish(0)) == WithSent(c, m)
  {
    var c1 := Next(c, Acquire(0, m));
    var c2 := Next(c1, Push(0));
    assert c2.senders == map[0 := Pushed(m)];
    assert map[0 := Pushed(m)] - {0} == map[];
  }

  lemma AloneFindsClosed<T>(c: Channel<T>, m: T)
    requires c.senders == map[] && c.available > 0 && c.closed
    ensures Next(Next(Next(c, Acquire(0, m)), Push(0)), Finish(0)) == c
  {
    var c1 := Next(c, Acquire(0, m));
    assert c1.senders - {0} == map[];
    assert Next(c1, Push(0)) == c;
  }

  /** What the protocol points of one non-blocking send come to, with no other call under way. */
  lemma TrySendOutcome<T>(c: Channel<T>, m: T)
    requires Balanced(c) && c.senders == map[]
    ensures Run(c, TrySendSteps(m)) == if c.available == 0 || c.closed then c else WithSent(c, m)
  {
    RunThree(c, Acquire(0, m), Push(0), Finish(0));
    if c.available > 0 {
      if c.closed {
        AloneFindsClosed(c, m);
      } else {
        AlonePushes(c, m);
      }
    }
  }

  lemma TryRecvOutcome<T>(c: Channel<T>)
    requires c.receiver.Idle?
    ensures Run(c, TryRecvSteps()) ==
            if c.queue == [] then c
            else c.(queue := c.queue[1..], received := c.received + [c.queue[0]],
                    totalReceived := c.totalReceived + 1, available := c.available + 1)
  {
    RunTwo<T>(c, Pop, Release);
  }

  class BackpressureQueue<T> {
    const capacity: nat
    var available: nat
    var queue: seq<T>
    var closed: bool
    var totalSent: nat
    var totalReceived: nat
    var totalTimeouts: nat
    var avgLatency: nat
    ghost var sent: seq<T>
    ghost var received: seq<T>
    ghost var lost: seq<T>

    /** The protocol state this object is in between calls. */
    ghost function View(): Channel<T>
      reads this
    {
      Channel(capacity, available, queue, closed, map[], Idle, totalSent, totalReceived, totalTimeouts,
              false, sent, received, lost)
    }

    ghost predicate Valid()
      reads this
    {
      capacity > 0 && Balanced(View())
    }

    /** A bounded queue cannot be created with no room at all. */
    constructor (maxPending: nat)
      requires maxPending > 0
      ensures Valid() && View() == NewChannel(maxPending) && avgLatency == 0
    {
      capacity, available, queue, closed := maxPending, maxPending, [], false;
      totalSent, totalReceived, totalTimeouts, avgLatency := 0, 0, 0, 0;
      sent, received, lost := [], [], [];
    }

    /** Succeeds exactly when the queue has room and the receiver lives; never answers "full". */
    method TrySend(m: T) returns (r: SendResult)
      requires Valid()
      modifies this
      ensures Valid()
      ensures View() == Run(old(View()), TrySendSteps(m))
      ensures !old(closed) ==> r == if |old(queue)| < capacity then Sent else AtCapacity
      ensures old(closed) ==> r == if |old(lost)| < capacity then ChannelClosed else AtCapacity
      ensures queue == if r == Sent then old(queue) + [m] else old(queue)
      ensures avgLatency == old(avgLatency)
    {
      TrySendOutcome(View(), m);
      RunKeepsBalance(View(), TrySendSteps(m));
      assert HoldingIds(View().senders) == {};
      if available == 0 {
        return AtCapacity;
      }
      available := available - 1;
      if closed {
        available := available + 1;
        return ChannelClosed;
      }
      if |queue| >= capacity {
        assert false;  // a held permit guarantees room
        return ChannelFull;
      }
      queue := queue + [m];
      sent := sent + [m];
      totalSent := totalSent + 1;
      return Sent;
    }

    /**
     An empty queue is told from one whose senders are all gone; queued messages come first. The
     age of a message received, `age` in milliseconds, goes into the moving average.
     */
    method TryRecv(sendersGone: bool, age: nat) returns (r: RecvResult<T>)
      requires Valid()
      modifies this
      ensures Valid()
      ensures View() == Run(old(View()), TryRecvSteps())
      ensures old(queue) == [] ==> r == (if sendersGone then Disconnected else Empty) && queue == []
      ensures old(queue) != [] ==> r == Received(old(queue)[0]) && queue == old(queue)[1..]
      ensures avgLatency == if r.Received? then Metrics.NextAverage(old(avgLatency), age) else old(avgLatency)
    {
      TryRecvOutcome(View());
      RunKeepsBalance(View(), TryRecvSteps());
      if queue == [] {
        return if sendersGone then Disconnected else Empty;
      }
      r := Received(queue[0]);
      received := received + [queue[0]];
      queue := queue[1..];
      totalReceived := totalReceived + 1;
      avgLatency := Metrics.NextAverage(avgLatency, age);
      available := available + 1;
    }

    /** Dropping the receiver half. */
    method Close()
      requires Valid()
      modifies this
      ensures Valid()
      ensures View() == Next(old(View()), CloseReceiver) && avgLatency == old(avgLatency)
    {
      NextKeepsBalance(View(), CloseReceiver);
      if !closed {
        closed, lost, queue := true, queue, [];
      }
    }

    /** Between calls, pressure is the share of the capacity taken by queued or lost messages. */
    method IsUnderBackpressure(threshold: real) returns (under: bool)
      requires Valid()
      ensures under <==> (|queue| + |lost|) as real > threshold * capacity as real
    {
      var usageRatio := (capacity - available) as real / capacity as real;
      assert capacity - available == |queue| + |lost| by {
        assert HoldingIds(View().senders) == {};
      }
      under := usageRatio > threshold;
    }
  }
}
