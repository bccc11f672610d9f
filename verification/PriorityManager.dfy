/**
 The priority manager (src/backpressure.rs): four bounded queues, Low = 0 to Critical = 3,
 received from by scanning from the highest down.
 */
module PriorityManager {
  import opened Wrappers
  import opened Backpressure

  const LOW := 0
  const NORMAL := 1
  const HIGH := 2
  const CRITICAL := 3
  const LEVELS := 4

  type Backlog<T> = seq<seq<T>>

  /** The index of the highest queue below `n` that has a message, or -1. */
  function HighestBelow<T>(b: Backlog<T>, n: nat): (p: int)
    requires n <= |b|
    ensures -1 <= p < n
    ensures p >= 0 ==> b[p] != []
    ensures forall q :: p < q < n ==> b[q] == []
  {
    if n == 0 then -1 else if b[n - 1] != [] then n - 1 else HighestBelow(b, n - 1)
  }

  /** A message together with the queue it waited in. */
  datatype Taken<T> = Taken(level: nat, msg: T)

  function Total<T>(b: Backlog<T>): nat {
    if b == [] then 0 else Total(b[..|b| - 1]) + |b[|b| - 1]|
  }

  lemma {:induction false} TotalAfterTake<T>(b: Backlog<T>, p: nat)
    requires p < |b| && b[p] != []
    ensures Total(b[p := b[p][1..]]) == Total(b) - 1
    decreases |b|
  {
    var top := |b| - 1;
    if p < top {
      TotalAfterTake(b[..top], p);
      assert b[p := b[p][1..]][..top] == b[..top][p := b[p][1..]];
    } else {
      assert b[p := b[p][1..]][..top] == b[..top];
    }
  }

  /** Scanning until nothing is left. */
  function Drain<T>(b: Backlog<T>): seq<Taken<T>>
    decreases Total(b)
  {
    var p := HighestBelow(b, |b|);
    if p < 0 then []
    else
      TotalAfterTake(b, p);
      [Taken(p, b[p][0])] + Drain(b[p := b[p][1..]])
  }

  /** The messages taken from one queue, in order. */
  function FromLevel<T>(taken: seq<Taken<T>>, level: nat): seq<T> {
    if taken == [] then []
    else (if taken[0].level == level then [taken[0].msg] else []) + FromLevel(taken[1..], level)
  }

  ghost predicate HighestFirst<T>(taken: seq<Taken<T>>) {
    forall i, j :: 0 <= i < j < |taken| ==> taken[i].level >= taken[j].level
  }

  ghost predicate LevelsBelow<T>(taken: seq<Taken<T>>, n: nat) {
    forall i :: 0 <= i < |taken| ==> taken[i].level < n
  }

  /** `taken` is the backlog sorted by queue, highest first, with each queue's order kept. */
  ghost predicate IsStableSort<T>(taken: seq<Taken<T>>, b: Backlog<T>) {
    && HighestFirst(taken)
    && LevelsBelow(taken, |b|)
    && forall p :: 0 <= p < |b| ==> FromLevel(taken, p) == b[p]
  }

  lemma FromLevelCons<T>(t: Taken<T>, rest: seq<Taken<T>>, level: nat)
    ensures FromLevel([t] + rest, level) == (if t.level == level then [t.msg] else []) + FromLevel(rest, level)
  {
    assert ([t] + rest)[1..] == rest;
  }

  /** Taking the head of the highest queue and then a stable sort of the rest is a stable sort. */
  lemma ConsSort<T>(b: Backlog<T>, rest: seq<Taken<T>>, p: nat)
    requires p < |b| && b[p] != []
    requires IsStableSort(rest, b[p := b[p][1..]]) && forall i :: 0 <= i < |rest| ==> rest[i].level <= p
    ensures IsStableSort([Taken(p, b[p][0])] + rest, b)
  {
    var t := Taken(p, b[p][0]);
    forall q | 0 <= q < |b| ensures FromLevel([t] + rest, q) == b[q] {
      FromLevelCons(t, rest, q);
      assert FromLevel(rest, q) == b[p := b[p][1..]][q];
      assert b[p] == [b[p][0]] + b[p][1..];
    }
    assert HighestFirst([t] + rest);
  }

  lemma {:induction false} DrainIsStableSort<T>(b: Backlog<T>)
    ensures IsStableSort(Drain(b), b)
    ensures forall i :: 0 <= i < |Drain(b)| ==> Drain(b)[i].level <= HighestBelow(b, |b|)
    decreases Total(b)
  {
    var p := HighestBelow(b, |b|);
    if p >= 0 {
      TotalAfterTake(b, p);
      var rest := b[p := b[p][1..]];
      DrainIsStableSort(rest);
      assert HighestBelow(rest, |rest|) <= p;
      ConsSort(b, Drain(rest), p);
    }
  }

  /** There is only one stable sort, so the drain order is fully determined. */
  lemma {:induction false} StableSortIsUnique<T>(a: seq<Taken<T>>, c: seq<Taken<T>>, b: Backlog<T>)
    requires IsStableSort(a, b) && IsStableSort(c, b)
    ensures a == c
    decreases |a|
  {
    if a == [] || c == [] {
      NoneTaken(a, b);
      NoneTaken(c, b);
    } else {
      HeadOfSort(a, b);
      HeadOfSort(c, b);
      var p := a[0].level;
      assert c[0].level == p;
      var rest := b[p := b[p][1..]];
      TailOfSort(a, b);
      TailOfSort(c, b);
      StableSortIsUnique(a[1..], c[1..], rest);
      assert a == [a[0]] + a[1..] && c == [c[0]] + c[1..];
    }
  }

  lemma NoneTaken<T>(a: seq<Taken<T>>, b: Backlog<T>)
    requires IsStableSort(a, b)
    ensures a == [] <==> forall p :: 0 <= p < |b| ==> b[p] == []
  {
    if a != [] {
      assert FromLevel(a, a[0].level) != [];
    }
  }

  lemma {:induction false} FromLevelMember<T>(a: seq<Taken<T>>, p: nat)
    requires FromLevel(a, p) != []
    ensures exists i :: 0 <= i < |a| && a[i].level == p
  {
    if a[0].level != p {
      FromLevelMember(a[1..], p);
      var i :| 0 <= i < |a[1..]| && a[1..][i].level == p;
      assert a[i + 1].level == p;
    }
  }

  lemma HeadOfSort<T>(a: seq<Taken<T>>, b: Backlog<T>)
    requires IsStableSort(a, b) && a != []
    ensures a[0].level == HighestBelow(b, |b|) && a[0].msg == b[a[0].level][0]
  {
    var p := HighestBelow(b, |b|);
    assert FromLevel(a, a[0].level) == b[a[0].level];
    assert b[a[0].level] != [];
    FromLevelMember(a, p);
    var i :| 0 <= i < |a| && a[i].level == p;
    assert i > 0 ==> a[0].level >= a[i].level;
  }

  lemma TailOfSort<T>(a: seq<Taken<T>>, b: Backlog<T>)
    requires IsStableSort(a, b) && a != []
    ensures b[a[0].level] != []
    ensures IsStableSort(a[1..], b[a[0].level := b[a[0].level][1..]])
  {
    var p := a[0].level;
    assert FromLevel(a, p) == b[p];
    var rest := b[p := b[p][1..]];
    forall q | 0 <= q < |rest| ensures FromLevel(a[1..], q) == rest[q] {
      assert FromLevel(a, q) == b[q];
    }
  }

  // ---------------------------------------------------------------- runs of sends and scans

  datatype Event<T> = SendTo(level: nat, msg: T) | Receive

  datatype Manager<T> = Manager(capacity: nat, backlog: Backlog<T>, accepted: seq<Taken<T>>, taken: seq<Taken<T>>)

  function NextManager<T>(m: Manager<T>, e: Event<T>): Manager<T> {
    match e
    case SendTo(p, x) =>
      if p < |m.backlog| && |m.backlog[p]| < m.capacity then
        m.(backlog := m.backlog[p := m.backlog[p] + [x]], accepted := m.accepted + [Taken(p, x)])
      else m
    case Receive =>
      var p := HighestBelow(m.backlog, |m.backlog|);
      if p < 0 then m
      else m.(backlog := m.backlog[p := m.backlog[p][1..]], taken := m.taken + [Taken(p, m.backlog[p][0])])
  }

  function RunManager<T>(m: Manager<T>, events: seq<Event<T>>): Manager<T>
    decreases |events|
  {
    if events == [] then m else RunManager(NextManager(m, events[0]), events[1..])
  }

  ghost predicate LevelLedger<T>(m: Manager<T>) {
    forall p :: 0 <= p < |m.backlog| ==>
      && FromLevel(m.taken, p) + m.backlog[p] == FromLevel(m.accepted, p)
      && |m.backlog[p]| <= m.capacity
  }

  lemma {:induction false} FromLevelAppend<T>(a: seq<Taken<T>>, t: Taken<T>, p: nat)
    ensures FromLevel(a + [t], p) == FromLevel(a, p) + if t.level == p then [t.msg] else []
    decreases |a|
  {
    if a == [] {
      assert a + [t] == [t];
      assert [t][1..] == [];
    } else {
      assert (a + [t])[1..] == a[1..] + [t];
      FromLevelAppend(a[1..], t, p);
    }
  }

  lemma NextKeepsLedger<T>(m: Manager<T>, e: Event<T>)
    requires LevelLedger(m)
    ensures LevelLedger(NextManager(m, e))
  {
    var m' := NextManager(m, e);
    forall p | 0 <= p < |m'.backlog|
      ensures FromLevel(m'.taken, p) + m'.backlog[p] == FromLevel(m'.accepted, p) && |m'.backlog[p]| <= m'.capacity
    {
      assert FromLevel(m.taken, p) + m.backlog[p] == FromLevel(m.accepted, p);
      match e
      case SendTo(q, x) =>
        FromLevelAppend(m.accepted, Taken(q, x), p);
      case Receive =>
        var q := HighestBelow(m.backlog, |m.backlog|);
        if q >= 0 {
          FromLevelAppend(m.taken, Taken(q, m.backlog[q][0]), p);
          assert q == p ==> m.backlog[p] == [m.backlog[p][0]] + m.backlog[p][1..];
        }
    }
  }

  lemma {:induction false} RunKeepsLedger<T>(m: Manager<T>, events: seq<Event<T>>)
    requires LevelLedger(m)
    ensures LevelLedger(RunManager(m, events))
    ensures |RunManager(m, events).backlog| == |m.backlog| && RunManager(m, events).capacity == m.capacity
    decreases |events|
  {
    if events != [] {
      NextKeepsLedger(m, events[0]);
      RunKeepsLedger(NextManager(m, events[0]), events[1..]);
    }
  }

  function NewManager<T>(maxPending: nat): Manager<T> {
    Manager(maxPending / LEVELS, [[], [], [], []], [], [])
  }

  /** Over every run of sends and scans each level is a lossless FIFO within a quarter of the capacity. */
  lemma PerLevelFifo<T>(maxPending: nat, events: seq<Event<T>>, level: nat)
    requires level < LEVELS
    ensures var m := RunManager(NewManager(maxPending), events);
            && |m.backlog| == LEVELS
            && FromLevel(m.taken, level) + m.backlog[level] == FromLevel(m.accepted, level)
            && m.capacity == maxPending / LEVELS
            && |m.backlog[level]| <= maxPending / LEVELS
  {
    RunKeepsLedger(NewManager(maxPending), events);
  }

  /**
   In every run a send goes through exactly when its own level has room, and a scan takes the
   oldest message of a level above which nothing waits, if anything waits at all.
   */
  lemma SendsAndScans<T>(maxPending: nat, events: seq<Event<T>>, level: nat, msg: T)
    requires level < LEVELS
    ensures var m := RunManager(NewManager(maxPending), events);
            var sent, scanned := NextManager(m, SendTo(level, msg)), NextManager(m, Receive);
            && |m.backlog| == LEVELS
            && sent.taken == m.taken && scanned.accepted == m.accepted
            && sent.accepted ==
               (if |m.backlog[level]| < maxPending / LEVELS then m.accepted + [Taken(level, msg)] else m.accepted)
            && (scanned.taken == m.taken <==> forall p :: 0 <= p < LEVELS ==> m.backlog[p] == [])
            && (scanned.taken != m.taken ==>
                  exists p :: 0 <= p < LEVELS && m.backlog[p] != []
                              && (forall q :: p < q < LEVELS ==> m.backlog[q] == [])
                              && scanned.taken == m.taken + [Taken(p, m.backlog[p][0])])
  {
    PerLevelFifo(maxPending, events, level);
  }

  // ---------------------------------------------------------------- the manager object

  class PriorityBackpressureManager<T> {
    const low: BackpressureQueue<T>
    const normal: BackpressureQueue<T>
    const high: BackpressureQueue<T>
    const critical: BackpressureQueue<T>

    ghost predicate Valid()
      reads this, low, normal, high, critical
    {
      && low != normal && low != high && low != critical
      && normal != high && normal != critical && high != critical
      && low.Valid() && normal.Valid() && high.Valid() && critical.Valid()
    }

    ghost function Contents(): Backlog<T>
      reads this, low, normal, high, critical
    {
      [low.queue, normal.queue, high.queue, critical.queue]
    }

    constructor (maxPending: nat)
      requires maxPending >= LEVELS
      ensures Valid() && Contents() == NewManager<T>(maxPending).backlog
      ensures low.capacity == normal.capacity == high.capacity == critical.capacity == maxPending / LEVELS
      ensures fresh(low) && fresh(normal) && fresh(high) && fresh(critical)
    {
      low := new BackpressureQueue(maxPending / LEVELS);
      normal := new BackpressureQueue(maxPending / LEVELS);
      high := new BackpressureQueue(maxPending / LEVELS);
      critical := new BackpressureQueue(maxPending / LEVELS);
    }

    function Sender(level: nat): (q: BackpressureQueue<T>)
      requires level < LEVELS
      reads this, low, normal, high, critical
      ensures q.queue == Contents()[level]
    {
      if level == LOW then low else if level == NORMAL then normal else if level == HIGH then high else critical
    }

    /**
     One non-blocking scan: the oldest message of the highest queue that has one. The manager
     keeps a sender of each queue, so none is ever disconnected.
     */
    method ScanPrioritized(age: nat) returns (r: Option<T>)
      requires Valid()
      modifies low, normal, high, critical
      ensures Valid()
      ensures var p := HighestBelow(old(Contents()), LEVELS);
              if p < 0 then r == None && Contents() == old(Contents())
              else r == Some(old(Contents())[p][0]) && Contents() == old(Contents())[p := old(Contents())[p][1..]]
    {
      HighestOfFour(Contents());
      var got := critical.TryRecv(false, age);
      if got.Received? {
        return Some(got.msg);
      }
      got := high.TryRecv(false, age);
      if got.Received? {
        return Some(got.msg);
      }
      got := normal.TryRecv(false, age);
      if got.Received? {
        return Some(got.msg);
      }
      got := low.TryRecv(false, age);
      if got.Received? {
        return Some(got.msg);
      }
      return None;
    }
  }

  lemma HighestOfFour<T>(b: Backlog<T>)
    requires |b| == LEVELS
    ensures HighestBelow(b, LEVELS) ==
            if b[CRITICAL] != [] then CRITICAL else if b[HIGH] != [] then HIGH
            else if b[NORMAL] != [] then NORMAL else if b[LOW] != [] then LOW else -1
  {
  }
}
