/**
 What whole runs of commands on the key-value store guarantee
 (examples/distributed_kv_store.rs): the bookkeeping they keep, what a successful
 compare-and-swap proves, and what counters add up to.
 */
module KvRuns {
  import opened Wrappers
  import opened Decimal
  import opened KvStore

  /** A command and the time it is applied at. */
  datatype Timed = Timed(command: Command, now: nat)

  function Run(s: Store, cmds: seq<Timed>): Store {
    if cmds == [] then s
    else Apply(Run(s, cmds[..|cmds| - 1]), cmds[|cmds| - 1].command, cmds[|cmds| - 1].now)
  }

  /** The clock never goes backwards, from `start` on. */
  ghost predicate InOrder(cmds: seq<Timed>, start: nat) {
    && (cmds != [] ==> start <= cmds[0].now)
    && forall i, j :: 0 <= i < j < |cmds| ==> cmds[i].now <= cmds[j].now
  }

  function End(cmds: seq<Timed>, start: nat): nat {
    if cmds == [] then start else cmds[|cmds| - 1].now
  }

  // ---------------------------------------------------------------- bookkeeping

  ghost predicate DistinctVersions(data: map<string, KvEntry>) {
    forall j, k :: j in data && k in data && data[j].version == data[k].version ==> j == k
  }

  ghost predicate VersionsUpTo(data: map<string, KvEntry>, counter: nat) {
    forall k :: k in data ==> data[k].version <= counter
  }

  ghost predicate Good(s: Store) {
    && DistinctVersions(s.data)
    && VersionsUpTo(s.data, s.versionCounter)
    && s.stats.totalKeys == |s.data|
  }

  lemma CleanupKeepsGood(s: Store, now: nat)
    requires Good(s)
    ensures Good(Cleanup(s, now)) && Cleanup(s, now).versionCounter == s.versionCounter
    ensures forall k :: k in Cleanup(s, now).data ==> k in s.data && Cleanup(s, now).data[k] == s.data[k]
  {
  }

  lemma PutCounts(s: Store, key: string, e: KvEntry)
    requires s.stats.totalKeys == |s.data|
    ensures Put(s, key, e).stats.totalKeys == |Put(s, key, e).data|
  {
    assert Put(s, key, e).data.Keys == s.data.Keys + {key};
  }

  /** An entry with a new version, or with the version its key already had, keeps versions distinct. */
  lemma PutKeepsVersions(s: Store, key: string, e: KvEntry, counter: nat)
    requires DistinctVersions(s.data) && VersionsUpTo(s.data, s.versionCounter) && s.versionCounter <= counter
    requires s.versionCounter < e.version <= counter || (key in s.data && s.data[key].version == e.version)
    ensures DistinctVersions(Put(s, key, e).data) && VersionsUpTo(Put(s, key, e).data, counter)
  {
  }

  lemma ExecuteCounts(s: Store, c: Command, now: nat)
    requires s.stats.totalKeys == |s.data|
    ensures Execute(s, c, now).stats.totalKeys == |Execute(s, c, now).data|
  {
    var s' := Execute(s, c, now);
    if c.Delete? {
      assert s'.data.Keys == s.data.Keys - {c.key};
    } else if s'.data != s.data {
      PutCounts(s, c.key, s'.data[c.key]);
    }
  }

  lemma ExecuteKeepsVersions(s: Store, c: Command, now: nat)
    requires DistinctVersions(s.data) && VersionsUpTo(s.data, s.versionCounter)
    ensures var s' := Execute(s, c, now);
            && s.versionCounter <= s'.versionCounter
            && DistinctVersions(s'.data) && VersionsUpTo(s'.data, s'.versionCounter)
  {
    var s' := Execute(s, c, now);
    if !c.Delete? && s'.data != s.data {
      PutKeepsVersions(s, c.key, s'.data[c.key], s'.versionCounter);
    }
  }

  lemma {:induction false} ApplyKeepsGood(s: Store, c: Command, now: nat)
    requires Good(s)
    ensures Good(Apply(s, c, now)) && s.versionCounter <= Apply(s, c, now).versionCounter
  {
    CleanupKeepsGood(s, now);
    ExecuteCounts(Cleanup(s, now), c, now);
    ExecuteKeepsVersions(Cleanup(s, now), c, now);
  }

  lemma {:induction false} RunKeepsGood(s: Store, cmds: seq<Timed>)
    requires Good(s)
    ensures Good(Run(s, cmds)) && s.versionCounter <= Run(s, cmds).versionCounter
  {
    if cmds != [] {
      var rest, last := cmds[..|cmds| - 1], cmds[|cmds| - 1];
      RunKeepsGood(s, rest);
      ApplyKeepsGood(Run(s, rest), last.command, last.now);
    }
  }

  lemma RestoreKeepsGood(s: Store, snapshot: Snapshot)
    requires DistinctVersions(snapshot.data) && snapshot.stats.totalKeys == |snapshot.data|
    ensures Good(Restore(s, snapshot))
  {
    assert IsMaxVersion(snapshot.data, MaxVersion(snapshot.data));
  }

  // ---------------------------------------------------------------- versions

  /** The same version and value, which only an expiry command may otherwise have touched. */
  predicate SameValue(a: map<string, KvEntry>, b: map<string, KvEntry>, k: string) {
    k in a && k in b && a[k].version == b[k].version && a[k].value == b[k].value
  }

  lemma ExecuteKeepsOldVersions(s: Store, c: Command, now: nat, k: string)
    requires VersionsUpTo(s.data, s.versionCounter)
    requires k in Execute(s, c, now).data
    ensures Execute(s, c, now).data[k].version > s.versionCounter || SameValue(s.data, Execute(s, c, now).data, k)
  {
  }

  lemma ApplyKeepsOldVersions(s: Store, c: Command, now: nat, k: string)
    requires Good(s)
    requires k in Apply(s, c, now).data
    ensures Apply(s, c, now).data[k].version > s.versionCounter || SameValue(s.data, Apply(s, c, now).data, k)
  {
    CleanupKeepsGood(s, now);
    ExecuteKeepsOldVersions(Cleanup(s, now), c, now, k);
  }

  lemma {:induction false} RunKeepsCounter(s: Store, cmds: seq<Timed>, i: nat)
    requires Good(s) && i <= |cmds|
    ensures Run(s, cmds[..i]).versionCounter <= Run(s, cmds).versionCounter
  {
    if i == |cmds| {
      assert cmds[..i] == cmds;
    } else {
      var rest, last := cmds[..|cmds| - 1], cmds[|cmds| - 1];
      assert rest[..i] == cmds[..i];
      RunKeepsGood(s, rest);
      RunKeepsCounter(s, rest, i);
      ApplyKeepsGood(Run(s, rest), last.command, last.now);
    }
  }

  /** An entry whose version was drawn by some point of a run was there, with that value, at that point. */
  lemma {:induction false} RunKeepsOldVersions(s: Store, cmds: seq<Timed>, i: nat, k: string)
    requires Good(s) && i <= |cmds|
    requires k in Run(s, cmds).data && Run(s, cmds).data[k].version <= Run(s, cmds[..i]).versionCounter
    ensures SameValue(Run(s, cmds[..i]).data, Run(s, cmds).data, k)
  {
    if i == |cmds| {
      assert cmds[..i] == cmds;
    } else {
      var rest, last := cmds[..|cmds| - 1], cmds[|cmds| - 1];
      assert rest[..i] == cmds[..i];
      RunKeepsGood(s, rest);
      RunKeepsCounter(s, rest, i);
      ApplyKeepsOldVersions(Run(s, rest), last.command, last.now, k);
      RunKeepsOldVersions(s, rest, i, k);
    }
  }

  /** The swap finds the version it expects, once due cleanup is done. */
  predicate SwapSucceeds(s: Store, key: string, expected: nat, now: nat) {
    key in Cleanup(s, now).data && Cleanup(s, now).data[key].version == expected
  }

  lemma SwapFindsEntry(s: Store, key: string, expected: nat, now: nat)
    requires SwapSucceeds(s, key, expected, now)
    ensures key in s.data && s.data[key].version == expected
  {
  }

  /**
   A compare-and-swap that succeeds on a version seen earlier proves that the value had not
   changed since: the key held that version and that value at every point in between.
   */
  lemma {:induction false} CasProvesUnchanged(s: Store, cmds: seq<Timed>, key: string, now: nat, i: nat)
    requires Good(s) && key in s.data && i <= |cmds|
    requires SwapSucceeds(Run(s, cmds), key, s.data[key].version, now)
    ensures SameValue(s.data, Run(s, cmds[..i]).data, key)
  {
    SwapFindsEntry(Run(s, cmds), key, s.data[key].version, now);
    assert cmds[..0] == [];
    RunKeepsOldVersions(s, cmds, 0, key);
    RunKeepsGood(s, cmds[..i]);
    RunKeepsOldVersions(s, cmds, i, key);
  }

  /** The swap writes exactly when it succeeds, and what it writes gets a version never seen before. */
  lemma SwapWritesIff(s: Store, key: string, expected: nat, value: string, metadata: EntryMetadata, now: nat)
    requires Good(s)
    ensures var s' := Apply(s, CompareAndSwap(key, expected, value, metadata), now);
            && (SwapSucceeds(s, key, expected, now) <==>
                  key in s'.data && s'.data[key].version > s.versionCounter)
            && (SwapSucceeds(s, key, expected, now) ==> s'.data[key].value == value)
            && (!SwapSucceeds(s, key, expected, now) ==> s'.data == Cleanup(s, now).data)
            && (forall k :: k != key ==> (k in s'.data <==> k in Cleanup(s, now).data))
  {
    CleanupKeepsGood(s, now);
  }

  // ---------------------------------------------------------------- counters

  datatype Delta = Delta(amount: int, now: nat)

  function Increments(key: string, deltas: seq<Delta>): seq<Timed> {
    if deltas == [] then []
    else
      var last := deltas[|deltas| - 1];
      Increments(key, deltas[..|deltas| - 1]) + [Timed(Increment(key, last.amount), last.now)]
  }

  function Sum(deltas: seq<Delta>): int {
    if deltas == [] then 0 else Sum(deltas[..|deltas| - 1]) + deltas[|deltas| - 1].amount
  }

  /** The key holds the text of `n` and never expires. */
  predicate Holds(s: Store, key: string, n: int) {
    key in s.data && s.data[key].ttl == None && s.data[key].value == PrintInt(n)
  }

  lemma IncrementOnce(s: Store, key: string, n: int, delta: int, now: nat)
    requires InI64(n) && Holds(s, key, n)
    ensures Holds(Apply(s, Increment(key, delta), now), key, WrapI64(n + delta))
  {
    PrintParseRoundTrip(n);
    assert Holds(Cleanup(s, now), key, n);
  }

  lemma FirstIncrement(s: Store, key: string, delta: int, now: nat)
    requires key !in s.data
    ensures Holds(Apply(s, Increment(key, delta), now), key, delta)
  {
    assert key !in Cleanup(s, now).data;
  }

  lemma RunLast(s: Store, cmds: seq<Timed>, last: Timed)
    ensures Run(s, cmds + [last]) == Apply(Run(s, cmds), last.command, last.now)
  {
    assert (cmds + [last])[..|cmds|] == cmds;
  }

  lemma IncrementsLast(s: Store, key: string, deltas: seq<Delta>)
    requires deltas != []
    ensures var rest, last := deltas[..|deltas| - 1], deltas[|deltas| - 1];
            Run(s, Increments(key, deltas))
            == Apply(Run(s, Increments(key, rest)), Increment(key, last.amount), last.now)
  {
    var rest, last := deltas[..|deltas| - 1], deltas[|deltas| - 1];
    RunLast(s, Increments(key, rest), Timed(Increment(key, last.amount), last.now));
  }

  lemma SumOfOne(deltas: seq<Delta>)
    requires |deltas| == 1 && InI64(deltas[0].amount)
    ensures WrapI64(Sum(deltas)) == deltas[0].amount
  {
    assert deltas[..0] == [];
    WrapI64InRange(deltas[0].amount);
  }

  lemma OnlyIncrement(s: Store, key: string, deltas: seq<Delta>)
    requires key !in s.data && |deltas| == 1 && InI64(deltas[0].amount)
    ensures Holds(Run(s, Increments(key, deltas)), key, WrapI64(Sum(deltas)))
  {
    IncrementsLast(s, key, deltas);
    assert deltas[..0] == [];
    FirstIncrement(s, key, deltas[0].amount, deltas[0].now);
    SumOfOne(deltas);
  }

  /** Any sequence of increments on an absent key stores the printed 64-bit sum of the deltas. */
  lemma {:induction false} IncrementsStoreSum(s: Store, key: string, deltas: seq<Delta>)
    requires key !in s.data && deltas != []
    requires forall i :: 0 <= i < |deltas| ==> InI64(deltas[i].amount)
    ensures Holds(Run(s, Increments(key, deltas)), key, WrapI64(Sum(deltas)))
  {
    if |deltas| == 1 {
      OnlyIncrement(s, key, deltas);
    } else {
      var rest, last := deltas[..|deltas| - 1], deltas[|deltas| - 1];
      IncrementsStoreSum(s, key, rest);
      IncrementsLast(s, key, deltas);
      IncrementOnce(Run(s, Increments(key, rest)), key, WrapI64(Sum(rest)), last.amount, last.now);
      WrapI64Sum(Sum(rest), last.amount);
    }
  }
}
