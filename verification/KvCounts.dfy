/**
 What the statistics and the version counter of the key-value store add up to over whole runs
 (examples/distributed_kv_store.rs): every command counted once, every key accounted for.
 */
module KvCounts {
  import opened Wrappers
  import opened KvStore
  import opened KvRuns
  import opened KvReads

  // ---------------------------------------------------------------- cleanup

  /**
   Every 60 seconds exactly the entries whose lifetime has ended go, and are counted; sooner
   nothing happens.
   */
  lemma CleanupTakesExpired(s: Store, now: nat)
    ensures var t := Cleanup(s, now);
            if now - s.lastCleanup < 60 then t == s
            else
              && (forall k :: k in t.data <==> k in s.data && !LifetimeOver(s.data[k].updatedAt, s.data[k].ttl, now))
              && (forall k :: k in t.data ==> t.data[k] == s.data[k])
              && |t.data| + t.stats.expiredKeys == |s.data| + s.stats.expiredKeys
              && t.stats.totalKeys == |t.data|
              && t.lastCleanup == now && t.versionCounter == s.versionCounter
  {
    forall k | k in s.data ensures Expired(s.data[k], now) <==> LifetimeOver(s.data[k].updatedAt, s.data[k].ttl, now) {
      ExpiredIsOver(s.data[k], now);
    }
    CleanupCounts(s, now);
  }

  lemma CleanupCounts(s: Store, now: nat)
    ensures |Cleanup(s, now).data| + Cleanup(s, now).stats.expiredKeys == |s.data| + s.stats.expiredKeys
  {
    if CleanupDue(s, now) {
      var gone := ExpiredKeys(s.data, now);
      assert (s.data - gone).Keys == s.data.Keys - gone;
      assert gone <= s.data.Keys;
    }
  }

  // ---------------------------------------------------------------- commands

  function CountOf(cmds: seq<Timed>, counts: Command -> bool): nat {
    if cmds == [] then 0 else CountOf(cmds[..|cmds| - 1], counts) + if counts(cmds[|cmds| - 1].command) then 1 else 0
  }

  predicate IsGet(c: Command) { c.Get? }

  predicate IsDelete(c: Command) { c.Delete? }

  predicate IsSet(c: Command) { c.Set? || c.SetIfNotExists? }

  /** Commands that draw a version, a conditional insert only if it goes through. */
  predicate IsDrawing(c: Command) { c.Set? || c.SetIfNotExists? || c.CompareAndSwap? || c.Increment? }

  /** A conditional insert that finds an entry does nothing and is not counted. */
  predicate Blocked(s: Store, t: Timed) {
    t.command.SetIfNotExists? && Found(s, t.command.key, t.now)
  }

  predicate Creates(s: Store, t: Timed) {
    (t.command.Set? || t.command.SetIfNotExists? || t.command.Increment?) && !Found(s, t.command.key, t.now)
  }

  predicate Deletes(s: Store, t: Timed) {
    t.command.Delete? && Found(s, t.command.key, t.now)
  }

  /** How many commands of a run did `what` when their turn came. */
  function CountWhere(s: Store, cmds: seq<Timed>, what: (Store, Timed) -> bool): nat {
    if cmds == [] then 0
    else
      var rest := cmds[..|cmds| - 1];
      CountWhere(s, rest, what) + if what(Run(s, rest), cmds[|cmds| - 1]) then 1 else 0
  }

  /** The time of the last command that was counted. */
  function LastCounted(s: Store, cmds: seq<Timed>): nat {
    if cmds == [] then s.stats.lastUpdated
    else
      var rest, last := cmds[..|cmds| - 1], cmds[|cmds| - 1];
      if Blocked(Run(s, rest), last) then LastCounted(s, rest) else last.now
  }

  /** What one command adds to the counts, `once` being 0 for a conditional insert that does nothing. */
  predicate Adds(before: Store, after: Store, c: Command, once: nat) {
    && after.stats.totalOperations == before.stats.totalOperations + once
    && after.stats.getOperations == before.stats.getOperations + (if IsGet(c) then 1 else 0)
    && after.stats.deleteOperations == before.stats.deleteOperations + (if IsDelete(c) then 1 else 0)
    && after.stats.setOperations == before.stats.setOperations + (if IsSet(c) then once else 0)
    && after.versionCounter == before.versionCounter + if IsDrawing(c) then once else 0
  }

  lemma ExecuteAdds(s: Store, c: Command, now: nat)
    ensures var blocked := c.SetIfNotExists? && c.key in s.data;
            var s' := Execute(s, c, now);
            Adds(s, s', c, if blocked then 0 else 1)
            && s'.stats.lastUpdated == if blocked then s.stats.lastUpdated else now
  {
  }

  lemma CleanupAddsNothing(s: Store, now: nat)
    ensures var t := Cleanup(s, now);
            t.versionCounter == s.versionCounter
            && t.stats == s.stats.(totalKeys := t.stats.totalKeys, expiredKeys := t.stats.expiredKeys)
  {
  }

  lemma CommandIsCounted(s: Store, t: Timed)
    ensures var s' := Apply(s, t.command, t.now);
            Adds(s, s', t.command, if Blocked(s, t) then 0 else 1)
            && s'.stats.lastUpdated == if Blocked(s, t) then s.stats.lastUpdated else t.now
  {
    CleanupAddsNothing(s, t.now);
    ExecuteAdds(Cleanup(s, t.now), t.command, t.now);
    if t.command.SetIfNotExists? {
      FoundAfterCleanup(s, t.command.key, t.now);
    }
  }

  /**
   Over every run each command is counted once, as what it is, except conditional inserts that
   find an entry; and the version counter counts the commands that draw a version, whether or
   not they then write.
   */
  lemma {:induction false} OperationsAreCounted(s: Store, cmds: seq<Timed>)
    ensures var t, blocked := Run(s, cmds), CountWhere(s, cmds, Blocked);
            && t.stats.totalOperations + blocked == s.stats.totalOperations + |cmds|
            && t.stats.getOperations == s.stats.getOperations + CountOf(cmds, IsGet)
            && t.stats.deleteOperations == s.stats.deleteOperations + CountOf(cmds, IsDelete)
            && t.stats.setOperations + blocked == s.stats.setOperations + CountOf(cmds, IsSet)
            && t.versionCounter + blocked == s.versionCounter + CountOf(cmds, IsDrawing)
            && t.stats.lastUpdated == LastCounted(s, cmds)
  {
    if cmds != [] {
      var rest, last := cmds[..|cmds| - 1], cmds[|cmds| - 1];
      OperationsAreCounted(s, rest);
      CommandIsCounted(Run(s, rest), last);
    }
  }

  // ---------------------------------------------------------------- keys

  lemma KeysPlus(data: map<string, KvEntry>, key: string, e: KvEntry)
    ensures |data[key := e]| == |data| + if key in data then 0 else 1
  {
    assert data[key := e].Keys == data.Keys + {key};
  }

  lemma KeysMinus(data: map<string, KvEntry>, key: string)
    ensures |data - {key}| == |data| - if key in data then 1 else 0
  {
    assert (data - {key}).Keys == data.Keys - {key};
  }

  lemma ExecuteCountsKeys(s: Store, c: Command, now: nat)
    ensures Execute(s, c, now).stats.expiredKeys == s.stats.expiredKeys
    ensures var created := (c.Set? || c.SetIfNotExists? || c.Increment?) && c.key !in s.data;
            var deleted := c.Delete? && c.key in s.data;
            |Execute(s, c, now).data| + (if deleted then 1 else 0) == |s.data| + if created then 1 else 0
  {
    var data := Execute(s, c, now).data;
    if c.Delete? {
      KeysMinus(s.data, c.key);
    } else if data != s.data {
      assert data == s.data[c.key := data[c.key]];
      KeysPlus(s.data, c.key, data[c.key]);
    }
  }

  lemma CommandAccountsForKeys(s: Store, t: Timed)
    ensures var s' := Apply(s, t.command, t.now);
            |s'.data| + (if Deletes(s, t) then 1 else 0) + s'.stats.expiredKeys
            == |s.data| + (if Creates(s, t) then 1 else 0) + s.stats.expiredKeys
  {
    CleanupCounts(s, t.now);
    ExecuteCountsKeys(Cleanup(s, t.now), t.command, t.now);
    if !t.command.GetMultiple? && !t.command.ListKeys? {
      FoundAfterCleanup(s, t.command.key, t.now);
    }
  }

  /** Conservation of keys: over every run the keys created are still there, were deleted, or have expired. */
  lemma {:induction false} KeysAreAccountedFor(s: Store, cmds: seq<Timed>)
    ensures var t := Run(s, cmds);
            |t.data| + CountWhere(s, cmds, Deletes) + t.stats.expiredKeys
            == |s.data| + CountWhere(s, cmds, Creates) + s.stats.expiredKeys
  {
    if cmds != [] {
      var rest, last := cmds[..|cmds| - 1], cmds[|cmds| - 1];
      KeysAreAccountedFor(s, rest);
      CommandAccountsForKeys(Run(s, rest), last);
    }
  }
}
