/**
 What readers of the key-value store see (examples/distributed_kv_store.rs): what cleanup
 hides and does not hide, and what is read back after each command.
 */
module KvReads {
  import opened Wrappers
  import opened Decimal
  import opened KeyOrder
  import opened KvStore
  import opened KvRuns

  // ---------------------------------------------------------------- cleanup

  /** What is expired stays expired, so a cleanup takes nothing that is live later. */
  lemma CleanupKeepsLive(s: Store, at: nat, now: nat, k: string)
    requires at <= now
    ensures Live(Cleanup(s, at).data, k, now) <==> Live(s.data, k, now)
    ensures Live(s.data, k, now) ==> Cleanup(s, at).data[k] == s.data[k]
  {
  }

  lemma CleanupKeepsEntries(s: Store, at: nat, keys: seq<string>, now: nat)
    requires at <= now
    ensures (map k | k in keys && Live(Cleanup(s, at).data, k, now) :: Cleanup(s, at).data[k])
            == (map k | k in keys && Live(s.data, k, now) :: s.data[k])
  {
    forall k ensures Live(Cleanup(s, at).data, k, now) <==> Live(s.data, k, now)
             ensures Live(s.data, k, now) ==> Cleanup(s, at).data[k] == s.data[k] {
      CleanupKeepsLive(s, at, now, k);
    }
  }

  lemma CleanupKeepsMatches(s: Store, at: nat, prefix: Option<string>, now: nat)
    requires at <= now
    ensures Matching(Cleanup(s, at).data, prefix, now) == Matching(s.data, prefix, now)
  {
    forall k ensures k in Matching(Cleanup(s, at).data, prefix, now) <==> k in Matching(s.data, prefix, now) {
      CleanupKeepsLive(s, at, now, k);
    }
  }

  /** No query at or after the time of a cleanup can tell whether it took place. */
  lemma CleanupInvisible(s: Store, at: nat, q: Command, now: nat)
    requires at <= now
    ensures Query(Cleanup(s, at), q, now) == Query(s, q, now)
  {
    match q
    case Get(k) => CleanupKeepsLive(s, at, now, k);
    case GetMultiple(keys) => CleanupKeepsEntries(s, at, keys, now);
    case ListKeys(prefix, _) => CleanupKeepsMatches(s, at, prefix, now);
    case _ =>
  }

  /**
   Commands can tell. A conditional insert goes through exactly when the key is absent, or
   expired with cleanup due; an expired key read as absent otherwise still blocks it.
   */
  lemma ConditionalInsertIff(s: Store, key: string, value: string, metadata: EntryMetadata, now: nat)
    requires Good(s)
    ensures var s' := Apply(s, SetIfNotExists(key, value, metadata), now);
            (key in s'.data && s'.data[key].version > s.versionCounter) <==>
              key !in s.data || (Expired(s.data[key], now) && CleanupDue(s, now))
    ensures key in s.data && Expired(s.data[key], now) && !CleanupDue(s, now) ==>
              && Query(s, Get(key), now) == Value(None)
              && Apply(s, SetIfNotExists(key, value, metadata), now) == s
  {
    CleanupKeepsGood(s, now);
  }

  // ---------------------------------------------------------------- cleanup schedules

  /** What is stored under a key, expired or not, and what a read at `t` finds there. */
  function At(data: map<string, KvEntry>, k: string): Option<KvEntry> {
    if k in data then Some(data[k]) else None
  }

  function Seen(data: map<string, KvEntry>, k: string, t: nat): Option<KvEntry> {
    Unexpired(At(data, k), t)
  }

  function Unexpired(e: Option<KvEntry>, t: nat): Option<KvEntry> {
    if e.Some? && Expired(e.value, t) then None else e
  }

  /** Two stores that nobody reading at `t` or later can tell apart; what has expired may differ. */
  ghost predicate Alike(a: Store, b: Store, t: nat) {
    a.versionCounter == b.versionCounter && forall k :: Seen(a.data, k, t) == Seen(b.data, k, t)
  }

  /** The command has a key of its own. */
  predicate Addresses(c: Command, key: string) {
    !c.ListKeys? && !c.GetMultiple? && c.key == key
  }

  /** What the command stores when it finds the expired entry `e` under its key, if it stores anything. */
  function Revived(e: KvEntry, c: Command, version: nat, now: nat): Option<KvEntry> {
    match c
    case Set(_, value, ttl, metadata) => Some(KvEntry(value, version, e.createdAt, now, ttl, metadata))
    case CompareAndSwap(_, expected, value, metadata) =>
      if e.version == expected then
        Some(e.(value := value, version := version, updatedAt := now, metadata := metadata))
      else None
    case Expire(_, ttl) => Some(e.(ttl := Some(ttl), updatedAt := now))
    case _ => None
  }

  /**
   It makes no difference to the command whether the expired entry under its key has been
   cleaned up. An increment or a conditional insert always notices; a swap on the entry's
   version or an expiry command brings it back, unless its new lifetime overflows at once; a
   set notices only by the creation time it keeps.
   */
  predicate Unnoticed(e: KvEntry, c: Command, version: nat, now: nat) {
    match c
    case Increment(_, _) => false
    case SetIfNotExists(_, _, _) => false
    case _ =>
      var revived := Revived(e, c, version, now);
      revived.Some? ==> Expired(revived.value, now) || (c.Set? && e.createdAt == now)
  }

  /** The command does not address an expired entry, or does not notice it. */
  predicate Harmless(s: Store, c: Command, now: nat) {
    c.ListKeys? || c.GetMultiple? || Seen(s.data, c.key, now) == At(s.data, c.key)
    || Unnoticed(s.data[c.key], c, s.versionCounter + 1, now)
  }

  function Without(s: Store, key: string): Store {
    s.(data := s.data - {key})
  }

  lemma SeenLater(data: map<string, KvEntry>, k: string, t: nat, now: nat)
    requires t <= now
    ensures Seen(data, k, now) == Unexpired(Seen(data, k, t), now)
  {
  }

  lemma CleanupSeen(s: Store, k: string, now: nat)
    ensures Seen(Cleanup(s, now).data, k, now) == Seen(s.data, k, now)
  {
  }

  lemma CleanupKeepsAlike(a: Store, b: Store, t: nat, now: nat)
    requires t <= now && Alike(a, b, t)
    ensures Alike(Cleanup(a, now), Cleanup(b, now), now)
  {
    forall k ensures Seen(Cleanup(a, now).data, k, now) == Seen(Cleanup(b, now).data, k, now) {
      CleanupSeen(a, k, now);
      CleanupSeen(b, k, now);
      SeenLater(a.data, k, t, now);
      SeenLater(b.data, k, t, now);
    }
  }

  lemma ExecuteElsewhere(s: Store, c: Command, now: nat, k: string)
    requires c.Get? || c.ListKeys? || c.GetMultiple? || c.key != k
    ensures At(Execute(s, c, now).data, k) == At(s.data, k)
  {
  }

  /** What a command does to its own key depends only on what is stored there and on the version counter. */
  lemma ExecuteHere(a: Store, b: Store, c: Command, now: nat)
    requires !c.ListKeys? && !c.GetMultiple?
    requires a.versionCounter == b.versionCounter && At(a.data, c.key) == At(b.data, c.key)
    ensures Execute(a, c, now).versionCounter == Execute(b, c, now).versionCounter
    ensures At(Execute(a, c, now).data, c.key) == At(Execute(b, c, now).data, c.key)
  {
  }

  /** With every addressed entry unexpired, commands keep stores alike. */
  lemma ExecuteKeepsAlikeIfLive(a: Store, b: Store, c: Command, now: nat)
    requires Alike(a, b, now)
    requires forall k :: Addresses(c, k) ==>
               Seen(a.data, k, now) == At(a.data, k) && Seen(b.data, k, now) == At(b.data, k)
    ensures Alike(Execute(a, c, now), Execute(b, c, now), now)
  {
    var onKey := !c.ListKeys? && !c.GetMultiple?;
    if onKey {
      assert Addresses(c, c.key);
      assert Seen(a.data, c.key, now) == Seen(b.data, c.key, now);
      ExecuteHere(a, b, c, now);
    }
    forall k ensures Seen(Execute(a, c, now).data, k, now) == Seen(Execute(b, c, now).data, k, now) {
      if !onKey || k != c.key {
        ExecuteElsewhere(a, c, now, k);
        ExecuteElsewhere(b, c, now, k);
        assert Seen(a.data, k, now) == Seen(b.data, k, now);
      }
    }
  }

  lemma WithoutExpired(s: Store, key: string, now: nat)
    requires key in s.data && Expired(s.data[key], now)
    ensures Alike(s, Without(s, key), now)
  {
  }

  /** The command's own key after it: what it revives, or what it would have made of an absent key. */
  lemma ExecuteOnExpired(s: Store, c: Command, now: nat)
    requires !c.ListKeys? && !c.GetMultiple? && c.key in s.data && Expired(s.data[c.key], now)
    ensures var s1, s2 := Execute(s, c, now), Execute(Without(s, c.key), c, now);
            (s1.versionCounter == s2.versionCounter && Seen(s1.data, c.key, now) == Seen(s2.data, c.key, now))
            <==> Unnoticed(s.data[c.key], c, s.versionCounter + 1, now)
  {
  }

  lemma DueCleansUp(s: Store, key: string, now: nat)
    requires key in s.data && Expired(s.data[key], now) && CleanupDue(s, now)
    ensures Cleanup(s, now).data == Cleanup(Without(s, key), now).data
    ensures forall k :: Seen(Cleanup(s, now).data, k, now) == At(Cleanup(s, now).data, k)
  {
  }

  lemma DueForgetsExpired(s: Store, c: Command, now: nat)
    requires !c.ListKeys? && !c.GetMultiple? && c.key in s.data && Expired(s.data[c.key], now) && CleanupDue(s, now)
    ensures Alike(Apply(s, c, now), Apply(Without(s, c.key), c, now), now)
  {
    var s1, s2 := Cleanup(s, now), Cleanup(Without(s, c.key), now);
    DueCleansUp(s, c.key, now);
    ExecuteKeepsAlikeIfLive(s1, s2, c, now);
  }

  /**
   In general a command addressed to an expired entry leaves a store that reads and
   later versions do not distinguish from one where the entry was cleaned up first, exactly
   when cleanup is due or the command does not notice.
   */
  lemma ExpiredUnnoticedIff(s: Store, c: Command, now: nat)
    requires !c.ListKeys? && !c.GetMultiple? && c.key in s.data && Expired(s.data[c.key], now)
    ensures Alike(Apply(s, c, now), Apply(Without(s, c.key), c, now), now)
            <==> CleanupDue(s, now) || Unnoticed(s.data[c.key], c, s.versionCounter + 1, now)
  {
    if CleanupDue(s, now) {
      DueForgetsExpired(s, c, now);
    } else {
      ExecuteOnExpired(s, c, now);
      ExpiredElsewhere(s, c, now);
      var s1, s2 := Execute(s, c, now), Execute(Without(s, c.key), c, now);
      if Alike(s1, s2, now) {
        assert Seen(s1.data, c.key, now) == Seen(s2.data, c.key, now);
      }
    }
  }

  lemma ExpiredElsewhere(s: Store, c: Command, now: nat)
    requires !c.ListKeys? && !c.GetMultiple?
    ensures forall k :: k != c.key ==>
              Seen(Execute(s, c, now).data, k, now) == Seen(Execute(Without(s, c.key), c, now).data, k, now)
  {
    forall k | k != c.key
      ensures Seen(Execute(s, c, now).data, k, now) == Seen(Execute(Without(s, c.key), c, now).data, k, now) {
      ExecuteElsewhere(s, c, now, k);
      ExecuteElsewhere(Without(s, c.key), c, now, k);
    }
  }

  /** A store that the command treats alike and whose addressed entry, if any, has not expired. */
  lemma Tidied(s: Store, c: Command, now: nat) returns (t: Store)
    requires Harmless(s, c, now)
    ensures Alike(s, t, now) && Alike(Execute(s, c, now), Execute(t, c, now), now)
    ensures forall k :: Addresses(c, k) ==> Seen(t.data, k, now) == At(t.data, k)
  {
    t := s;
    if !c.ListKeys? && !c.GetMultiple? && Seen(s.data, c.key, now) != At(s.data, c.key) {
      t := Without(s, c.key);
      WithoutExpired(s, c.key, now);
      ExecuteOnExpired(s, c, now);
      ExpiredElsewhere(s, c, now);
    }
  }

  lemma AlikeThree(a: Store, b: Store, c: Store, t: nat)
    requires Alike(a, b, t) && Alike(b, c, t)
    ensures Alike(a, c, t) && Alike(b, a, t)
  {
    forall k ensures Seen(a.data, k, t) == Seen(c.data, k, t) {
      assert Seen(a.data, k, t) == Seen(b.data, k, t);
      assert Seen(b.data, k, t) == Seen(c.data, k, t);
    }
  }

  lemma ExecuteKeepsAlike(a: Store, b: Store, c: Command, now: nat)
    requires Alike(a, b, now) && Harmless(a, c, now) && Harmless(b, c, now)
    ensures Alike(Execute(a, c, now), Execute(b, c, now), now)
  {
    var a0 := Tidied(a, c, now);
    var b0 := Tidied(b, c, now);
    AlikeThree(a, b, b0, now);
    AlikeThree(a, a0, a0, now);
    AlikeThree(a0, a, b0, now);
    ExecuteKeepsAlikeIfLive(a0, b0, c, now);
    AlikeThree(Execute(a, c, now), Execute(a0, c, now), Execute(b0, c, now), now);
    AlikeThree(Execute(b, c, now), Execute(b0, c, now), Execute(b0, c, now), now);
    AlikeThree(Execute(a, c, now), Execute(b0, c, now), Execute(b, c, now), now);
  }

  lemma AlikeReadsAlike(a: Store, b: Store, t: nat, q: Command, now: nat)
    requires t <= now && Alike(a, b, t)
    ensures Query(a, q, now) == Query(b, q, now)
  {
    forall k ensures Live(a.data, k, now) <==> Live(b.data, k, now)
             ensures Live(a.data, k, now) ==> a.data[k] == b.data[k] {
      SeenLater(a.data, k, t, now);
      SeenLater(b.data, k, t, now);
      assert Seen(a.data, k, t) == Seen(b.data, k, t);
    }
    match q
    case Get(_) =>
    case GetMultiple(keys) =>
      assert (map k | k in keys && Live(a.data, k, now) :: a.data[k])
             == (map k | k in keys && Live(b.data, k, now) :: b.data[k]);
    case ListKeys(prefix, _) =>
      assert forall k :: k in Matching(a.data, prefix, now)
                         <==> Live(a.data, k, now) && (prefix.Some? ==> prefix.value <= k);
      assert forall k :: k in Matching(b.data, prefix, now)
                         <==> Live(b.data, k, now) && (prefix.Some? ==> prefix.value <= k);
      assert Matching(a.data, prefix, now) == Matching(b.data, prefix, now);
    case _ =>
  }

  ghost predicate HarmlessThroughout(s: Store, cmds: seq<Timed>) {
    forall i :: 0 <= i < |cmds| ==> Harmless(Cleanup(Run(s, cmds[..i]), cmds[i].now), cmds[i].command, cmds[i].now)
  }

  /**
   When cleanup happens does not matter. Stores that differ only in what has expired, whatever
   their cleanup clocks, stay indistinguishable to every read under every run of commands that
   never notice an expired entry.
   */
  lemma {:induction false} CleanupScheduleInvisible(a: Store, b: Store, start: nat, cmds: seq<Timed>)
    requires Alike(a, b, start) && InOrder(cmds, start)
    requires HarmlessThroughout(a, cmds) && HarmlessThroughout(b, cmds)
    ensures Alike(Run(a, cmds), Run(b, cmds), End(cmds, start))
    ensures forall q, now: nat :: now >= End(cmds, start) ==>
              Query(Run(a, cmds), q, now) == Query(Run(b, cmds), q, now)
  {
    RunsStayAlike(a, b, start, cmds);
    var end := End(cmds, start);
    forall q, now: nat | now >= end ensures Query(Run(a, cmds), q, now) == Query(Run(b, cmds), q, now) {
      AlikeReadsAlike(Run(a, cmds), Run(b, cmds), end, q, now);
    }
  }

  lemma ApplyKeepsAlike(a: Store, b: Store, t: nat, c: Timed)
    requires t <= c.now && Alike(a, b, t)
    requires Harmless(Cleanup(a, c.now), c.command, c.now) && Harmless(Cleanup(b, c.now), c.command, c.now)
    ensures Alike(Apply(a, c.command, c.now), Apply(b, c.command, c.now), c.now)
  {
    CleanupKeepsAlike(a, b, t, c.now);
    ExecuteKeepsAlike(Cleanup(a, c.now), Cleanup(b, c.now), c.command, c.now);
  }

  lemma HarmlessBefore(s: Store, cmds: seq<Timed>)
    requires cmds != [] && HarmlessThroughout(s, cmds)
    ensures var rest, last := cmds[..|cmds| - 1], cmds[|cmds| - 1];
            HarmlessThroughout(s, rest) && Harmless(Cleanup(Run(s, rest), last.now), last.command, last.now)
  {
    var rest := cmds[..|cmds| - 1];
    forall i | 0 <= i < |rest|
      ensures Harmless(Cleanup(Run(s, rest[..i]), rest[i].now), rest[i].command, rest[i].now) {
      assert rest[..i] == cmds[..i];
    }
  }

  lemma InOrderBefore(cmds: seq<Timed>, start: nat)
    requires cmds != [] && InOrder(cmds, start)
    ensures var rest := cmds[..|cmds| - 1]; InOrder(rest, start) && End(rest, start) <= cmds[|cmds| - 1].now
  {
  }

  lemma {:induction false} RunsStayAlike(a: Store, b: Store, start: nat, cmds: seq<Timed>)
    requires Alike(a, b, start) && InOrder(cmds, start)
    requires HarmlessThroughout(a, cmds) && HarmlessThroughout(b, cmds)
    ensures Alike(Run(a, cmds), Run(b, cmds), End(cmds, start))
  {
    if cmds != [] {
      var rest, last := cmds[..|cmds| - 1], cmds[|cmds| - 1];
      HarmlessBefore(a, cmds);
      HarmlessBefore(b, cmds);
      InOrderBefore(cmds, start);
      RunsStayAlike(a, b, start, rest);
      ApplyKeepsAlike(Run(a, rest), Run(b, rest), End(rest, start), last);
    }
  }

  // ---------------------------------------------------------------- reads after writes

  lemma FailedSwapKeepsEntry(s: Store, c: Command, now: nat)
    requires c.CompareAndSwap? && !(c.key in s.data && s.data[c.key].version == c.expectedVersion)
    ensures At(Execute(s, c, now).data, c.key) == At(s.data, c.key)
  {
  }

  lemma GetSeesEntry(s: Store, k: string, now: nat)
    ensures Query(s, Get(k), now) == Value(Seen(s.data, k, now))
  {
  }

  /** To any later reader a command changes its own key only; reads and failed swaps change nothing. */
  lemma CommandsAreLocal(s: Store, c: Command, now: nat, k: string, later: nat)
    requires now <= later
    requires c.Get? || c.ListKeys? || c.GetMultiple? || c.key != k
             || (c.CompareAndSwap? && !SwapSucceeds(s, c.key, c.expectedVersion, now))
    ensures Query(Apply(s, c, now), Get(k), later) == Query(s, Get(k), later)
  {
    var s1 := Cleanup(s, now);
    if c.CompareAndSwap? && c.key == k {
      FailedSwapKeepsEntry(s1, c, now);
    } else {
      ExecuteElsewhere(s1, c, now, k);
    }
    GetSeesEntry(Apply(s, c, now), k, later);
    GetSeesEntry(s1, k, later);
    GetSeesEntry(s, k, later);
    CleanupKeepsLive(s, now, later, k);
  }

  /** A lifetime counted from `updatedAt` has ended before `at`; its end is a 64-bit sum. */
  predicate LifetimeOver(updatedAt: nat, ttl: Option<nat>, at: nat) {
    ttl.Some? && (updatedAt + ttl.value) % 0x1_0000_0000_0000_0000 < at
  }

  /** A command at `now` finds an entry under the key: one is there, and it is not cleaned up first. */
  predicate Found(s: Store, key: string, now: nat) {
    key in s.data && !(LifetimeOver(s.data[key].updatedAt, s.data[key].ttl, now) && now - s.lastCleanup >= 60)
  }

  lemma ExpiredIsOver(e: KvEntry, at: nat)
    ensures Expired(e, at) <==> LifetimeOver(e.updatedAt, e.ttl, at)
  {
  }

  lemma FoundAfterCleanup(s: Store, key: string, now: nat)
    ensures Found(s, key, now) <==> key in Cleanup(s, now).data
    ensures Found(s, key, now) ==> Cleanup(s, now).data[key] == s.data[key]
    ensures Cleanup(s, now).versionCounter == s.versionCounter
  {
    if key in s.data {
      ExpiredIsOver(s.data[key], now);
      assert key in ExpiredKeys(s.data, now) <==> Expired(s.data[key], now);
    }
  }

  /** What a reader at `later` gets of an entry. */
  function ReadOf(e: KvEntry, later: nat): Response {
    Value(if LifetimeOver(e.updatedAt, e.ttl, later) then None else Some(e))
  }

  lemma ReadOfStored(s: Store, key: string, later: nat)
    ensures Query(s, Get(key), later) == if key in s.data then ReadOf(s.data[key], later) else Value(None)
  {
    if key in s.data {
      ExpiredIsOver(s.data[key], later);
    }
  }

  /** A set is read back under the next version, with the creation time of what it found, until its lifetime ends. */
  lemma ReadAfterSet(
    s: Store, key: string, value: string, ttl: Option<nat>, metadata: EntryMetadata, now: nat, later: nat)
    requires now <= later
    ensures Query(Apply(s, Set(key, value, ttl, metadata), now), Get(key), later) ==
            ReadOf(KvEntry(value, s.versionCounter + 1, if Found(s, key, now) then s.data[key].createdAt else now,
                           now, ttl, metadata), later)
  {
    FoundAfterCleanup(s, key, now);
    ReadOfStored(Apply(s, Set(key, value, ttl, metadata), now), key, later);
  }

  /** After a delete the key reads as absent, and is free for a conditional insert at once. */
  lemma ReadAfterDelete(s: Store, key: string, value: string, metadata: EntryMetadata, now: nat, later: nat)
    requires now <= later
    ensures var s' := Apply(s, Delete(key), now);
            && Query(s', Get(key), later) == Value(None)
            && Apply(s', SetIfNotExists(key, value, metadata), later).versionCounter == s.versionCounter + 1
  {
    assert key !in Cleanup(Apply(s, Delete(key), now), later).data;
  }

  /**
   A conditional insert that finds no entry is read back, for good, as a new one with the given
   value and metadata; one that finds an entry changes nothing but what a due cleanup takes.
   */
  lemma ReadAfterInsert(s: Store, key: string, value: string, metadata: EntryMetadata, now: nat, later: nat)
    requires now <= later
    ensures var s' := Apply(s, SetIfNotExists(key, value, metadata), now);
            if Found(s, key, now) then
              s' == Cleanup(s, now) && Query(s', Get(key), later) == Query(s, Get(key), later)
            else
              Query(s', Get(key), later) == Value(Some(KvEntry(value, s.versionCounter + 1, now, now, None, metadata)))
  {
    FoundAfterCleanup(s, key, now);
    ReadOfStored(Apply(s, SetIfNotExists(key, value, metadata), now), key, later);
    CleanupInvisible(s, now, Get(key), later);
  }

  /**
   A swap that finds the version it expects is read back with its own value and metadata, under
   the next version and with its lifetime restarted; any other leaves all reads of the key alone.
   */
  lemma ReadAfterSwap(
    s: Store, key: string, expected: nat, value: string, metadata: EntryMetadata, now: nat, later: nat)
    requires now <= later
    ensures SwapSucceeds(s, key, expected, now) <==> Found(s, key, now) && s.data[key].version == expected
    ensures Query(Apply(s, CompareAndSwap(key, expected, value, metadata), now), Get(key), later) ==
            if Found(s, key, now) && s.data[key].version == expected then
              ReadOf(KvEntry(value, s.versionCounter + 1, s.data[key].createdAt, now, s.data[key].ttl, metadata), later)
            else
              Query(s, Get(key), later)
  {
    FoundAfterCleanup(s, key, now);
    ReadOfStored(Apply(s, CompareAndSwap(key, expected, value, metadata), now), key, later);
    ReadOfStored(Cleanup(s, now), key, later);
    CleanupInvisible(s, now, Get(key), later);
  }

  /**
   An increment of an integer is read back as the text of the 64-bit sum, under the next version
   and with its lifetime restarted, all else kept; without an entry it starts a counter, and text
   that is no integer stays as it is.
   */
  lemma ReadAfterIncrement(s: Store, key: string, delta: int, now: nat, later: nat)
    requires now <= later
    ensures Query(Apply(s, Increment(key, delta), now), Get(key), later) ==
            if !Found(s, key, now) then
              Value(Some(KvEntry(PrintInt(delta), s.versionCounter + 1, now, now, None,
                                 EntryMetadata("integer", ["counter"], "system", |PrintInt(delta)|))))
            else
              match ParseI64(s.data[key].value)
              case Some(n) =>
                ReadOf(KvEntry(PrintInt(WrapI64(n + delta)), s.versionCounter + 1, s.data[key].createdAt, now,
                               s.data[key].ttl, s.data[key].metadata), later)
              case None =>
                Query(s, Get(key), later)
  {
    FoundAfterCleanup(s, key, now);
    ReadOfStored(Apply(s, Increment(key, delta), now), key, later);
    ReadOfStored(Cleanup(s, now), key, later);
    CleanupInvisible(s, now, Get(key), later);
  }

  /**
   An expiry command restarts the lifetime of the entry it finds, expired or not, from its own
   time and keeps value and version; without an entry it does nothing.
   */
  lemma ReadAfterExpire(s: Store, key: string, ttl: nat, now: nat, later: nat)
    requires now <= later
    ensures Query(Apply(s, Expire(key, ttl), now), Get(key), later) ==
            if Found(s, key, now) then ReadOf(s.data[key].(ttl := Some(ttl), updatedAt := now), later)
            else Value(None)
  {
    FoundAfterCleanup(s, key, now);
    ReadOfStored(Apply(s, Expire(key, ttl), now), key, later);
  }

  // ---------------------------------------------------------------- the other reads

  /** What a single read of a key gives. */
  ghost function Single(s: Store, key: string, now: nat): Option<KvEntry> {
    var r := Query(s, Get(key), now);
    if r.Value? then r.entry else None
  }

  /** Reading several keys gives what reading each of them gives, and nothing for other keys. */
  lemma MultipleReadsAreSingle(s: Store, keys: seq<string>, now: nat)
    ensures var r := Query(s, GetMultiple(keys), now);
            && r.Values?
            && (forall k :: k in r.entries <==> k in keys && Single(s, k, now).Some?)
            && (forall k :: k in r.entries ==> Some(r.entries[k]) == Single(s, k, now))
  {
  }

  /** Only reads are answered. */
  lemma ReadsAreAnswered(s: Store, q: Command, now: nat)
    ensures Query(s, q, now) == Unsupported <==> !(q.Get? || q.GetMultiple? || q.ListKeys?)
  {
  }

  /**
   A listing without a limit has exactly the keys that a single read finds and that start with the
   prefix, each once, in dictionary order; a limit cuts it off at its end.
   */
  lemma ListingOfReads(s: Store, prefix: Option<string>, limit: Option<nat>, now: nat)
    ensures var all, cut := Query(s, ListKeys(prefix, None), now), Query(s, ListKeys(prefix, limit), now);
            && all.Keys? && cut.Keys?
            && (forall k :: k in all.keys <==>
                  Single(s, k, now).Some? && (prefix.Some? ==> StartsWith(k, prefix.value)))
            && (forall i, j :: 0 <= i < j < |all.keys| ==>
                  all.keys[i] != all.keys[j] && ComesBefore(all.keys[i], all.keys[j]))
            && cut.keys <= all.keys
            && |cut.keys| == if limit.Some? && limit.value < |all.keys| then limit.value else |all.keys|
  {
    var keys := Sorted(Matching(s.data, prefix, now));
    forall k ensures k in keys <==> Single(s, k, now).Some? && (prefix.Some? ==> StartsWith(k, prefix.value)) {
      if prefix.Some? {
        PrefixIsStartsWith(k, prefix.value);
      }
    }
    forall i, j | 0 <= i < j < |keys| ensures keys[i] != keys[j] && ComesBefore(keys[i], keys[j]) {
      LessIsComesBefore(keys[i], keys[j]);
      LessAsymmetric(keys[i], keys[j]);
    }
  }
}
