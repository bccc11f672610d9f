/**
 The versioned key-value store with expiry (examples/distributed_kv_store.rs). `Apply`,
 `Cleanup`, `Restore` and `Query` are what the operations do, as functions of the store and
 the clock in seconds; the class does it in place. Machine integers wrap as in a release build.
 */
module KvStore {
  import opened Wrappers
  import opened Decimal
  import opened KeyOrder

  datatype EntryMetadata = EntryMetadata(contentType: string, tags: seq<string>, createdBy: string, sizeBytes: nat)

  datatype KvEntry = KvEntry(
    value: string, version: nat, createdAt: nat, updatedAt: nat, ttl: Option<nat>, metadata: EntryMetadata)

  datatype Command =
    | Set(key: string, value: string, ttl: Option<nat>, metadata: EntryMetadata)
    | Get(key: string)
    | Delete(key: string)
    | CompareAndSwap(key: string, expectedVersion: nat, newValue: string, metadata: EntryMetadata)
    | Increment(key: string, delta: int)
    | SetIfNotExists(key: string, value: string, metadata: EntryMetadata)
    | ListKeys(prefix: Option<string>, limit: Option<nat>)
    | Expire(key: string, newTtl: nat)
    | GetMultiple(keys: seq<string>)

  datatype StoreStats = StoreStats(
    totalKeys: int, totalOperations: nat, getOperations: nat, setOperations: nat, deleteOperations: nat,
    expiredKeys: nat, lastUpdated: nat)

  datatype Store = Store(data: map<string, KvEntry>, versionCounter: nat, lastCleanup: nat, stats: StoreStats)

  datatype Snapshot = Snapshot(data: map<string, KvEntry>, stats: StoreStats)

  datatype Response =
    | Value(entry: Option<KvEntry>)
    | Values(entries: map<string, KvEntry>)
    | Keys(keys: seq<string>)
    | Unsupported

  const CLEANUP_INTERVAL: nat := 60

  function NewStore(now: nat): Store {
    Store(map[], 0, now, StoreStats(0, 0, 0, 0, 0, 0, now))
  }

  predicate Expired(e: KvEntry, now: nat) {
    e.ttl.Some? && WrapU64(e.updatedAt + e.ttl.value) < now
  }

  // ---------------------------------------------------------------- cleanup

  predicate CleanupDue(s: Store, now: nat) {
    now - s.lastCleanup >= CLEANUP_INTERVAL
  }

  function ExpiredKeys(data: map<string, KvEntry>, now: nat): set<string> {
    set k | k in data && Expired(data[k], now)
  }

  function Cleanup(s: Store, now: nat): Store {
    if !CleanupDue(s, now) then s
    else
      var gone := ExpiredKeys(s.data, now);
      var data := s.data - gone;
      s.(data := data, lastCleanup := now,
         stats := s.stats.(totalKeys := |data|, expiredKeys := s.stats.expiredKeys + |gone|))
  }

  // ---------------------------------------------------------------- commands

  datatype Kind = GetKind | SetKind | DeleteKind | OtherKind

  function Count(stats: StoreStats, kind: Kind, now: nat): StoreStats {
    var counted := stats.(totalOperations := stats.totalOperations + 1, lastUpdated := now);
    match kind
    case GetKind => counted.(getOperations := stats.getOperations + 1)
    case SetKind => counted.(setOperations := stats.setOperations + 1)
    case DeleteKind => counted.(deleteOperations := stats.deleteOperations + 1)
    case OtherKind => counted
  }

  /** Storing an entry under a key, and the key count that goes with it. */
  function Put(s: Store, key: string, e: KvEntry): Store {
    s.(data := s.data[key := e],
       stats := s.stats.(totalKeys := s.stats.totalKeys + if key in s.data then 0 else 1))
  }

  function CounterEntry(delta: int, version: nat, now: nat): KvEntry {
    var text := PrintInt(delta);
    KvEntry(text, version, now, now, None, EntryMetadata("integer", ["counter"], "system", |text|))
  }

  /** The command proper, cleanup done. A version is drawn even by a swap or increment that then does nothing. */
  function Execute(s: Store, c: Command, now: nat): Store {
    var version := s.versionCounter + 1;
    match c
    case Set(key, value, ttl, metadata) =>
      var createdAt := if key in s.data then s.data[key].createdAt else now;
      var e := KvEntry(value, version, createdAt, now, ttl, metadata);
      Counted(Put(s, key, e).(versionCounter := version), SetKind, now)
    case Delete(key) =>
      var totalKeys := s.stats.totalKeys - if key in s.data then 1 else 0;
      Counted(s.(data := s.data - {key}, stats := s.stats.(totalKeys := totalKeys)), DeleteKind, now)
    case CompareAndSwap(key, expected, value, metadata) =>
      var s' := s.(versionCounter := version);
      if key in s.data && s.data[key].version == expected then
        var e := s.data[key].(value := value, version := version, updatedAt := now, metadata := metadata);
        Counted(Put(s', key, e), OtherKind, now)
      else
        Counted(s', OtherKind, now)
    case Increment(key, delta) =>
      var s' := s.(versionCounter := version);
      if key !in s.data then
        Counted(Put(s', key, CounterEntry(delta, version, now)), OtherKind, now)
      else
        var current := ParseI64(s.data[key].value);
        if current.Some? then
          var text := PrintInt(WrapI64(current.value + delta));
          Counted(Put(s', key, s.data[key].(value := text, version := version, updatedAt := now)), OtherKind, now)
        else
          Counted(s', OtherKind, now)
    case SetIfNotExists(key, value, metadata) =>
      if key in s.data then s
      else
        var e := KvEntry(value, version, now, now, None, metadata);
        Counted(Put(s, key, e).(versionCounter := version), SetKind, now)
    case Expire(key, ttl) =>
      if key in s.data then
        Counted(Put(s, key, s.data[key].(ttl := Some(ttl), updatedAt := now)), OtherKind, now)
      else
        Counted(s, OtherKind, now)
    case Get(_) => Counted(s, GetKind, now)
    case ListKeys(_, _) => Counted(s, OtherKind, now)
    case GetMultiple(_) => Counted(s, OtherKind, now)
  }

  function Counted(s: Store, kind: Kind, now: nat): Store {
    s.(stats := Count(s.stats, kind, now))
  }

  function Apply(s: Store, c: Command, now: nat): Store {
    Execute(Cleanup(s, now), c, now)
  }

  // ---------------------------------------------------------------- snapshots

  ghost predicate IsMaxVersion(data: map<string, KvEntry>, v: nat) {
    (forall k :: k in data ==> data[k].version <= v) && (v == 0 || exists k :: k in data && data[k].version == v)
  }

  /** The highest live version, or 0. */
  ghost function MaxVersion(data: map<string, KvEntry>): (v: nat)
    ensures IsMaxVersion(data, v)
  {
    if data == map[] then 0
    else
      var k :| k in data;
      var v := MaxVersion(data - {k});
      MaxOfRest(data, k, v);
      if data[k].version >= v then data[k].version else v
  }

  lemma MaxOfRest(data: map<string, KvEntry>, k: string, v: nat)
    requires k in data && IsMaxVersion(data - {k}, v)
    ensures IsMaxVersion(data, if data[k].version >= v then data[k].version else v)
  {
    forall j | j in data ensures data[j].version <= (if data[k].version >= v then data[k].version else v) {
      assert j != k ==> j in data - {k};
    }
    if v > data[k].version {
      var j :| j in data - {k} && (data - {k})[j].version == v;
      assert j in data && data[j].version == v;
    }
  }

  function TakeSnapshot(s: Store): Snapshot {
    Snapshot(s.data, s.stats)
  }

  ghost function Restore(s: Store, snapshot: Snapshot): Store {
    Store(snapshot.data, MaxVersion(snapshot.data), s.lastCleanup, snapshot.stats)
  }

  // ---------------------------------------------------------------- queries

  predicate Live(data: map<string, KvEntry>, k: string, now: nat) {
    k in data && !Expired(data[k], now)
  }

  function Matching(data: map<string, KvEntry>, prefix: Option<string>, now: nat): set<string> {
    set k | k in data && !Expired(data[k], now) && (prefix.Some? ==> prefix.value <= k)
  }

  function Truncate(keys: seq<string>, limit: Option<nat>): seq<string> {
    if limit.Some? && limit.value < |keys| then keys[..limit.value] else keys
  }

  ghost function Query(s: Store, q: Command, now: nat): Response {
    match q
    case Get(k) => Value(if Live(s.data, k, now) then Some(s.data[k]) else None)
    case GetMultiple(keys) => Values(map k | k in keys && Live(s.data, k, now) :: s.data[k])
    case ListKeys(prefix, limit) => Keys(Truncate(Sorted(Matching(s.data, prefix, now)), limit))
    case _ => Unsupported
  }

  // ---------------------------------------------------------------- the object

  class DistributedKvStore {
    var data: map<string, KvEntry>
    var versionCounter: nat
    var lastCleanup: nat
    var stats: StoreStats

    ghost function View(): Store
      reads this
    {
      Store(data, versionCounter, lastCleanup, stats)
    }

    constructor (now: nat)
      ensures View() == NewStore(now)
    {
      data, versionCounter, lastCleanup := map[], 0, now;
      stats := StoreStats(0, 0, 0, 0, 0, 0, now);
    }

    method NextVersion() returns (v: nat)
      modifies `versionCounter
      ensures v == versionCounter == old(versionCounter) + 1
    {
      versionCounter := versionCounter + 1;
      v := versionCounter;
    }

    method FindExpired(now: nat) returns (expired: set<string>)
      ensures expired == ExpiredKeys(data, now)
    {
      expired := {};
      var left := data.Keys;
      while left != {}
        invariant left <= data.Keys
        invariant expired == ExpiredKeys(data, now) - left
        decreases |left|
      {
        var k :| k in left;
        if Expired(data[k], now) {
          expired := expired + {k};
        }
        left := left - {k};
      }
    }

    method RemoveAll(gone: set<string>)
      modifies `data, `stats
      ensures data == old(data) - gone
      ensures stats == old(stats).(expiredKeys := old(stats).expiredKeys + |gone|)
    {
      var left := gone;
      while left != {}
        invariant left <= gone
        invariant data == old(data) - (gone - left)
        invariant stats == old(stats).(expiredKeys := old(stats).expiredKeys + |gone| - |left|)
        decreases |left|
      {
        var k :| k in left;
        data := data - {k};
        stats := stats.(expiredKeys := stats.expiredKeys + 1);
        left := left - {k};
      }
    }

    method CleanupExpiredKeys(now: nat)
      modifies this
      ensures View() == Cleanup(old(View()), now)
    {
      if now - lastCleanup < CLEANUP_INTERVAL {
        return;
      }
      var expired := FindExpired(now);
      RemoveAll(expired);
      stats := stats.(totalKeys := |data|);
      lastCleanup := now;
    }

    method UpdateStats(kind: Kind, now: nat)
      modifies `stats
      ensures stats == Count(old(stats), kind, now)
    {
      stats := stats.(totalOperations := stats.totalOperations + 1, lastUpdated := now);
      match kind
      case GetKind => stats := stats.(getOperations := stats.getOperations + 1);
      case SetKind => stats := stats.(setOperations := stats.setOperations + 1);
      case DeleteKind => stats := stats.(deleteOperations := stats.deleteOperations + 1);
      case OtherKind =>
    }

    method Insert(key: string, e: KvEntry)
      modifies `data, `stats
      ensures View() == Put(old(View()), key, e)
    {
      var isNew := key !in data;
      data := data[key := e];
      if isNew {
        stats := stats.(totalKeys := stats.totalKeys + 1);
      }
    }

    method ApplyCommand(c: Command, now: nat)
      modifies this
      ensures View() == Apply(old(View()), c, now)
    {
      CleanupExpiredKeys(now);
      ExecuteCommand(c, now);
    }

    method SwapValue(key: string, expected: nat, value: string, metadata: EntryMetadata, now: nat)
      modifies this
      ensures View() == Execute(old(View()), CompareAndSwap(key, expected, value, metadata), now)
    {
      var version := NextVersion();
      if key in data && data[key].version == expected {
        data := data[key := data[key].(value := value, version := version, updatedAt := now, metadata := metadata)];
      }
      UpdateStats(OtherKind, now);
    }

    method IncrementValue(key: string, delta: int, now: nat)
      modifies this
      ensures View() == Execute(old(View()), Increment(key, delta), now)
    {
      var version := NextVersion();
      if key in data {
        var current := ParseI64(data[key].value);
        if current.Some? {
          var text := PrintInt(WrapI64(current.value + delta));
          data := data[key := data[key].(value := text, version := version, updatedAt := now)];
        }
      } else {
        Insert(key, CounterEntry(delta, version, now));
      }
      UpdateStats(OtherKind, now);
    }

    /** The command proper, cleanup done. */
    method ExecuteCommand(c: Command, now: nat)
      modifies this
      ensures View() == Execute(old(View()), c, now)
    {
      match c
      case Set(key, value, ttl, metadata) =>
        var version := NextVersion();
        var createdAt := if key in data then data[key].createdAt else now;
        Insert(key, KvEntry(value, version, createdAt, now, ttl, metadata));
        UpdateStats(SetKind, now);
      case Delete(key) =>
        if key in data {
          data := data - {key};
          stats := stats.(totalKeys := stats.totalKeys - 1);
        }
        UpdateStats(DeleteKind, now);
      case CompareAndSwap(key, expected, value, metadata) =>
        SwapValue(key, expected, value, metadata, now);
      case Increment(key, delta) =>
        IncrementValue(key, delta, now);
      case SetIfNotExists(key, value, metadata) =>
        if key !in data {
          var version := NextVersion();
          Insert(key, KvEntry(value, version, now, now, None, metadata));
          UpdateStats(SetKind, now);
        }
      case Expire(key, ttl) =>
        if key in data {
          data := data[key := data[key].(ttl := Some(ttl), updatedAt := now)];
        }
        UpdateStats(OtherKind, now);
      case Get(_) => UpdateStats(GetKind, now);
      case ListKeys(_, _) => UpdateStats(OtherKind, now);
      case GetMultiple(_) => UpdateStats(OtherKind, now);
    }

    method CreateSnapshot() returns (snapshot: Snapshot)
      ensures snapshot == TakeSnapshot(View())
    {
      snapshot := Snapshot(data, stats);
    }

    method RestoreFromSnapshot(snapshot: Snapshot)
      modifies this
      ensures View() == Restore(old(View()), snapshot)
    {
      data, stats := snapshot.data, snapshot.stats;
      var highest: nat := 0;
      var left := data.Keys;
      while left != {}
        invariant left <= data.Keys && data == snapshot.data
        invariant forall k :: k in data && k !in left ==> data[k].version <= highest
        invariant highest == 0 || exists k :: k in data && data[k].version == highest
        decreases |left|
      {
        var k :| k in left;
        if highest < data[k].version {
          highest := data[k].version;
        }
        left := left - {k};
      }
      versionCounter := highest;
      MaxVersionUnique(data, highest, MaxVersion(data));
    }

    /** Reads change nothing and see no expired entry, whether or not it has been cleaned up. */
    method ExecuteQuery(q: Command, now: nat) returns (r: Response)
      ensures r == Query(View(), q, now)
    {
      match q
      case Get(k) =>
        if k in data && !Expired(data[k], now) {
          r := Value(Some(data[k]));
        } else {
          r := Value(None);
        }
      case GetMultiple(keys) =>
        var results: map<string, KvEntry> := map[];
        for i := 0 to |keys|
          invariant results == map k | k in keys[..i] && Live(data, k, now) :: data[k]
        {
          assert keys[..i + 1] == keys[..i] + [keys[i]];
          if keys[i] in data && !Expired(data[keys[i]], now) {
            results := results[keys[i] := data[keys[i]]];
          }
        }
        assert keys[..|keys|] == keys;
        r := Values(results);
      case ListKeys(prefix, limit) =>
        var keys := SortedMatches(prefix, now);
        if limit.Some? && limit.value < |keys| {
          keys := keys[..limit.value];
        }
        r := Keys(keys);
      case _ =>
        r := Unsupported;
    }

    method SortedMatches(prefix: Option<string>, now: nat) returns (keys: seq<string>)
      ensures keys == Sorted(Matching(data, prefix, now))
    {
      keys := [];
      var left := data.Keys;
      ghost var matching := Matching(data, prefix, now);
      while left != {}
        invariant left <= data.Keys
        invariant SortedListing(keys, matching - left)
        decreases |left|
      {
        var k :| k in left;
        if (prefix.Some? ==> prefix.value <= k) && !Expired(data[k], now) {
          InsertAscending(keys, k);
          InsertContents(keys, k);
          keys := KeyOrder.Insert(keys, k);
        }
        left := left - {k};
      }
      assert matching - left == matching;
      SortedListingUnique(keys, Sorted(matching), matching);
    }
  }

  lemma MaxVersionUnique(data: map<string, KvEntry>, v: nat, w: nat)
    requires IsMaxVersion(data, v) && IsMaxVersion(data, w)
    ensures v == w
  {
  }
}
