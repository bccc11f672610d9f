/**
 Runs of the key-value store with snapshots and restores (examples/distributed_kv_store.rs):
 the bookkeeping they keep, and exactly when versions, swaps and a replica survive one.
 */
module KvRestores {
  import opened Wrappers
  import opened KvStore
  import opened KvRuns

  // ---------------------------------------------------------------- runs with restores

  /** `Load` restores a snapshot taken of this store, `Install` one that came from anywhere. */
  datatype Event = Do(command: Command, now: nat) | Save | Load(image: nat) | Install(snapshot: Snapshot)

  /** What a version was seen to stand for. */
  datatype Sighting = Sighting(version: nat, key: string, value: string)

  /**
   A store, the snapshots taken of it, everything ever live in it, and whether each restore so
   far met `Safe` when it was made.
   */
  datatype System = System(store: Store, images: seq<Snapshot>, seen: set<Sighting>, safe: bool)

  function Sightings(data: map<string, KvEntry>): set<Sighting> {
    set k | k in data :: Sighting(data[k].version, k, data[k].value)
  }

  /** What every store in good order snapshots to; other snapshots are not installed. */
  ghost predicate ValidSnapshot(snapshot: Snapshot) {
    DistinctVersions(snapshot.data) && snapshot.stats.totalKeys == |snapshot.data|
  }

  ghost predicate OneMeaning(seen: set<Sighting>) {
    forall a, b :: a in seen && b in seen && a.version == b.version ==> a == b
  }

  ghost predicate SeenUpTo(seen: set<Sighting>, counter: nat) {
    forall a :: a in seen ==> a.version <= counter
  }

  /** The snapshot contradicts nothing seen, and its highest version is not behind anything seen. */
  ghost predicate Safe(seen: set<Sighting>, snapshot: Snapshot) {
    OneMeaning(seen + Sightings(snapshot.data)) && SeenUpTo(seen, MaxVersion(snapshot.data))
  }

  ghost function Restored(y: System, snapshot: Snapshot): System {
    y.(store := Restore(y.store, snapshot), seen := y.seen + Sightings(snapshot.data),
       safe := y.safe && Safe(y.seen, snapshot))
  }

  ghost function Next(y: System, e: Event): System {
    match e
    case Do(c, now) =>
      var s := Apply(y.store, c, now);
      y.(store := s, seen := y.seen + Sightings(s.data))
    case Save =>
      y.(images := y.images + [TakeSnapshot(y.store)])
    case Load(i) =>
      if i < |y.images| then Restored(y, y.images[i]) else y
    case Install(snapshot) =>
      if ValidSnapshot(snapshot) then Restored(y, snapshot) else y
  }

  ghost function RunEvents(y: System, events: seq<Event>): System
    decreases |events|
  {
    if events == [] then y else RunEvents(Next(y, events[0]), events[1..])
  }

  function NewSystem(now: nat): System {
    System(NewStore(now), [], {}, true)
  }

  /** Where a fresh store stands after `events`. */
  ghost function After(start: nat, events: seq<Event>): System {
    RunEvents(NewSystem(start), events)
  }

  ghost predicate MeaningInv(y: System) {
    OneMeaning(y.seen) && SeenUpTo(y.seen, y.store.versionCounter)
  }

  ghost predicate Inv(y: System) {
    && Good(y.store)
    && Sightings(y.store.data) <= y.seen
    && (forall i :: 0 <= i < |y.images| ==> ValidSnapshot(y.images[i]) && Sightings(y.images[i].data) <= y.seen)
    && (y.safe ==> MeaningInv(y))
  }

  /** Whatever is live after a command was seen before, or carries a version newer than all seen before. */
  lemma {:induction false} NewOrSeen(s: Store, seen: set<Sighting>, c: Command, now: nat, a: Sighting)
    requires Good(s) && Sightings(s.data) <= seen
    requires a in Sightings(Apply(s, c, now).data)
    ensures a.version > s.versionCounter || a in seen
  {
    ApplyKeepsOldVersions(s, c, now, a.key);
    if SameValue(s.data, Apply(s, c, now).data, a.key) {
      assert a in Sightings(s.data);
    }
  }

  /** Adding sightings that are old or newer than all old ones, and distinct, keeps one meaning a version. */
  lemma AddSightings(seen: set<Sighting>, data: map<string, KvEntry>, counter: nat)
    requires OneMeaning(seen) && SeenUpTo(seen, counter) && DistinctVersions(data)
    requires forall a :: a in Sightings(data) ==> a.version > counter || a in seen
    ensures OneMeaning(seen + Sightings(data))
  {
  }

  lemma {:induction false} CommandKeepsMeaning(s: Store, seen: set<Sighting>, c: Command, now: nat)
    requires Good(s) && Sightings(s.data) <= seen
    requires OneMeaning(seen) && SeenUpTo(seen, s.versionCounter)
    ensures var s' := Apply(s, c, now);
            OneMeaning(seen + Sightings(s'.data)) && SeenUpTo(seen + Sightings(s'.data), s'.versionCounter)
  {
    var s' := Apply(s, c, now);
    ApplyKeepsGood(s, c, now);
    forall a | a in Sightings(s'.data) ensures a.version > s.versionCounter || a in seen {
      NewOrSeen(s, seen, c, now, a);
    }
    AddSightings(seen, s'.data, s.versionCounter);
  }

  lemma RestoredKeepsInv(y: System, snapshot: Snapshot)
    requires Inv(y) && ValidSnapshot(snapshot)
    ensures Inv(Restored(y, snapshot))
    ensures Safe(y.seen, snapshot) ==> MeaningInv(Restored(y, snapshot))
  {
    RestoreKeepsGood(y.store, snapshot);
  }

  lemma {:induction false} NextKeepsInv(y: System, e: Event)
    requires Inv(y)
    ensures Inv(Next(y, e))
  {
    match e
    case Do(c, now) =>
      ApplyKeepsGood(y.store, c, now);
      if y.safe {
        CommandKeepsMeaning(y.store, y.seen, c, now);
      }
    case Save =>
    case Load(i) =>
      if i < |y.images| {
        RestoredKeepsInv(y, y.images[i]);
      }
    case Install(snapshot) =>
      if ValidSnapshot(snapshot) {
        RestoredKeepsInv(y, snapshot);
      }
  }

  lemma {:induction false} RunEventsKeepInv(y: System, events: seq<Event>)
    requires Inv(y)
    ensures Inv(RunEvents(y, events))
    decreases |events|
  {
    if events != [] {
      NextKeepsInv(y, events[0]);
      RunEventsKeepInv(Next(y, events[0]), events[1..]);
    }
  }

  /**
   In every run, restores of any valid snapshots included, the key count is the number of
   entries, live versions are distinct, and the next version exceeds all of them.
   */
  lemma {:induction false} StoreBookkeeping(start: nat, events: seq<Event>)
    ensures var s := After(start, events).store;
            && s.stats.totalKeys == |s.data|
            && DistinctVersions(s.data)
            && (forall k :: k in s.data ==> s.data[k].version < s.versionCounter + 1)
            && ValidSnapshot(TakeSnapshot(s))
  {
    RunEventsKeepInv(NewSystem(start), events);
  }

  /** As long as every restore was safe, a version only ever stood for one key and one value. */
  lemma {:induction false} VersionNamesOneValue(start: nat, events: seq<Event>)
    ensures After(start, events).safe ==> OneMeaning(After(start, events).seen)
  {
    RunEventsKeepInv(NewSystem(start), events);
  }

  // ---------------------------------------------------------------- what survives a restore

  function Commands(cmds: seq<Timed>): seq<Event> {
    seq(|cmds|, i requires 0 <= i < |cmds| => Do(cmds[i].command, cmds[i].now))
  }

  ghost function RunCommands(y: System, cmds: seq<Timed>): System {
    RunEvents(y, Commands(cmds))
  }

  lemma RunCommandsFirst(y: System, cmds: seq<Timed>)
    requires cmds != []
    ensures RunCommands(y, cmds) == RunCommands(Next(y, Do(cmds[0].command, cmds[0].now)), cmds[1..])
  {
    assert Commands(cmds)[1..] == Commands(cmds[1..]);
  }

  /** `n` sets of one key at one time, which draw the next `n` versions. */
  function Sets(key: string, value: string, n: nat, t: nat): seq<Timed> {
    seq(n, i => Timed(Set(key, value, None, EntryMetadata("", [], "", 0)), t))
  }

  lemma {:induction false} SetsDraw(y: System, key: string, value: string, n: nat, t: nat)
    requires n > 0
    ensures var z := RunCommands(y, Sets(key, value, n, t));
            && y.seen <= z.seen && Sighting(y.store.versionCounter + n, key, value) in z.seen
            && key in z.store.data && z.store.data[key].value == value && z.store.data[key].ttl == None
            && z.store.data[key].version == y.store.versionCounter + n
    decreases n
  {
    var sets := Sets(key, value, n, t);
    var z := Next(y, Do(sets[0].command, t));
    RunCommandsFirst(y, sets);
    assert sets[1..] == Sets(key, value, n - 1, t);
    assert z.store.versionCounter == y.store.versionCounter + 1;
    if n > 1 {
      SetsDraw(z, key, value, n - 1, t);
    } else {
      assert RunCommands(y, sets) == z;
      assert Sighting(y.store.versionCounter + 1, key, value) in Sightings(z.store.data);
    }
  }

  /**
   If anything seen is ahead of the snapshot, its version can be drawn again, for any key and
   value, from whatever time the clock has reached.
   */
  lemma DrawnAgain(y: System, snapshot: Snapshot, a: Sighting, key: string, value: string, t: nat)
    returns (cmds: seq<Timed>)
    requires a in y.seen && a.version > MaxVersion(snapshot.data)
    ensures InOrder(cmds, t) && End(cmds, t) == t
    ensures var z := RunCommands(Restored(y, snapshot), cmds);
            && a in z.seen && Sighting(a.version, key, value) in z.seen
            && SwapSucceeds(z.store, key, a.version, t) && z.store.data[key].value == value
  {
    var n := a.version - MaxVersion(snapshot.data);
    cmds := Sets(key, value, n, t);
    SetsDraw(Restored(y, snapshot), key, value, n, t);
  }

  lemma {:induction false} CommandsKeepSafe(y: System, cmds: seq<Timed>)
    ensures RunCommands(y, cmds).safe == y.safe
    decreases |cmds|
  {
    if cmds != [] {
      RunCommandsFirst(y, cmds);
      CommandsKeepSafe(Next(y, Do(cmds[0].command, cmds[0].now)), cmds[1..]);
    }
  }

  /** Whether restores were safe is only recorded; it does not steer the run. */
  lemma {:induction false} SafeIsHistory(y: System, cmds: seq<Timed>)
    ensures RunCommands(y.(safe := true), cmds) == RunCommands(y, cmds).(safe := true)
    decreases |cmds|
  {
    if cmds != [] {
      var first := Do(cmds[0].command, cmds[0].now);
      RunCommandsFirst(y, cmds);
      RunCommandsFirst(y.(safe := true), cmds);
      assert Next(y.(safe := true), first) == Next(y, first).(safe := true);
      SafeIsHistory(Next(y, first), cmds[1..]);
    }
  }

  /** Given one meaning a version now, no commands ever change that. */
  lemma CommandsKeepMeaning(y: System, cmds: seq<Timed>)
    requires Inv(y) && MeaningInv(y)
    ensures OneMeaning(RunCommands(y, cmds).seen)
  {
    var restart := y.(safe := true);
    RunEventsKeepInv(restart, Commands(cmds));
    CommandsKeepSafe(restart, cmds);
    SafeIsHistory(y, cmds);
  }

  /** Versions keep one meaning under all commands from time `t` on. */
  ghost predicate KeepsMeaning(y: System, t: nat) {
    forall cmds :: InOrder(cmds, t) ==> OneMeaning(RunCommands(y, cmds).seen)
  }

  lemma SafeKeepsMeaning(y: System, snapshot: Snapshot, t: nat)
    requires Inv(y) && ValidSnapshot(snapshot) && Safe(y.seen, snapshot)
    ensures KeepsMeaning(Restored(y, snapshot), t)
  {
    RestoredKeepsInv(y, snapshot);
    var z := Restored(y, snapshot);
    forall cmds | InOrder(cmds, t) ensures OneMeaning(RunCommands(z, cmds).seen) {
      CommandsKeepMeaning(z, cmds);
    }
  }

  lemma UnsafeLosesMeaning(y: System, snapshot: Snapshot, t: nat)
    requires !Safe(y.seen, snapshot)
    ensures !KeepsMeaning(Restored(y, snapshot), t)
  {
    var z := Restored(y, snapshot);
    if !OneMeaning(z.seen) {
      assert InOrder([], t) && RunCommands(z, []) == z;
    } else {
      var a :| a in y.seen && a.version > MaxVersion(snapshot.data);
      var cmds := DrawnAgain(y, snapshot, a, a.key + "'", a.value, t);
      assert !OneMeaning(RunCommands(z, cmds).seen) by {
        assert Sighting(a.version, a.key + "'", a.value) != a;
      }
    }
  }

  lemma KeepsMeaningIff(y: System, snapshot: Snapshot, t: nat)
    requires Inv(y) && ValidSnapshot(snapshot)
    ensures KeepsMeaning(Restored(y, snapshot), t) <==> Safe(y.seen, snapshot)
  {
    if Safe(y.seen, snapshot) {
      SafeKeepsMeaning(y, snapshot, t);
    } else {
      UnsafeLosesMeaning(y, snapshot, t);
    }
  }

  /**
   The exact condition under which versions keep one meaning across a restore, at any point of
   any run and whatever time it is then: the snapshot contradicts nothing seen and is not behind
   anything seen.
   */
  lemma {:induction false} RestoreKeepsMeaningIff(start: nat, events: seq<Event>, snapshot: Snapshot, t: nat)
    requires ValidSnapshot(snapshot)
    ensures KeepsMeaning(Restored(After(start, events), snapshot), t) <==> Safe(After(start, events).seen, snapshot)
  {
    RunEventsKeepInv(NewSystem(start), events);
    KeepsMeaningIff(After(start, events), snapshot, t);
  }

  lemma OwnSnapshotSafe(y: System, i: nat)
    requires Inv(y) && y.safe && i < |y.images|
    ensures ValidSnapshot(y.images[i]) && y.seen + Sightings(y.images[i].data) == y.seen
    ensures Safe(y.seen, y.images[i]) <==> SeenUpTo(y.seen, MaxVersion(y.images[i].data))
  {
  }

  lemma OwnKeepsMeaningIff(y: System, i: nat, t: nat)
    requires Inv(y) && y.safe && i < |y.images|
    ensures KeepsMeaning(Restored(y, y.images[i]), t) <==> SeenUpTo(y.seen, MaxVersion(y.images[i].data))
  {
    OwnSnapshotSafe(y, i);
    KeepsMeaningIff(y, y.images[i], t);
  }

  /**
   For a snapshot of the store's own, all restores before it being safe, that comes down to its
   highest version not being behind any version seen.
   */
  lemma {:induction false} OwnRestoreKeepsMeaningIff(start: nat, events: seq<Event>, i: nat, t: nat)
    requires i < |After(start, events).images| && After(start, events).safe
    ensures var y := After(start, events);
            KeepsMeaning(Next(y, Load(i)), t) <==> SeenUpTo(y.seen, MaxVersion(y.images[i].data))
  {
    var y := After(start, events);
    RunEventsKeepInv(NewSystem(start), events);
    assert Next(y, Load(i)) == Restored(y, y.images[i]);
    OwnKeepsMeaningIff(y, i, t);
  }

  // ---------------------------------------------------------------- swaps across a restore

  /** A swap that succeeds on the version seen finds the value seen with it. */
  ghost predicate SwapIsSound(s: Store, a: Sighting, now: nat) {
    SwapSucceeds(s, a.key, a.version, now) ==> s.data[a.key].value == a.value
  }

  /** And so do all swaps after any further commands from time `t` on. */
  ghost predicate KeepsSwapsSound(y: System, seen: set<Sighting>, t: nat) {
    forall cmds, a, now: nat :: InOrder(cmds, t) && a in seen && End(cmds, t) <= now ==>
      SwapIsSound(RunCommands(y, cmds).store, a, now)
  }

  /** Wherever the entries hold a version that was seen for their key, they hold the value seen. */
  ghost predicate Agrees(seen: set<Sighting>, data: map<string, KvEntry>) {
    forall a :: a in seen && a.key in data && data[a.key].version == a.version ==> data[a.key].value == a.value
  }

  /** Every later cleanup leaves a part of what a cleanup now would. */
  lemma AgreesLater(seen: set<Sighting>, s: Store, t: nat, now: nat)
    requires t <= now && Agrees(seen, Cleanup(s, t).data)
    ensures Agrees(seen, Cleanup(s, now).data)
  {
    forall k | k in Cleanup(s, now).data
      ensures k in Cleanup(s, t).data && Cleanup(s, t).data[k] == Cleanup(s, now).data[k] {
      CleanupLeavesLess(s, t, now, k);
    }
  }

  lemma CleanupLeavesLess(s: Store, t: nat, now: nat, k: string)
    requires t <= now && k in Cleanup(s, now).data
    ensures k in Cleanup(s, t).data && Cleanup(s, t).data[k] == Cleanup(s, now).data[k]
  {
  }

  lemma CleanupKeepsAgreement(seen: set<Sighting>, s: Store, t: nat)
    requires Agrees(seen, s.data)
    ensures Agrees(seen, Cleanup(s, t).data)
  {
  }

  /** A command writes versions newer than everything seen, or leaves version and value alone. */
  lemma ApplyKeepsAgreement(seen: set<Sighting>, s: Store, c: Command, now: nat)
    requires Good(s) && SeenUpTo(seen, s.versionCounter) && Agrees(seen, Cleanup(s, now).data)
    ensures Agrees(seen, Apply(s, c, now).data)
  {
    CleanupKeepsGood(s, now);
    var data := Apply(s, c, now).data;
    forall a | a in seen && a.key in data && data[a.key].version == a.version ensures data[a.key].value == a.value {
      ExecuteKeepsOldVersions(Cleanup(s, now), c, now, a.key);
    }
  }

  lemma {:induction false} CommandsKeepAgreement(y: System, seen: set<Sighting>, cmds: seq<Timed>, t: nat)
    requires Good(y.store) && SeenUpTo(seen, y.store.versionCounter) && Agrees(seen, Cleanup(y.store, t).data)
    requires InOrder(cmds, t)
    ensures Agrees(seen, Cleanup(RunCommands(y, cmds).store, End(cmds, t)).data)
    decreases |cmds|
  {
    if cmds != [] {
      var c, now := cmds[0].command, cmds[0].now;
      var z := Next(y, Do(c, now));
      AgreesLater(seen, y.store, t, now);
      ApplyKeepsAgreement(seen, y.store, c, now);
      ApplyKeepsGood(y.store, c, now);
      CleanupKeepsAgreement(seen, z.store, now);
      RunCommandsFirst(y, cmds);
      assert End(cmds[1..], now) == End(cmds, t);
      CommandsKeepAgreement(z, seen, cmds[1..], now);
    }
  }

  lemma AgreeingSwapIsSound(s: Store, seen: set<Sighting>, a: Sighting, t: nat, now: nat)
    requires Agrees(seen, Cleanup(s, t).data) && a in seen && t <= now
    ensures SwapIsSound(s, a, now)
  {
    if SwapSucceeds(s, a.key, a.version, now) {
      CleanupLeavesLess(s, t, now, a.key);
      SwapFindsEntry(s, a.key, a.version, now);
    }
  }

  /** Nothing seen is above the snapshot, and what of it outlives a cleanup at `t` agrees with everything seen. */
  ghost predicate SwapsCarryOver(y: System, snapshot: Snapshot, t: nat) {
    SeenUpTo(y.seen, MaxVersion(snapshot.data)) && Agrees(y.seen, Cleanup(Restore(y.store, snapshot), t).data)
  }

  lemma CarriedSwapsStaySound(y: System, snapshot: Snapshot, t: nat)
    requires ValidSnapshot(snapshot) && SwapsCarryOver(y, snapshot, t)
    ensures KeepsSwapsSound(Restored(y, snapshot), y.seen, t)
  {
    RestoreKeepsGood(y.store, snapshot);
    var z := Restored(y, snapshot);
    forall cmds, a, now: nat | InOrder(cmds, t) && a in y.seen && End(cmds, t) <= now
      ensures SwapIsSound(RunCommands(z, cmds).store, a, now) {
      CommandsKeepAgreement(z, y.seen, cmds, t);
      AgreeingSwapIsSound(RunCommands(z, cmds).store, y.seen, a, End(cmds, t), now);
    }
  }

  lemma BehindLosesSwaps(y: System, snapshot: Snapshot, t: nat)
    requires !SeenUpTo(y.seen, MaxVersion(snapshot.data))
    ensures !KeepsSwapsSound(Restored(y, snapshot), y.seen, t)
  {
    var a :| a in y.seen && a.version > MaxVersion(snapshot.data);
    var cmds := DrawnAgain(y, snapshot, a, a.key, a.value + "'", t);
    assert !SwapIsSound(RunCommands(Restored(y, snapshot), cmds).store, a, t);
  }

  lemma ContradictedLosesSwaps(y: System, snapshot: Snapshot, t: nat)
    requires !Agrees(y.seen, Cleanup(Restore(y.store, snapshot), t).data)
    ensures !KeepsSwapsSound(Restored(y, snapshot), y.seen, t)
  {
    var z := Restored(y, snapshot);
    var data := Cleanup(z.store, t).data;
    var a :| a in y.seen && a.key in data && data[a.key].version == a.version && data[a.key].value != a.value;
    SwapFindsEntry(z.store, a.key, a.version, t);
    assert InOrder([], t) && End([], t) == t && RunCommands(z, []) == z;
    assert !SwapIsSound(RunCommands(z, []).store, a, t);
  }

  lemma KeepsSwapsIff(y: System, snapshot: Snapshot, t: nat)
    requires ValidSnapshot(snapshot)
    ensures KeepsSwapsSound(Restored(y, snapshot), y.seen, t) <==> SwapsCarryOver(y, snapshot, t)
  {
    if SwapsCarryOver(y, snapshot, t) {
      CarriedSwapsStaySound(y, snapshot, t);
    } else if !SeenUpTo(y.seen, MaxVersion(snapshot.data)) {
      BehindLosesSwaps(y, snapshot, t);
    } else {
      ContradictedLosesSwaps(y, snapshot, t);
    }
  }

  /**
   Compare-and-swap across a restore, of any valid snapshot, at any point of any run. Swaps on
   versions seen before it stay sound under all commands from `t` on exactly when no version
   seen is above the snapshot's highest, and no entry of the snapshot, unless a cleanup at `t`
   takes it, holds a version seen for its key with another value.
   */
  lemma {:induction false} RestoreKeepsSwapsIff(start: nat, events: seq<Event>, snapshot: Snapshot, t: nat)
    requires ValidSnapshot(snapshot)
    ensures var y := After(start, events);
            KeepsSwapsSound(Restored(y, snapshot), y.seen, t) <==>
              && SeenUpTo(y.seen, MaxVersion(snapshot.data))
              && Agrees(y.seen, Cleanup(Restore(y.store, snapshot), t).data)
  {
    KeepsSwapsIff(After(start, events), snapshot, t);
  }

  lemma OwnSnapshotAgrees(y: System, i: nat, t: nat)
    requires Inv(y) && y.safe && i < |y.images|
    ensures ValidSnapshot(y.images[i]) && Agrees(y.seen, Cleanup(Restore(y.store, y.images[i]), t).data)
  {
    var data := y.images[i].data;
    forall a | a in y.seen && a.key in data && data[a.key].version == a.version ensures data[a.key].value == a.value {
      assert Sighting(a.version, a.key, data[a.key].value) in Sightings(data);
    }
    CleanupKeepsAgreement(y.seen, Restore(y.store, y.images[i]), t);
  }

  /** A snapshot of the store's own contradicts nothing, all restores before it being safe. */
  lemma {:induction false} OwnRestoreKeepsSwapsIff(start: nat, events: seq<Event>, i: nat, t: nat)
    requires i < |After(start, events).images| && After(start, events).safe
    ensures var y := After(start, events);
            KeepsSwapsSound(Next(y, Load(i)), y.seen, t) <==> SeenUpTo(y.seen, MaxVersion(y.images[i].data))
  {
    var y := After(start, events);
    RunEventsKeepInv(NewSystem(start), events);
    assert Next(y, Load(i)) == Restored(y, y.images[i]);
    OwnSnapshotAgrees(y, i, t);
    KeepsSwapsIff(y, y.images[i], t);
  }

  /**
   After a restore the next version exceeds all live ones; it exceeds everything seen in the
   whole run exactly when the snapshot holds something at least as new as each thing seen.
   */
  lemma {:induction false} FreshAfterRestoreIff(start: nat, events: seq<Event>, snapshot: Snapshot)
    ensures var y := After(start, events);
            var data, next := snapshot.data, Restored(y, snapshot).store.versionCounter + 1;
            && (forall k :: k in data ==> data[k].version < next)
            && ((forall a :: a in y.seen ==> a.version < next) <==>
                  forall a :: a in y.seen && a.version > 0 ==> exists k :: k in data && data[k].version >= a.version)
  {
    var y, data := After(start, events), snapshot.data;
    assert IsMaxVersion(data, MaxVersion(data));
    forall a | a in y.seen && a.version > 0
      ensures a.version <= MaxVersion(data) <==> exists k :: k in data && data[k].version >= a.version {
    }
  }

  /** A run across a restore that lowers the counter: the swap succeeds though the value has changed. */
  lemma StaleSwapAfterRestore(metadata: EntryMetadata)
    ensures var s1 := Apply(NewStore(0), Set("a", "x", None, metadata), 0);
            var s2 := Apply(s1, Delete("a"), 0);
            var s3 := Restore(s2, TakeSnapshot(s2));
            var s4 := Apply(s3, Set("a", "y", None, metadata), 0);
            && "a" in s1.data && s1.data["a"].version == 1 && s1.data["a"].value == "x"
            && SwapSucceeds(s4, "a", 1, 0) && s4.data["a"].value == "y"
  {
    var s1 := Apply(NewStore(0), Set("a", "x", None, metadata), 0);
    var s2 := Apply(s1, Delete("a"), 0);
    assert s2.data == map[];
    assert IsMaxVersion(s2.data, MaxVersion(s2.data));
  }

  // ---------------------------------------------------------------- a replica after a restore

  /** To readers, and by its statistics, a restored store is the one that was snapshotted. */
  lemma RestoreShowsSource(receiver: Store, s: Store, q: Command, now: nat)
    ensures var r := Restore(receiver, TakeSnapshot(s));
            && Query(r, q, now) == Query(s, q, now)
            && r.stats == s.stats
            && r.lastCleanup == receiver.lastCleanup
            && TakeSnapshot(r) == TakeSnapshot(s)
  {
  }

  /** An entry stored at `at` that has expired by any later time, and a command then. */
  function ShortLived(at: nat, later: nat): seq<Timed> {
    [Timed(Set("a", "x", Some(0), EntryMetadata("", [], "", 0)), at), Timed(Get("a"), later)]
  }

  function CleanedAt(s: Store, now: nat): nat {
    if CleanupDue(s, now) then now else s.lastCleanup
  }

  lemma ShortLivedStored(s: Store, at: nat, later: nat)
    requires at < later
    ensures var z := Apply(s, ShortLived(at, later)[0].command, at);
            z.lastCleanup == CleanedAt(s, at) && "a" in z.data && Expired(z.data["a"], later)
  {
  }

  /** The entry is still there exactly when the next cleanup is not yet due. */
  lemma ShortLivedHeldIff(s: Store, at: nat, later: nat)
    requires at < later
    ensures "a" in Run(s, ShortLived(at, later)).data <==> later - CleanedAt(s, at) < CLEANUP_INTERVAL
  {
    ShortLivedStored(s, at, later);
    var cmds := ShortLived(at, later);
    RunTwo(s, cmds[0], cmds[1]);
    var z := Apply(s, cmds[0].command, at);
    assert CleanupDue(z, later) <==> later - CleanedAt(s, at) >= CLEANUP_INTERVAL;
    assert Apply(z, cmds[1].command, later).data == Cleanup(z, later).data;
  }

  /** When to store the entry and when to look, for one of two nodes to hold it and the other not. */
  lemma OneHoldsIt(low: Store, high: Store, t: nat) returns (at: nat, later: nat)
    requires low.lastCleanup < high.lastCleanup <= t < high.lastCleanup + CLEANUP_INTERVAL
    ensures t <= at < later
    ensures "a" in Run(low, ShortLived(at, later)).data <==> "a" !in Run(high, ShortLived(at, later)).data
  {
    if t < low.lastCleanup + CLEANUP_INTERVAL {
      at, later := low.lastCleanup + CLEANUP_INTERVAL - 1, low.lastCleanup + CLEANUP_INTERVAL;
    } else {
      at := if t == high.lastCleanup then t + 1 else t;
      later := high.lastCleanup + CLEANUP_INTERVAL;
    }
    ShortLivedHeldIff(low, at, later);
    ShortLivedHeldIff(high, at, later);
  }

  lemma RunTwo(s: Store, a: Timed, b: Timed)
    ensures Run(s, [a, b]) == Apply(Apply(s, a.command, a.now), b.command, b.now)
  {
    RunLast(s, [], a);
    RunLast(s, [a], b);
    assert [] + [a] == [a] && [a] + [b] == [a, b];
  }

  lemma OtherVersions(r: Store, s: Store, t: nat)
    requires r.versionCounter != s.versionCounter
    ensures !FollowsFrom(r, s, t)
  {
    var c := Timed(Set("a", "x", None, EntryMetadata("", [], "", 0)), t);
    RunLast(r, [], c);
    RunLast(s, [], c);
    assert [] + [c] == [c];
    assert Run(r, [c]).data["a"].version == r.versionCounter + 1;
    assert Run(s, [c]).data["a"].version == s.versionCounter + 1;
    assert InOrder([c], t);
  }

  lemma OtherClocks(low: Store, high: Store, t: nat)
    requires low.lastCleanup < high.lastCleanup <= t < high.lastCleanup + CLEANUP_INTERVAL
    ensures !FollowsFrom(low, high, t) && !FollowsFrom(high, low, t)
  {
    var at, later := OneHoldsIt(low, high, t);
    assert InOrder(ShortLived(at, later), t);
  }

  /** With cleanup due at both nodes, the first command levels their clocks. */
  lemma {:induction false} DueClocksLevel(s: Store, clock: nat, t: nat, cmds: seq<Timed>)
    requires t - s.lastCleanup >= CLEANUP_INTERVAL && t - clock >= CLEANUP_INTERVAL
    requires InOrder(cmds, t) && cmds != []
    ensures Run(s.(lastCleanup := clock), cmds) == Run(s, cmds)
    decreases |cmds|
  {
    var rest, last := cmds[..|cmds| - 1], cmds[|cmds| - 1];
    if rest == [] {
      assert Cleanup(s.(lastCleanup := clock), last.now) == Cleanup(s, last.now);
    } else {
      DueClocksLevel(s, clock, t, rest);
    }
  }

  /** Both end with the same entries after all commands from `t` on. */
  ghost predicate FollowsFrom(r: Store, s: Store, t: nat) {
    forall cmds :: InOrder(cmds, t) ==> Run(r, cmds).data == Run(s, cmds).data
  }

  lemma DueFollows(s: Store, clock: nat, t: nat)
    requires t - s.lastCleanup >= CLEANUP_INTERVAL && t - clock >= CLEANUP_INTERVAL
    ensures FollowsFrom(s.(lastCleanup := clock), s, t)
  {
    forall cmds | InOrder(cmds, t) ensures Run(s.(lastCleanup := clock), cmds).data == Run(s, cmds).data {
      if cmds != [] {
        DueClocksLevel(s, clock, t, cmds);
      }
    }
  }

  /**
   A store restored from a snapshot and given the rest of the commands, from a time `t` that is
   before neither node's last cleanup, ends with the same entries as the store that was
   snapshotted, for every rest, exactly when that store's counter was its highest live version
   and both last cleaned up at the same time or both are due to. Neither the counter nor the
   time of the last cleanup is part of a snapshot.
   */
  lemma SnapshotThenCommandsIff(s: Store, receiver: Store, t: nat)
    requires s.lastCleanup <= t && receiver.lastCleanup <= t
    ensures FollowsFrom(Restore(receiver, TakeSnapshot(s)), s, t) <==>
              && s.versionCounter == MaxVersion(s.data)
              && (receiver.lastCleanup == s.lastCleanup || (CleanupDue(receiver, t) && CleanupDue(s, t)))
  {
    var r := Restore(receiver, TakeSnapshot(s));
    if s.versionCounter != MaxVersion(s.data) {
      OtherVersions(r, s, t);
    } else if CleanupDue(receiver, t) && CleanupDue(s, t) {
      assert r == s.(lastCleanup := receiver.lastCleanup);
      DueFollows(s, receiver.lastCleanup, t);
    } else if r.lastCleanup < s.lastCleanup {
      OtherClocks(r, s, t);
    } else if s.lastCleanup < r.lastCleanup {
      OtherClocks(s, r, t);
    } else {
      assert r == s;
    }
  }
}
