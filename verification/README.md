# iroh-raft: the resilience layer and the apply path

A model of the parts of iroh-raft that hold its hard logic outside the Raft library: the
bounded channel with backpressure and its priority manager, the circuit breaker, the path
from committed log entries to replicas and waiting clients, the membership peer list, the
lock-free histogram, the versioned key-value store with expiry, and adaptive timeouts with
retry. `dafny verify dfyconfig.toml` checks everything.

Objects whose methods change fields in place are classes. Each class has a `View` (or plain
fields) and its methods are proved against step functions on values; the lemmas then speak
of whole runs of those steps. A step that is not enabled leaves the state alone, so every
sequence of steps is a run. Protocols with several parties (senders and a receiver, calls
that overlap, replicas, threads in a compare-exchange loop) are state machines over their
atomic points.

| file | what it models |
|---|---|
| `Backpressure.dfy`, `BackpressureMetrics.dfy`, `PriorityManager.dfy` | the bounded channel, its counters, the four-level manager |
| `CircuitBreaker.dfy`, `CircuitBreakerRuns.dfy` | the breaker object, and its runs with overlapping calls |
| `KeyValueMachine.dfy`, `Replication.dfy`, `RaftNode.dfy` | the node's state machine, a cluster over an agreed log, one node's ready loop |
| `PeerConfig.dfy` | speculative and committed peer lists |
| `Histogram.dfy` | bucket counters and percentiles |
| `KvStore.dfy`, `KvRuns.dfy`, `KvRestores.dfy`, `KvReads.dfy`, `KvCounts.dfy`, `KeyOrder.dfy` | the versioned store, its runs, what restores keep, what readers see, what its statistics add up to, the order of keys |
| `TimeoutManager.dfy` | adaptive timeouts, backoff, retry |
| `Decimal.dfy`, `Wrappers.dfy` | decimal text and 64-bit wrap-around, an option type |

## Assumptions

- The committed log is agreed: entries are committed in one order, never taken back, and each
  was proposed by some node (State Machine Safety, figure 3 of the Raft paper by Ongaro and
  Ousterhout). An entry may even be committed twice. Every committed entry reaches a node
  through `take_committed_entries`; a ready carries committed entries or a snapshot.
- `allow_request`, `on_success` and `on_failure` of the breaker are one atomic step each,
  although the code takes several locks in turn. Calls still overlap, and late results land
  in whatever state the breaker is in by then. A call whose future is dropped before it
  completes was admitted and counted, and never reports.
- A proposal is handed to Raft at most once.
- Clocks are integers that never go backwards, so that no command reaches a store before its
  last cleanup, where the subtraction in the code would wrap. Floating-point numbers are reals.
- `i64` sums and `updated_at + ttl` wrap around as in a release build. Other counters are
  unbounded.
- Serialization round-trips. A hash map may be walked in any order.

## Where the code does not do what one expects

- Half-open can get stuck for good when `success_threshold > half_open_max_requests + 1`, and,
  whatever the settings, when enough calls are dropped by their callers while half-open, before
  they report: a dropped call keeps its place in the probe budget (`NeverStuckIff`, `DroppedProbesStick`,
  `StuckForever`).
- The adaptive timeout can pass `max_timeout`, since the calm branch is not capped
  (`PassesMaxIff`, `TimeoutPastMax`), and a timeout of 1 ms never grows (`HighRateReachesMaxIff`).
- A restore recomputes the version counter from the live entries and may lower it, so
  versions are handed out again and a stale compare-and-swap may succeed
  (`RestoreKeepsSwapsIff`, `RestoreKeepsMeaningIff`, `StaleSwapAfterRestore`).
- A replica restored from a snapshot may draw other versions than its source, and, its last
  cleanup being a time of its own that no snapshot carries, may hold entries its source has
  cleaned up or the other way round, until the next cleanup is due at both
  (`SnapshotThenCommandsIff`).
- An expired key that reads as absent still blocks a conditional insert until cleanup is due
  (`ConditionalInsertIff`). Until then an expiry command brings the entry back to life with its
  old value, a swap on its version succeeds, an increment counts on from its value, and a set
  keeps its creation time (`ExpiredUnnoticedIff`).
- Nodes started with different peer lists keep differing on every node that no committed change
  touches (`ReplicasAgreeIff`).
- A proposed peer whose proposal is lost stays in the list until a committed change touches
  it (`LostProposalStays`).
- The answer to a key listing joins the keys with newlines, so keys that contain one make
  different stores answer alike, and so does the empty key, which answers like no key at all
  (`ListingsCollideIff`, `LineBreaksCollide`).
- A lifetime whose end overflows 64 bits may be over at once (`ReadAfterSet`, `ReadAfterExpire`).
- The integer moving average stalls up to 7 ms below a steady sample (`AverageStalls`).

## Model

| member | source | states |
|---|---|---|
| Backpressure.PermitConservation | src/backpressure.rs:217-352 | in every interleaving of senders and receiver, available permits, permits held before a push, queued, popped-but-unreleased and lost messages add up to `max_pending`; the queue is within capacity, its own full answer is never given, and used permits do not underflow |
| Backpressure.HolderHasRoom | src/backpressure.rs:263-283 | a sender that holds a permit always finds room, so the full branch is dead |
| Backpressure.LosslessFifo | src/backpressure.rs:231-352 | received is a prefix of sent, the rest is the queue; with no call under way the counters differ by the queue length and permits are free exactly as places are |
| Backpressure.CountersSkew | src/backpressure.rs:272-275 | the receive counter can lead the send counter by at most the senders between push and count |
| Backpressure.NextKeepsBalance | src/backpressure.rs:217-352 | each single protocol point keeps the permit, message and counter ledgers |
| Backpressure.CallsEndOnce | src/backpressure.rs:217-291 | over any run every call that got a permit is under way or ended once, as counted sent, refused at the push or timed out, and the timeout counter counts exactly the last kind |
| Backpressure.BackpressureQueue.TrySend | src/backpressure.rs:263-291 | one non-blocking send is its three protocol points; it succeeds exactly when the receiver lives and there is room, and says which of capacity and closure stopped it |
| Backpressure.BackpressureQueue.TryRecv | src/backpressure.rs:327-352 | one non-blocking receive is its two protocol points; it takes the oldest message if there is one and averages its age in, and says whether an empty queue has lost its senders |
| Backpressure.BackpressureQueue.IsUnderBackpressure | src/backpressure.rs:299-305 | between calls the usage ratio exceeds the threshold exactly when the queued (or lost) messages do |
| BackpressureMetrics.AverageWithinSamples | src/backpressure.rs:154-164 | the integer moving average, its restart at 0 included, stays between the smallest and largest sample of its history |
| BackpressureMetrics.NextAverage | src/backpressure.rs:157-162 | an update is seven eighths of the average and one eighth of the sample, rounded down, and the sample itself where there was no average |
| BackpressureMetrics.AverageTracksExact | src/backpressure.rs:154-164 | over any history the integer average is at most 7 below the unrounded one and never above it |
| BackpressureMetrics.AverageStalls | src/backpressure.rs:161 | an average is a fixed point exactly when it is at most 7 below the sample |
| BackpressureMetrics.AverageSettles | src/backpressure.rs:154-164 | a steady sample brings any average to within 7 below it in as many steps as they are apart, for good |
| BackpressureMetrics.LatencyMeter.RecordLatency | src/backpressure.rs:154-164 | the stored value is the average of the whole history |
| BackpressureMetrics.AggregateMetrics | src/backpressure.rs:412-446 | totals are sums, the maximum is a maximum, the latency is the received-weighted mean rounded down, 0 without messages, and lies between the per-queue extremes |
| BackpressureMetrics.SumsAddUp | src/backpressure.rs:426-438 | the totals add up over any two groups of queues, and those of one queue are its own counts, its latency weighed by what it received |
| BackpressureMetrics.AggregateLatencyWithin | src/backpressure.rs:435-443 | the received-weighted integer mean stays between the smallest and largest average of queues that received anything |
| BackpressureMetrics.LockFreeMaximum | src/backpressure.rs:136-152 | whatever the interleaving and the spurious failures of the compare-exchange, the cell is the maximum of the counts recorded |
| PriorityManager.DrainIsStableSort | src/backpressure.rs:391-404 | scanning until empty yields the backlog ordered by queue, highest first, with each queue's order kept |
| PriorityManager.StableSortIsUnique | src/backpressure.rs:391-404 | that description determines the drain order completely |
| PriorityManager.PerLevelFifo | src/backpressure.rs:367-404 | over any run of sends and scans each level is a lossless FIFO within a quarter of the capacity |
| PriorityManager.SendsAndScans | src/backpressure.rs:376-404 | in every run a send goes through exactly when its level has room, and a scan takes the oldest message of a level above which nothing waits, if anything waits |
| PriorityManager.PriorityBackpressureManager.ScanPrioritized | src/backpressure.rs:391-404 | one scan takes the oldest message of the highest non-empty queue and nothing else |
| CircuitBreaker.CircuitBreaker.AllowRequest | src/circuit_breaker.rs:189-218 | the admission decision and the move to half-open; a closed breaker admits and stays as it is |
| CircuitBreaker.CircuitBreaker.CleanOldFailures | src/circuit_breaker.rs:275-286 | popping from the front leaves exactly the failures of the last 60 seconds |
| CircuitBreaker.CircuitBreaker.OnSuccess | src/circuit_breaker.rs:221-240 | a success closes from half-open at the threshold, and otherwise cleans |
| CircuitBreaker.CircuitBreaker.OnFailure | src/circuit_breaker.rs:243-272 | a failure is recorded, and trips the breaker from closed at the threshold and from half-open at once |
| CircuitBreaker.CircuitBreaker.Call | src/circuit_breaker.rs:154-186 | a call is rejected without effect or is admitted, reported and counted once |
| CircuitBreaker.InWindowTwice | src/circuit_breaker.rs:275-286 | cleaning at earlier times never changes what a later cleaning leaves |
| CircuitBreaker.InWindowFromFront | src/circuit_breaker.rs:279-285 | on failures in time order the front alone decides, so the pop loop is a filter |
| CircuitBreaker.WindowCountsLastMinute | src/circuit_breaker.rs:275-286 | the window holds as many failures as the history has at most 60 seconds old, one exactly that old included |
| CircuitBreakerRuns.OpensExactlyAtThreshold | src/circuit_breaker.rs:243-286 | over all runs a closed breaker has had fewer failures in the last 60 seconds than the threshold, and opens exactly when a failure brings the count over the whole history since the last close to it |
| CircuitBreakerRuns.AdmittedIff | src/circuit_breaker.rs:189-218 | in every run a request is admitted exactly when the breaker is closed, or open and past the timeout since every failure and forced opening, or half-open within the probe budget; only the second changes the state |
| CircuitBreakerRuns.StateChangesIff | src/circuit_breaker.rs:189-317 | in every run, for each state and event, exactly when the event leads to which state, read off the failures of the last minute and the good calls of the half-open episode |
| CircuitBreakerRuns.ChangesAreCounted | src/circuit_breaker.rs:233-317 | the two counters are the openings and closings of the run, forced ones included |
| CircuitBreakerRuns.OpenAdmitsOnlyAfterTimeout | src/circuit_breaker.rs:194-206 | while open a request is admitted exactly when the timeout has strictly passed since every failure and forced opening |
| CircuitBreakerRuns.ProbeBudget | src/circuit_breaker.rs:197-215 | a half-open episode admits at most `half_open_max_requests + 1` requests, and admits until then |
| CircuitBreakerRuns.NeverStuckIff | src/circuit_breaker.rs:154-272 | half-open with no call under way always admits another, over all runs with at most `drops` calls dropped since the breaker last went half-open, exactly when `max(success_threshold, 1) + drops <= half_open_max_requests + 1` |
| CircuitBreakerRuns.StuckRun | src/circuit_breaker.rs:207-233 | otherwise ordinary calls, no more than `drops` of them dropped and no probe failing, lead to a stuck breaker |
| CircuitBreakerRuns.DroppedProbesStick | src/circuit_breaker.rs:168-171 | whatever the settings, dropping as many calls as half-open lets in leaves it stuck |
| CircuitBreakerRuns.StuckForever | src/circuit_breaker.rs:207-215 | a stuck breaker rejects everything until it is forced |
| CircuitBreakerRuns.GoodCallsCloseIff | src/circuit_breaker.rs:207-233 | from half-open with nothing under way the missing number of successful calls closes the breaker exactly when the probe budget has room for them |
| CircuitBreakerRuns.GoodCallsClose | src/circuit_breaker.rs:207-233 | it has, as long as the missing successes and the calls dropped while half-open do not exceed the requests let in |
| CircuitBreakerRuns.CallsAreCounted | src/circuit_breaker.rs:161-186 | every request was admitted or rejected, and those admitted are the calls under way plus successes plus failures plus calls dropped before they reported |
| CircuitBreakerRuns.OpensAndCloses | src/circuit_breaker.rs:232-266 | unforced, openings outnumber closings unless the breaker is closed |
| KeyValueMachine.KeyValueStateMachine.Apply | src/node.rs:82-119 | each command changes the map and answers as specified, a listing in any order, writes and other proposals with their fixed texts |
| KeyValueMachine.KeyValueStateMachine.CollectKeys | src/node.rs:101-109 | a listing has each key with the prefix once |
| KeyValueMachine.KeyValueStateMachine.Snapshot | src/node.rs:121-124 | a snapshot has each pair of the map once, in any order |
| KeyValueMachine.KeyValueStateMachine.Restore | src/node.rs:126-132 | a restore rebuilds the map from the pairs |
| KeyValueMachine.ReplayHoldsLastWrites | src/node.rs:88-99 | a replayed log holds the last write of every key, and reads and deletes answer accordingly |
| KeyValueMachine.ListingNamesKeys | src/node.rs:101-109 | without line breaks in keys, the lines of a listing are, each once, the keys whose last write is no delete and that start with the prefix; the empty answer stands for no key or the empty key |
| KeyValueMachine.ListingsCollideIff | src/node.rs:101-109 | two stores without line breaks in keys can give the same listing exactly when they list the same keys, or at most the empty key each |
| KeyValueMachine.LineBreaksCollide | src/node.rs:109 | a line break in a key makes two different stores answer alike |
| KeyValueMachine.SnapshotRoundTrip | src/node.rs:121-132 | restoring a snapshot gives the map back, whatever order the pairs were in |
| KeyValueMachine.SnapshotThenSuffix | src/node.rs:587-597 | snapshot then the rest of the log is the whole log |
| Replication.ReplicaAgreement | src/node.rs:565-649 | over all runs each replica's map is the replay of the log to its applied index, so equal indices mean equal maps |
| Replication.NextKeepsReplicas | src/node.rs:565-649 | each step, installs included, keeps every replica and every snapshot a replay of a log prefix |
| Replication.ReplicasMove | src/node.rs:565-649 | in every run applying takes a replica one entry further, waited for or not, and an install puts it at the index of the snapshot with what the log holds up to there |
| Replication.ReplyRouting | src/node.rs:328-367 | each proposal is answered at most once, by its own node, from a position holding it, with the result of its command there |
| Replication.ExactlyOnce | src/node.rs:328-367 | a committed proposal is answered exactly once, for good, if its own node applies the entry rather than jumping over it by snapshot |
| Replication.NoCrossCompletion | src/node.rs:615-637 | an entry only completes a proposal whose id was made by that very node |
| Replication.NewIdIsFresh | src/node.rs:463-469 | a drawn id has never been used |
| RaftNode.RaftNode.Propose | src/node.rs:328-356 | a proposal waits before it is submitted, and is withdrawn only when the node is not leader |
| RaftNode.RaftNode.ApplyEntry | src/node.rs:615-637 | an entry is applied, and answers the client waiting under its id if there is one |
| RaftNode.RaftNode.ApplySnapshot | src/node.rs:639-649 | a snapshot replaces the state |
| RaftNode.RaftNode.HandleReady | src/node.rs:587-597 | a batch is replayed in order and gives exactly the answers due; a snapshot then replaces the state |
| RaftNode.AnsweredWereWaiting | src/node.rs:629-634 | a batch answers only ids that waited, each once, and they wait no more |
| RaftNode.BatchIsApplySteps | src/node.rs:587-591 | a batch with its answers is a run of apply steps of the cluster |
| Decimal.ProposalIdInjective | src/node.rs:468 | an id determines the node and the counter it was made from |
| Decimal.PrintIntCanonical | src/node.rs:468 | printed integers have a minus sign exactly below zero and no leading zero, and each number has one such text |
| PeerConfig.SpeculativePeersConverge | src/raft/config_manager.rs:156-378 | from any list to start with, the list is the committed list overlaid by speculative writes not yet reached; it is right exactly where no such write differs, in particular where no addition is outstanding |
| PeerConfig.CommittedHoldsLastChanges | src/raft/config_manager.rs:292-378 | after any committed changes each node has the address of the last addition of it with a readable one, or no entry if a removal came later, or its first entry if nothing touched it |
| PeerConfig.TouchesIff | src/raft/config_manager.rs:292-378 | a change touches a node exactly when it can alter the entry of that node |
| PeerConfig.ReplicasAgreeIff | src/raft/config_manager.rs:292-378 | nodes that applied the same changes and have nothing outstanding agree exactly when they were started with the same entry for every node no change has touched |
| PeerConfig.CommitRepairs | src/raft/config_manager.rs:292-378 | a committed change that touches a node makes its entry right |
| PeerConfig.LostProposalStays | src/raft/config_manager.rs:174-176 | a lost addition stays in the list until a committed change touches the node |
| PeerConfig.RaftConfigManager.HandleConfChange | src/raft/config_manager.rs:87-199 | leadership, acceptance and address errors, and the speculative write that survives an address error |
| PeerConfig.RaftConfigManager.UpdateLocalPeers | src/raft/config_manager.rs:292-378 | an addition with a readable address stores it under its node, a removal clears the entry, and nothing else changes |
| PeerConfig.RaftConfigManager.ApplyConfChange | src/raft/config_manager.rs:203-233 | a node that holds the committed list still does after a commit, entry by entry the last change to each node; every committed addition raises the replication flag |
| PeerConfig.RaftConfigManager.NeedsReplicationTrigger | src/raft/config_manager.rs:512-519 | reading the flag clears it |
| Histogram.LockFreeHistogram.FindBucketIndex | src/lock_free.rs:99-106 | the bucket whose boundaries enclose the value |
| Histogram.LockFreeHistogram.Record | src/lock_free.rs:76-79 | the counters stay the bucket counts of all samples |
| Histogram.LockFreeHistogram.Snapshot | src/lock_free.rs:87-97 | a snapshot represents the samples recorded |
| Histogram.TotalCount | src/lock_free.rs:117-119 | the counters add up to the number of samples |
| Histogram.Percentile | src/lock_free.rs:121-144 | the percentile is the largest boundary (or 0) not above the k-th smallest sample, k being the least whole number not below n*p; there is none exactly without samples or for p above 1; the all-ones case is dead |
| Histogram.RankIsCeiling | src/lock_free.rs:127 | the rank is the ceiling of n*p for positive p, and 0 otherwise |
| Histogram.KthOfSort | src/lock_free.rs:130-137 | the k-th smallest sample is the same in any ascending arrangement |
| Histogram.FloorOfBucket | src/lock_free.rs:130-137 | the bucket where the running count reaches k holds the k-th smallest sample |
| Histogram.PercentilesGrow | src/lock_free.rs:121-157 | the percentile is determined and grows with p |
| KvStore.DistributedKvStore.CleanupExpiredKeys | examples/distributed_kv_store.rs:150-175 | every 60 seconds exactly the expired keys go, and are counted |
| KvStore.DistributedKvStore.ApplyCommand | examples/distributed_kv_store.rs:197-314 | each command after due cleanup, in place |
| KvStore.DistributedKvStore.RestoreFromSnapshot | examples/distributed_kv_store.rs:321-328 | entries and statistics are replaced, the counter becomes the highest live version |
| KvStore.DistributedKvStore.ExecuteQuery | examples/distributed_kv_store.rs:337-420 | reads skip expired entries; a listing is sorted and cut to the limit |
| KvCounts.CleanupTakesExpired | examples/distributed_kv_store.rs:150-175 | once 60 seconds have passed exactly the entries whose lifetime has ended go, each counted as expired; sooner nothing happens |
| KvCounts.OperationsAreCounted | examples/distributed_kv_store.rs:145-314 | over every run each command is counted once by its kind, except conditional inserts that find an entry, and the version counter counts the commands that draw a version |
| KvCounts.KeysAreAccountedFor | examples/distributed_kv_store.rs:150-314 | over every run the keys created are still there, were deleted or have been counted as expired |
| KvRestores.StoreBookkeeping | examples/distributed_kv_store.rs:150-328 | over all runs with restores of any valid snapshots, other nodes' included, the key count is the number of entries, live versions are distinct and below the next one |
| KvRestores.VersionNamesOneValue | examples/distributed_kv_store.rs:145-328 | as long as every restore met the condition of the next row, a version only ever stood for one key and value |
| KvRestores.RestoreKeepsMeaningIff | examples/distributed_kv_store.rs:321-328 | at any point of any run, versions keep one meaning across the restore of any valid snapshot and all commands from any time on exactly when the snapshot contradicts nothing seen and no version seen is above its highest |
| KvRestores.OwnRestoreKeepsMeaningIff | examples/distributed_kv_store.rs:316-328 | for a snapshot of the store's own, all restores before it being safe, exactly when no version seen is above its highest |
| KvRestores.RestoreKeepsSwapsIff | examples/distributed_kv_store.rs:230-328 | swaps on versions seen before the restore of any valid snapshot stay sound under all commands from time `t` on exactly when no version seen is above its highest, and no entry of it that a cleanup at `t` leaves holds a version seen for its key with another value |
| KvRestores.OwnRestoreKeepsSwapsIff | examples/distributed_kv_store.rs:230-328 | for a snapshot of the store's own, all restores before it being safe, exactly when no version seen is above its highest |
| KvRestores.FreshAfterRestoreIff | examples/distributed_kv_store.rs:321-328 | after a restore the next version exceeds all live ones, and everything ever seen exactly when the snapshot holds something at least as new |
| KvRuns.CasProvesUnchanged | examples/distributed_kv_store.rs:230-242 | a swap that succeeds on a version seen before proves the value was unchanged at every point since |
| KvRuns.SwapWritesIff | examples/distributed_kv_store.rs:230-242 | a swap writes, under a new version, exactly when it finds the expected version |
| KvRestores.StaleSwapAfterRestore | examples/distributed_kv_store.rs:321-328 | a concrete run in which a stale swap succeeds after a restore |
| KvRestores.SnapshotThenCommandsIff | examples/distributed_kv_store.rs:150-328 | a restored store follows its source under all commands from time `t` on exactly when the source's counter was its highest live version and both last cleaned up at the same time or are both due to |
| KvRestores.RestoreShowsSource | examples/distributed_kv_store.rs:316-328 | a restored store answers every query as its source did and has its statistics, but keeps its own cleanup time |
| KvReads.CleanupInvisible | examples/distributed_kv_store.rs:150-175 | no query at or after a cleanup can tell whether it took place |
| KvReads.CleanupScheduleInvisible | examples/distributed_kv_store.rs:150-175 | stores that differ only in expired entries and cleanup clocks stay indistinguishable to reads under every run of commands that never notice an expired entry |
| KvReads.ExpiredUnnoticedIff | examples/distributed_kv_store.rs:197-311 | a command addressed to an expired entry can be told from one after cleanup unless cleanup is due, the command is a read or delete, a swap on another version, a set that keeps no older creation time, or its new lifetime overflows at once |
| KvReads.ConditionalInsertIff | examples/distributed_kv_store.rs:276-291 | a conditional insert goes through exactly when the key is absent, or expired with cleanup due |
| KvReads.CommandsAreLocal | examples/distributed_kv_store.rs:197-311 | to later reads a command changes its own key only, and a failed swap nothing |
| KvReads.ReadAfterSet | examples/distributed_kv_store.rs:201-221 | a set is read back with its value, metadata and lifetime under the next version, with the creation time of the entry it found, until its lifetime ends in 64-bit time |
| KvReads.ReadAfterInsert | examples/distributed_kv_store.rs:276-291 | a conditional insert that finds no entry is read back for good with its value and metadata as a new entry under the next version; one that finds an entry changes no read |
| KvReads.ReadAfterSwap | examples/distributed_kv_store.rs:230-242 | a swap that finds the expected version is read back with its value and metadata under the next version, its lifetime restarted; any other changes no read |
| KvReads.ReadAfterIncrement | examples/distributed_kv_store.rs:244-274 | an increment is read back as the text of the 64-bit sum under the next version, its lifetime restarted and all else kept, or as a new counter; text that is no integer stays |
| KvReads.ReadAfterDelete | examples/distributed_kv_store.rs:223-228 | a deleted key reads as absent and is free at once |
| KvReads.ReadAfterExpire | examples/distributed_kv_store.rs:293-299 | an expiry command restarts the lifetime of the entry it finds, expired or not, and keeps the value; otherwise it does nothing |
| KvReads.MultipleReadsAreSingle | examples/distributed_kv_store.rs:360-380 | reading several keys gives what reading each gives |
| KvReads.ListingOfReads | examples/distributed_kv_store.rs:381-412 | a listing has exactly the keys a single read finds that start with the prefix, each once, in dictionary order, and a limit cuts off its end |
| KvRuns.IncrementsStoreSum | examples/distributed_kv_store.rs:244-274 | any increments of an absent key store the text of the 64-bit sum |
| Decimal.PrintParseRoundTrip | examples/distributed_kv_store.rs:249-251 | text of an integer parses back exactly when it fits 64 bits |
| Decimal.ParseI64Iff | examples/distributed_kv_store.rs:249 | exactly the texts of a sign or none, zeros or none and the digits of a 64-bit number parse, to that number |
| Decimal.WrapI64Sum | examples/distributed_kv_store.rs:250 | wrapping after each addition is wrapping once |
| KeyOrder.SortedListingUnique | examples/distributed_kv_store.rs:405 | a set of keys has one sorted listing |
| KeyOrder.LessIsComesBefore | examples/distributed_kv_store.rs:405 | the order is that of a dictionary: decided at the first difference, a proper prefix first |
| TimeoutManager.TimeoutAtLeastMin | src/timeout_manager.rs:300-346 | in every run the timeout in force is at least the minimum, and 0 is never stored |
| TimeoutManager.StatisticsAreCounts | src/timeout_manager.rs:138-148 | over every history the statistics are the number of attempts, of those that timed out and of the others, and the time the others took |
| TimeoutManager.NextTimeoutFromHistory | src/timeout_manager.rs:211-346 | the next timeout in whole milliseconds, from the counts of the history: raised by half where more than a tenth timed out, led to three averages where fewer than a fiftieth did, only 30 seconds after the last change; the base until the first |
| TimeoutManager.PassesMaxIff | src/timeout_manager.rs:313-346 | an adjustment passes the maximum exactly when it is calm and three times the average does |
| TimeoutManager.TimeoutAtMostMax | src/timeout_manager.rs:300-346 | the timeout stays within the maximum while no operation takes more than a third of it |
| TimeoutManager.TimeoutPastMax | src/timeout_manager.rs:333-337 | four on-time sends with default settings pass the maximum |
| TimeoutManager.CalmConverges | src/timeout_manager.rs:313-337 | with fixed statistics calm adjustments bring the timeout in force to the larger of three averages and the minimum in boundedly many steps, and it stays |
| TimeoutManager.HighRateReachesMaxIff | src/timeout_manager.rs:313-346 | with fixed statistics high-rate adjustments bring the timeout in force to the maximum for good exactly from 2 ms up (or where the maximum is 1 ms) |
| TimeoutManager.DelayAtMost | src/timeout_manager.rs:288-291 | the k-th sleep is at most min(base*(m+j)^k, max) |
| TimeoutManager.DelayAtLeast | src/timeout_manager.rs:288-291 | the k-th sleep is at least min(base*m^k, max), for m below 1 too where the base is within the maximum |
| TimeoutManager.DelaysGrow | src/timeout_manager.rs:288-291 | sleeps never get shorter |
| TimeoutManager.DelayRecurrence | src/timeout_manager.rs:275-354 | each delay is the one before times the multiplier plus exactly the whole milliseconds of the drawn share of the jitter, up to the maximum |
| TimeoutManager.TotalAdds | src/timeout_manager.rs:281-293 | the total of sleeps adds up over any cut of them and of one sleep is that sleep |
| TimeoutManager.DefaultsBehave | src/timeout_manager.rs:66-149 | with the settings each kind of operation starts with, the timeout keeps its minimum in every run and the sleeps of a retry never get shorter and stay within the maximum |
| TimeoutManager.TimeoutManager.AdjustTimeoutIfNeeded | src/timeout_manager.rs:313-346 | the three branches, the 30-second gate and storing whole milliseconds |
| TimeoutManager.TimeoutManager.ExecuteWithTimeout | src/timeout_manager.rs:211-262 | one attempt under the timeout in force, and what it records |
| TimeoutManager.TimeoutManager.ExecuteWithRetry | src/timeout_manager.rs:265-297 | at most `max_retries + 1` attempts, all failed but perhaps the last; each sleep is the capped jittered backoff, and all sleeps together are at most `max_retries * max` |

## Left out

- The Raft library (elections, log matching, `RawNode`), storage, transport, serialization formats, and `src/cluster.rs` with the management and admin layers: the library is not part of this model and the rest is transport or easy upkeep.
- Configuration-change entries and undecodable data in the node's `apply_entry`, and process restarts, after which proposal ids repeat.
- The time a client waits: a reply to a client that has given up is still sent and counted as an answer.
- The lock-by-lock interleaving inside one breaker operation, and the unused breaker settings.
- `current_pending` of one channel: it is decremented on receive and never incremented by a send. The aggregate sums whatever it is.
- The blocking tail of `recv_prioritized`, and messages that arrive between the four checks of one scan.
- Floating-point rounding in the percentile rank, in the backpressure ratio, in durations and in jitter; durations in between are exact reals.
- Wrap-around of 64-bit counters other than `i64` increments and `updated_at + ttl`.
- A histogram snapshot taken while samples are being recorded.
- The answers `get_current_state` would give, and the cluster wiring of the key-value example.
- Errors of storage while a configuration change is applied, and peer-to-peer connection details beyond whether the address parses.
