# Santa common containers and telemetry helpers, modelled in Dafny

This project models the core data structures of Santa, the macOS binary and
file-access authorization system, and proves properties about them:

- the two sharded, capacity-bounded caches of `Source/common/ConcurrentLRUMap.h`:
  - `ConcurrentLRUMap` (exact LRU: one global recency list plus per-bucket
    key maps);
  - `ImprovedConcurrentLRUMap` (approximate LRU: per-bucket entries with
    timestamps, a live-entry counter, and eviction of the oldest timestamp);
- the bounded FIFO `RingBuffer<T>`;
- the per-key capped value sets of `SantaSetCache`;
- the run-at-most-once cleanup object `Defer`;
- the watch-item policy value types (normalising constructor and equality
  operators);
- the `TelemetryEvent` 64-bit flag algebra;
- the row-batching telemetry `Writer` (Rust);
- the spool's `approx_file_occupation` block rounding (Rust).

Files, one module each:

| file | module | models |
|---|---|---|
| `wrappers.dfy` | `Wrappers` | `Option` and `Result` |
| `sharding.dfy` | `Sharding` | `Hash{}(key) % num_buckets_`, shared by both caches |
| `exact_lru.dfy` | `ExactLru` | `ConcurrentLRUMap` as a class over `seq<Node>` and one key set per bucket |
| `approx_lru.dfy` | `ApproxLru` | `ImprovedConcurrentLRUMap` as a class over one `map<K, CacheEntry>` per bucket and a counter |
| `ring_buffer.dfy` | `RingBuffers` | `RingBuffer<T>` and the "newest `capacity` elements" specification |
| `santa_set_cache.dfy` | `SantaSetCache` | `SantaSetCache` over a plain outer map |
| `defer.dfy` | `Defer` | `Defer<F>` as a class, and a world of many Defer objects |
| `watch_item_policy.dfy` | `WatchItemPolicy` | `WatchItemProcess`, `WatchItemPolicyBase`, `DataWatchItemPolicy`, `ProcessWatchItemPolicy` |
| `telemetry_event_map.dfy` | `TelemetryEventMap` | `TelemetryEvent` as `bv64` with its operators |
| `telemetry_writer.dfy` | `TelemetryWriter` | `Writer<T>`: `new`, `flush`, `autocomplete` |
| `spool.dfy` | `Spool` | `approx_file_occupation` |

## Modelling choices

- Both caches are modelled sequentially. Each public call is one atomic step.
  Mutexes, reader locks and the atomic counter are not modelled.
- The hash is a parameter `hash: K -> nat` fixed at construction, so a key
  always routes to bucket `hash(key) % numBuckets`.
- In `ConcurrentLRUMap`, a bucket maps a key to an iterator into `lru_list_`.
  The model keeps only each bucket's key set. The iterator for a key is the
  position of the unique node with that key, `IndexOf`.
- The invariant of `ConcurrentLRUMap` relates the list and the buckets both
  ways:
  - list keys are unique;
  - every node sits in the bucket its key hashes to, and its `bucketIndex`
    says so;
  - every bucket key has a node.
- Recency is given an independent definition: a ghost `lastUse` map and a
  logical `clock`, advanced by each `Put` and `Get`. The invariant says the
  list is ordered by strictly decreasing last use. From that, `EvictLRU` is
  proved to remove an entry whose last use is minimal.
- `EvictLRU` releases no lock, because the unlock and relock are commented
  out in the source. So the re-check of the back node always succeeds, and
  the model keeps the re-check as written.
- `ImprovedConcurrentLRUMap` takes the clock reading as a parameter `now`.
  The invariant holds three things:
  - the counter equals the sum of the bucket sizes (`TotalSize`);
  - the counter never exceeds the capacity;
  - every stored timestamp is below `UINT64_MAX`.
  That last fact is what makes the eviction scan, which starts at
  `UINT64_MAX`, always find a victim. Hence the unconditional decrement of
  the counter is always matched by an erase.
- `PerformEviction`'s iteration over a `flat_hash_map` has an unspecified
  order. The model picks the next key with `:|`. The victim is specified only
  as an entry with a minimal timestamp over all buckets.
- `Defer` runs an opaque callable. The model names each callable with a
  `Block` number, and a run is reported as the block returned. Over a world
  of many objects, with each construction given a fresh block, the log of
  runs has no repeats. A block that has not run and that no armed object
  holds stays that way, so a cancelled armed object's block never runs
  later, even when other objects are moved, executed or destroyed.
- The telemetry `Writer`'s collaborators are given as the outcome each call
  would produce:
  - the table builder's `flush`;
  - `autocomplete_row`;
  - the spool writer's `write_record_batch`.
  The writer records the calls it makes in `calls`.
- Policy equality is a virtual `operator==` dispatched on the left operand.
  `Policy` is a datatype with one constructor per dynamic type.
  `PolicyEquals(self, other)` dispatches on `self` the same way, so the
  asymmetry across kinds is reproduced and stated (`PolicyEqualsNotSymmetric`).

## Model

| member | source | states |
|---|---|---|
| `Sharding.BucketIndex` | Source/common/ConcurrentLRUMap.h:181-185 | the bucket of a key is below the number of buckets |
| `ExactLru.IndexOf` | Source/common/ConcurrentLRUMap.h:110-113 | the iterator a bucket stores for a present key points at the node holding that key |
| `ExactLru.MoveToFront` | Source/common/ConcurrentLRUMap.h:192-195 | `splice` to the front keeps the length, puts the chosen node first and keeps the others in order |
| `ExactLru.KeysOfMoveToFront` | Source/common/ConcurrentLRUMap.h:193-195 | moving a node to the front keeps the same nodes, the same key set and unique keys |
| `ExactLru.SetValueKeeps` | Source/common/ConcurrentLRUMap.h:68 | overwriting a node's value keeps the key set, unique keys and the recency order |
| `ExactLru.PushFrontKeys` | Source/common/ConcurrentLRUMap.h:85 | `emplace_front` of a new key adds exactly that key and keeps keys unique |
| `ExactLru.TouchKeepsOrder` | Source/common/ConcurrentLRUMap.h:192-195 | after a touch the moved key is the most recently used and the list stays ordered by last use |
| `ExactLru.PushFrontKeepsOrder` | Source/common/ConcurrentLRUMap.h:84-86 | a new key put at the front is the most recently used and the list stays ordered by last use |
| `ExactLru.BackIsLeastRecent` | Source/common/ConcurrentLRUMap.h:198-203 | in a list ordered by last use, the back node's key has a last use no greater than any node's |
| `ExactLru.ConcurrentLRUMap.constructor` | Source/common/ConcurrentLRUMap.h:35-45 | `num_shards` defaults to 16; with `size > 0`, `num_shards > 0` and `size >= num_shards` the cache is empty, with `num_shards` buckets, and satisfies the invariant |
| `ExactLru.ConcurrentLRUMap.GetBucketIndex` | Source/common/ConcurrentLRUMap.h:181-185 | the bucket index is below `num_buckets_` |
| `ExactLru.ConcurrentLRUMap.Touch` | Source/common/ConcurrentLRUMap.h:192-195 | the node moves to the front, the buckets do not change, the key becomes the most recently used, and the invariant holds |
| `ExactLru.ConcurrentLRUMap.EvictLRU` | Source/common/ConcurrentLRUMap.h:197-224 | on an empty list nothing changes; otherwise the back node leaves both the list and its bucket, its key is least recently used of all, and the invariant holds |
| `ExactLru.ConcurrentLRUMap.PopBackKeepsValid` | Source/common/ConcurrentLRUMap.h:220-223 | `pop_back` removes exactly the back key and keeps keys unique and the recency order |
| `ExactLru.ConcurrentLRUMap.InsertedFrontValid` | Source/common/ConcurrentLRUMap.h:84-96 | a new node in front of a non-full list, with its key added to its bucket, restores the invariant |
| `ExactLru.ConcurrentLRUMap.Put` | Source/common/ConcurrentLRUMap.h:57-99 | afterwards the key maps to the value and is at the front. An existing key is updated in place and moved to the front, size unchanged. A new key is pushed in front, after dropping the back node when the list was full; that node's key had the smallest last use of all. The key's last use becomes the current tick and the clock advances. The invariant (size at most the capacity) holds |
| `ExactLru.ConcurrentLRUMap.PushFront` | Source/common/ConcurrentLRUMap.h:84-96 | a new node goes to the front and its key into its bucket, its last use is the current tick, and the invariant holds |
| `ExactLru.ConcurrentLRUMap.Get` | Source/common/ConcurrentLRUMap.h:101-126 | returns the value stored under the key, or none when absent. A present key moves to the front, its last use becomes the current tick and the clock advances. An absent key changes nothing, recency included |
| `ExactLru.ConcurrentLRUMap.Contains` | Source/common/ConcurrentLRUMap.h:128-135 | true exactly when the key is in the cache, and the lookup in the key's own bucket agrees with a search of every bucket; changes nothing, including the order |
| `ExactLru.ConcurrentLRUMap.Size` | Source/common/ConcurrentLRUMap.h:137-140 | the number of nodes, never above the capacity |
| `ExactLru.ConcurrentLRUMap.Clear` | Source/common/ConcurrentLRUMap.h:142-154 | every bucket and the list are empty, and the invariant holds |
| `ApproxLru.TotalSizeUpdate` | Source/common/ConcurrentLRUMap.h:302-304 | replacing one bucket changes the total entry count by the change in that bucket's size |
| `ApproxLru.SomeEntry` | Source/common/ConcurrentLRUMap.h:394-403 | a positive total entry count means some bucket holds an entry, so the scan has something to find |
| `ApproxLru.TotalSizeOfEmpty` | Source/common/ConcurrentLRUMap.h:331-342 | with every bucket empty, the total entry count is zero |
| `ApproxLru.ImprovedConcurrentLRUMap.constructor` | Source/common/ConcurrentLRUMap.h:254-265 | `num_shards` defaults to 16; with `size > 0`, `num_shards > 0` and `size >= num_shards`, all buckets are empty, the counter is 0 and the invariant holds |
| `ApproxLru.ImprovedConcurrentLRUMap.GetBucketIndex` | Source/common/ConcurrentLRUMap.h:373-376 | the bucket index is below `num_buckets_` |
| `ApproxLru.ImprovedConcurrentLRUMap.PerformEviction` | Source/common/ConcurrentLRUMap.h:388-415 | the erased entry has the smallest timestamp over all buckets, exactly that entry is removed, and the counter drops by one and still equals the entry count |
| `ApproxLru.ImprovedConcurrentLRUMap.Put` | Source/common/ConcurrentLRUMap.h:273-306 | afterwards the key maps to the value with timestamp `now`. An existing entry is updated, counter unchanged. A new key is added, counter +1 below capacity. At capacity an oldest entry is evicted first and the counter is unchanged. The invariant holds |
| `ApproxLru.ImprovedConcurrentLRUMap.InsertNew` | Source/common/ConcurrentLRUMap.h:299-305 | `insert_or_assign` of a new key plus `fetch_add` adds exactly that entry and keeps counter and bucket sizes equal |
| `ApproxLru.ImprovedConcurrentLRUMap.Get` | Source/common/ConcurrentLRUMap.h:308-319 | returns the stored value and refreshes only that entry's timestamp to `now`; an absent key gives none and changes nothing |
| `ApproxLru.ImprovedConcurrentLRUMap.Contains` | Source/common/ConcurrentLRUMap.h:321-325 | true exactly when some bucket holds the key; timestamps are not touched |
| `ApproxLru.ImprovedConcurrentLRUMap.Size` | Source/common/ConcurrentLRUMap.h:327-329 | the counter equals the number of entries and is at most the capacity |
| `ApproxLru.ImprovedConcurrentLRUMap.Clear` | Source/common/ConcurrentLRUMap.h:331-342 | every bucket is empty, the counter is 0 and the invariant holds |
| `RingBuffers.Push` | Source/common/RingBuffer.h:39-47 | the appended element is last and the length stays between 1 and the capacity |
| `RingBuffers.PushAll` | Source/common/RingBuffer.h:39-57 | any sequence of enqueues keeps the length within the capacity |
| `RingBuffers.Newest` | Source/common/RingBuffer.h:39-47 | the reference contents: the last `capacity` elements, or all when there are fewer |
| `RingBuffers.PushIsNewest` | Source/common/RingBuffer.h:39-47 | one enqueue leaves exactly the newest `capacity` elements |
| `RingBuffers.NewestOfNewest` | Source/common/RingBuffer.h:39-47 | keeping the newest elements before appending more changes nothing in the end |
| `RingBuffers.PushAllKeepsNewest` | Source/common/RingBuffer.h:39-57 | after any sequence of enqueues the buffer holds exactly the newest `capacity` elements of all it was given, oldest first |
| `RingBuffers.RingBuffer.constructor` | Source/common/RingBuffer.h:28-30 | the buffer starts empty with the given capacity |
| `RingBuffers.RingBuffer.Capacity` | Source/common/RingBuffer.h:69 | the capacity given at construction, which is a constant |
| `RingBuffers.RingBuffer.Empty` | Source/common/RingBuffer.h:70 | true exactly when the buffer holds nothing |
| `RingBuffers.RingBuffer.Full` | Source/common/RingBuffer.h:71 | true exactly when the count equals the capacity |
| `RingBuffers.RingBuffer.Enqueue` | Source/common/RingBuffer.h:39-57 | reports a drop exactly when the buffer was full; the front is dropped only then; the value is appended; the count stays within the capacity |
| `RingBuffers.RingBuffer.Dequeue` | Source/common/RingBuffer.h:59-67 | on an empty buffer returns none and changes nothing; otherwise returns the oldest element and removes only it |
| `SantaSetCache.InsertCapped` | Source/common/SantaSetCache.h:73-94 | the value ends up in the set. A set already holding it is unchanged. Otherwise the value is added, after clearing a set already at capacity |
| `SantaSetCache.InsertCappedBound` | Source/common/SantaSetCache.h:85-90 | a set within the capacity stays within it after an insert (within 1 when the capacity is 0) |
| `SantaSetCache.SetCache.constructor` | Source/common/SantaSetCache.h:44-45 | no sets, with the given per-entry capacity |
| `SantaSetCache.SetCache.Contains` | Source/common/SantaSetCache.h:56-60 | true exactly when the key has a set holding the value; false when the key has no set |
| `SantaSetCache.SetCache.Set` | Source/common/SantaSetCache.h:69-97 | returns true exactly when the value was not in the key's set (the missing set counting as empty). Only that key's set changes, as InsertCapped says. It is unchanged when false. The capacity bound holds |
| `SantaSetCache.SetCache.Remove` | Source/common/SantaSetCache.h:100 | drops exactly the key's set |
| `SantaSetCache.SetCache.Clear` | Source/common/SantaSetCache.h:103 | drops every set |
| `SantaSetCache.SetCache.Size` | Source/common/SantaSetCache.h:111 | the number of keys with a set |
| `SantaSetCache.SetCache.SizeOf` | Source/common/SantaSetCache.h:114-121 | the size of the key's set, 0 when there is none |
| `Defer.Fire` | Source/common/Defer.h:29-33 | a block runs exactly when the object is armed, and it is the object's own block |
| `Defer.Defer.constructor` | Source/common/Defer.h:26-27 | armed with the given block |
| `Defer.Defer.Destroy` | Source/common/Defer.h:29-33 | runs the block exactly when `should_execute_` is still true |
| `Defer.Defer.Move` | Source/common/Defer.h:35-39 | takes over the other object's block and pending run; the other object is disarmed |
| `Defer.Defer.MoveAssign` | Source/common/Defer.h:41-52 | self-assignment runs nothing and changes nothing. Otherwise this object's pending block runs first, then it takes over the other's state, and the other is disarmed |
| `Defer.Defer.Cancel` | Source/common/Defer.h:58 | disarms the object, block unchanged |
| `Defer.Defer.Execute` | Source/common/Defer.h:61-66 | runs the block if armed and disarms it, so neither a later Execute nor the destructor runs it again |
| `Defer.AppendFresh` | Source/common/Defer.h:61-66 | logging a block not yet run keeps the run log free of repeats |
| `Defer.MovePreservesInv` | Source/common/Defer.h:35-51 | a move keeps armed blocks unrun and pairwise distinct |
| `Defer.StepPreservesInv` | Source/common/Defer.h:26-70 | every Defer operation preserves the world invariant |
| `Defer.RunPreservesInv` | Source/common/Defer.h:26-70 | any sequence of Defer operations preserves the world invariant |
| `Defer.EachBlockRunsAtMostOnce` | Source/common/Defer.h:26-70 | from no objects, any sequence of constructions, destructions, executes, cancels and moves runs each block at most once |
| `Defer.Step` | Source/common/Defer.h:26-66 | one operation on a world of Defer objects only appends to the run log, by at most one block, and never lowers the next fresh block |
| `Defer.StepAgreesWithDefer` | Source/common/Defer.h:26-66 | each world step does what the matching `Defer` member's contract says to the named objects (construction arms a fresh block; destruction, Execute and move assignment log `Fire` of the old slot; Cancel and the moves disarm the source) and leaves every other object alone |
| `Defer.StepKeepsDead` | Source/common/Defer.h:26-66 | a block that has not run and is held by no armed object stays so after any operation |
| `Defer.RunKeepsDead` | Source/common/Defer.h:26-66 | the same over any sequence of operations |
| `Defer.CancelledNeverRuns` | Source/common/Defer.h:58-66 | once an armed object is cancelled, its block is never run by any later sequence of operations |
| `WatchItemPolicy.ProcessEquals` | Source/santad/DataLayer/WatchItemPolicy.h:60-66 | the field-by-field comparison, with `platform_binary` compared by presence and `value_or(false)`, is exactly equality of processes |
| `WatchItemPolicy.ProcessNotEquals` | Source/santad/DataLayer/WatchItemPolicy.h:68 | `!=` holds exactly when the processes differ |
| `WatchItemPolicy.ProcessesEqual` | Source/santad/DataLayer/WatchItemPolicy.h:146 | vector comparison is exactly equality of the process lists |
| `WatchItemPolicy.MakePolicyBase` | Source/santad/DataLayer/WatchItemPolicy.h:79-97 | the flags are stored as given. An empty custom message is absent. The event-detail URL is absent only for nil (an empty one is kept). The event-detail text is absent for nil or empty |
| `WatchItemPolicy.MakeDefaultPolicyBase` | Source/santad/DataLayer/WatchItemPolicy.h:42-48 | defaults: no read access, audit only, allowed-processes rule type, not silent, no messages |
| `WatchItemPolicy.MakeDefaultDataPolicy` | Source/santad/DataLayer/WatchItemPolicy.h:124-136 | a data policy with literal path type and no processes over the default base |
| `WatchItemPolicy.BaseEquals` | Source/santad/DataLayer/WatchItemPolicy.h:101-107 | equal exactly when the policies agree once custom message, event-detail URL and text are ignored |
| `WatchItemPolicy.PolicyEquals` | Source/santad/DataLayer/WatchItemPolicy.h:138-147 | a data policy equals only a data policy with equal base fields, path type, path and processes; any other policy compares base fields only |
| `WatchItemPolicy.PolicyNotEquals` | Source/santad/DataLayer/WatchItemPolicy.h:149 | `!=` is the negation of `==`; differing base fields, or a data policy against another kind, always differ |
| `WatchItemPolicy.PolicyEqualsReflexive` | Source/santad/DataLayer/WatchItemPolicy.h:101-147 | every policy equals itself |
| `WatchItemPolicy.PolicyEqualsNotSymmetric` | Source/santad/DataLayer/WatchItemPolicy.h:138-147 | a process policy equals a data policy with the same base, but not the reverse |
| `WatchItemPolicy.MessagesIgnored` | Source/santad/DataLayer/WatchItemPolicy.h:101-107 | changing only the messages never affects equality |
| `TelemetryEventMap.Or` | Source/common/TelemetryEventMap.h:50-53 | the result includes both operands |
| `TelemetryEventMap.OrIsLeast` | Source/common/TelemetryEventMap.h:50-53 | any flag set including both operands includes their `\|` |
| `TelemetryEventMap.And` | Source/common/TelemetryEventMap.h:60-63 | both operands include the result |
| `TelemetryEventMap.AndIsMeet` | Source/common/TelemetryEventMap.h:60-63 | a flag set is included in the `&` exactly when both operands include it |
| `TelemetryEventMap.Not` | Source/common/TelemetryEventMap.h:70-72 | the complement shares no bit with the operand and together they make kEverything |
| `TelemetryEventMap.OrAssign` | Source/common/TelemetryEventMap.h:55-58 | the stored and the returned value are both the `\|` of the operands |
| `TelemetryEventMap.AndAssign` | Source/common/TelemetryEventMap.h:65-68 | the stored and the returned value are both the `&` of the operands |
| `TelemetryEventMap.SingleEventIsBit` | Source/common/TelemetryEventMap.h:26-45 | each of kExecution through kCopyfile has exactly one bit set |
| `TelemetryEventMap.SingleEventsIncreasing` | Source/common/TelemetryEventMap.h:26-45 | the enumerators grow strictly with their position |
| `TelemetryEventMap.SingleBitsDisjoint` | Source/common/TelemetryEventMap.h:26-45 | two different single-bit values share no bit |
| `TelemetryEventMap.SingleEventsDisjoint` | Source/common/TelemetryEventMap.h:26-45 | distinct enumerators are distinct values and share no bit |
| `TelemetryEventMap.Identities` | Source/common/TelemetryEventMap.h:25-63 | kNone is the identity of `\|` and absorbing for `&`; kEverything is the identity of `&` and absorbing for `\|` |
| `TelemetryEventMap.ComplementLaws` | Source/common/TelemetryEventMap.h:70-72 | `~` swaps kNone and kEverything, is an involution, and complements every value |
| `TelemetryWriter.Writer.constructor` | Source/santad/rust/telemetry/writer.rs:34-41 | no rows buffered, the given batch size, no calls made |
| `TelemetryWriter.Writer.Flush` | Source/santad/rust/telemetry/writer.rs:47-55 | with no rows buffered: Ok, no calls made. If the builder's flush fails, that error is returned and the row count is unchanged. Otherwise exactly one batch is written, the count is reset before the spool write, and the spool's outcome is returned |
| `TelemetryWriter.Writer.Autocomplete` | Source/santad/rust/telemetry/writer.rs:59-75 | a failed row completion leaves the count unchanged. A completed row adds one. Reaching the batch size flushes as Flush says. After success the count is below a batch size of at least 1 |
| `Spool.ApproxFileOccupation` | Source/santad/rust/spool/mod.rs:31-34 | the result is a multiple of 4096, at least the file size and less than the file size plus 4096 |
| `Spool.OccupationIsLeast` | Source/santad/rust/spool/mod.rs:33 | no smaller multiple of 4096 covers the file |
| `Spool.OccupationOfMultiple` | Source/santad/rust/spool/mod.rs:33 | exact multiples of 4096, 0 included, map to themselves |
| `Spool.OccupationIdempotent` | Source/santad/rust/spool/mod.rs:33 | rounding twice is rounding once, for sizes whose rounding fits in `usize` |
| `Spool.OccupationMonotone` | Source/santad/rust/spool/mod.rs:31-34 | a larger file never occupies less |
| `Spool.OccupationFits` | Source/santad/rust/spool/mod.rs:33 | the result fits in a 64-bit `usize` exactly when the size is at most `usize::MAX - 4095` |

## Left out

- Mutexes, reader/writer locks and atomics in `ConcurrentLRUMap.h`: each public call is one atomic step. Lock ordering and deadlock freedom are not modelled.
- The racy timestamp write in `ImprovedConcurrentLRUMap::Get` under a reader lock: the model simply updates the timestamp.
- Interleavings between the two bucket-lock sections of `ImprovedConcurrentLRUMap::Put`, such as a double count through `insert_or_assign`: these arise only concurrently.
- `GetCurrentTimestamp` and `system_clock`: the clock reading is the parameter `now`.
- ApproxLru.ImprovedConcurrentLRUMap.Put: requires `now < UINT64_MAX`, and Get does too. A stored timestamp of `UINT64_MAX` would let the eviction scan find nothing and erase a default-constructed key, which a millisecond clock never reaches.
- ApproxLru.ImprovedConcurrentLRUMap.Get: requires `now < UINT64_MAX`, for the same reason as `Put`: it stores `now` as the entry's timestamp.
- ApproxLru.ImprovedConcurrentLRUMap.PerformEviction: ties among oldest entries are broken by `flat_hash_map` iteration order. The model promises only some entry with a minimal timestamp.
- `NSStringHash` and `NSStringEqual`: the hash is an abstract function of the key and key equality is Dafny equality.
- `ConcurrentLRUMap`'s destructor calls `Clear`. Object lifetime is not modelled; `Clear` is.
- The deleted copy and move operations of both caches and `RingBuffer`'s defaulted moves: no behaviour to model.
- The outer `SantaCache` behind `SantaSetCache` (its capacity and clear-on-overflow): `SantaCache` is not part of this model. The outer cache is a plain map that never evicts.
- `SantaSetCache::UnsafeGet`: it returns a shared pointer that other threads may mutate, and only aliasing distinguishes it from a read of the set.
- RingBuffers.RingBuffer.Enqueue: requires a capacity of at least 1. With capacity 0 the source erases the first element of an empty vector, which is undefined behaviour. The copy and the move overloads of `Enqueue` behave identically and are modelled by one method.
- Spool.ApproxFileOccupation: the result is an unbounded integer. For sizes above `usize::MAX - 4095` the source's multiplication overflows, and `OccupationFits` states exactly where.
- `approx_dir_occupation`, `spool_path` and `tmp_path`: filesystem I/O and path joins.
- `TableBuilder`, `autocomplete_row`, the spool writer and the parquet bridge: foreign code, given as the outcomes of the calls.
- `Writer::table_builder` and `Writer::path`: accessors only.
- TelemetryWriter.Writer.Autocomplete: `buffered_rows` is an unbounded integer; the `usize` overflow of `+= 1` is not modelled. The test-only row-count assertions are not modelled.
- `Timer.h`: dispatch timer sources and floating-point intervals.
- `TelemetryConfigToBitmask` and `ESEventToTelemetryEvent`: declared without bodies.
- `ProcessWatchItemPolicy`'s prefix tree of paths, which takes no part in equality.
- Integer widths: `size_t` quantities (capacities, sizes, bucket indices) are unbounded naturals. None of the modelled operations can overflow them under the invariants, apart from the cases listed above.
- Headers with declarations only, GUI code, and OS or compile-time wrappers (file descriptors, logging macros, audit-token helpers, access-control keys, no-op writer defaults): no modelled behaviour.
