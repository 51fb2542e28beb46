/**
 * ImprovedConcurrentLRUMap (Source/common/ConcurrentLRUMap.h:249-415): a
 * sharded key-value cache with approximate LRU eviction. Each bucket maps its
 * keys to an entry holding the value and the time of the last Put or Get; a
 * counter tracks the number of entries, and a new key arriving at capacity
 * first evicts an entry with the oldest timestamp over all buckets.
 *
 * Each public call is one atomic step: the bucket locks and the atomic
 * counter are not modelled. The clock is a parameter (`now`, milliseconds
 * as a `uint64`).
 */
module ApproxLru {
  import opened Wrappers
  import opened Sharding

  /** `std::numeric_limits<uint64_t>::max()`, where the eviction scan starts. */
  const U64Max: nat := 0xFFFF_FFFF_FFFF_FFFF

  /** `CacheEntry`. */
  datatype CacheEntry<V> = CacheEntry(value: V, timestamp: nat, bucketIndex: nat)

  /** The number of entries over all buckets. */
  function TotalSize<K, E>(bs: seq<map<K, E>>): nat {
    if bs == [] then 0 else |bs[0]| + TotalSize(bs[1..])
  }

  /** Replacing one bucket changes the total by the difference in its size. */
  lemma {:induction false} TotalSizeUpdate<K, E>(bs: seq<map<K, E>>, i: nat, m: map<K, E>)
    requires i < |bs|
    ensures TotalSize(bs[i := m]) + |bs[i]| == TotalSize(bs) + |m|
  {
    if i == 0 {
      assert bs[i := m][1..] == bs[1..];
    } else {
      assert bs[i := m][1..] == bs[1..][i - 1 := m];
      TotalSizeUpdate(bs[1..], i - 1, m);
    }
  }

  /** A positive total means some bucket holds an entry. */
  lemma {:induction false} SomeEntry<K, E>(bs: seq<map<K, E>>) returns (b: nat, k: K)
    requires TotalSize(bs) > 0
    ensures b < |bs| && k in bs[b]
  {
    if |bs[0]| > 0 {
      assert bs[0].Keys != {};
      b, k :| b == 0 && k in bs[0];
    } else {
      var b', k' := SomeEntry(bs[1..]);
      b, k := b' + 1, k';
    }
  }

  /** All buckets empty: the total is zero. */
  lemma {:induction false} TotalSizeOfEmpty<K, E>(bs: seq<map<K, E>>)
    requires forall b | 0 <= b < |bs| :: bs[b] == map[]
    ensures TotalSize(bs) == 0
  {
    if bs != [] {
      TotalSizeOfEmpty(bs[1..]);
    }
  }

  /** The entry under `k` in bucket `b` has a timestamp no later than any other entry. */
  ghost predicate IsOldest<K, V>(bs: seq<map<K, CacheEntry<V>>>, b: nat, k: K) {
    && b < |bs| && k in bs[b]
    && forall b', k' | 0 <= b' < |bs| && k' in bs[b'] :: bs[b][k].timestamp <= bs[b'][k'].timestamp
  }

  /** `cache_map.erase(k)` on bucket `b`. */
  function Erase<K, V>(bs: seq<map<K, CacheEntry<V>>>, b: nat, k: K): seq<map<K, CacheEntry<V>>>
    requires b < |bs|
  {
    bs[b := bs[b] - {k}]
  }

  class ImprovedConcurrentLRUMap<K(==, 0), V> {
    const totalCapacity: nat
    const numBuckets: nat
    const hash: K -> nat

    /** `total_entries_`. */
    var totalEntries: nat
    /** Each bucket's `cache_map`. */
    var buckets: seq<map<K, CacheEntry<V>>>

    ghost predicate Valid()
      reads this
    {
      && 0 < numBuckets <= totalCapacity
      && |buckets| == numBuckets
      && totalEntries == TotalSize(buckets)
      && totalEntries <= totalCapacity
      && (forall b, k | 0 <= b < |buckets| && k in buckets[b] :: b == BucketIndex(hash, k, numBuckets))
      && (forall b, k | 0 <= b < |buckets| && k in buckets[b] ::
            buckets[b][k].bucketIndex == b && buckets[b][k].timestamp < U64Max)
    }

    /**
     * `ImprovedConcurrentLRUMap(size, num_shards = 16)`: the asserted
     * configuration, all buckets empty. The hash comes before the shard
     * count so that the count keeps its default.
     */
    constructor (size: nat, hash: K -> nat, numShards: nat := 16)
      requires size > 0 && numShards > 0 && size >= numShards
      ensures Valid()
      ensures totalCapacity == size && numBuckets == numShards && this.hash == hash
      ensures totalEntries == 0 && |buckets| == numShards
      ensures forall b | 0 <= b < |buckets| :: buckets[b] == map[]
    {
      totalCapacity := size;
      numBuckets := numShards;
      this.hash := hash;
      totalEntries := 0;
      buckets := seq(numShards, _ => map[]);
      new;
      TotalSizeOfEmpty(buckets);
    }

    function GetBucketIndex(key: K): (i: nat)
      requires 0 < numBuckets
      ensures i < numBuckets
    {
      BucketIndex(hash, key, numBuckets)
    }

    /**
     * `PerformEviction`: scan every bucket for the entry with the smallest
     * timestamp, erase it and decrement the counter. The decrement does not
     * depend on the erase; under the invariant the erase always hits.
     */
    method PerformEviction(hintBucket: nat) returns (ghost victimBucket: nat, ghost victimKey: K)
      requires Valid() && totalEntries >= totalCapacity && hintBucket < numBuckets
      modifies this
      ensures IsOldest(old(buckets), victimBucket, victimKey)
      ensures buckets == Erase(old(buckets), victimBucket, victimKey)
      ensures totalEntries == old(totalEntries) - 1
      ensures totalEntries == TotalSize(buckets)
    {
      var oldestBucket: nat := hintBucket;
      var oldestTimestamp: nat := U64Max;
      var keyToRemove: K := *;

      for i := 0 to numBuckets
        invariant buckets == old(buckets) && |buckets| == numBuckets && totalEntries == old(totalEntries)
        invariant oldestBucket < numBuckets
        invariant oldestTimestamp < U64Max ==>
                    oldestBucket < i && keyToRemove in buckets[oldestBucket]
                    && buckets[oldestBucket][keyToRemove].timestamp == oldestTimestamp
        invariant forall b, k | 0 <= b < i && k in buckets[b] :: oldestTimestamp <= buckets[b][k].timestamp
      {
        var remaining := buckets[i].Keys;
        while remaining != {}
          invariant buckets == old(buckets) && |buckets| == numBuckets && totalEntries == old(totalEntries)
          invariant remaining <= buckets[i].Keys
          invariant oldestBucket < numBuckets
          invariant oldestTimestamp < U64Max ==>
                      oldestBucket <= i && keyToRemove in buckets[oldestBucket]
                      && buckets[oldestBucket][keyToRemove].timestamp == oldestTimestamp
          invariant forall b, k | 0 <= b < i && k in buckets[b] :: oldestTimestamp <= buckets[b][k].timestamp
          invariant forall k | k in buckets[i] && k !in remaining :: oldestTimestamp <= buckets[i][k].timestamp
          decreases remaining
        {
          var k :| k in remaining;
          var entry := buckets[i][k];
          if entry.timestamp < oldestTimestamp {
            oldestTimestamp := entry.timestamp;
            oldestBucket := i;
            keyToRemove := k;
          }
          remaining := remaining - {k};
        }
      }

      var b, k := SomeEntry(buckets);
      assert oldestTimestamp < U64Max by {
        assert oldestTimestamp <= buckets[b][k].timestamp;
      }
      victimBucket, victimKey := oldestBucket, keyToRemove;
      TotalSizeUpdate(buckets, oldestBucket, buckets[oldestBucket] - {keyToRemove});
      assert (buckets[oldestBucket] - {keyToRemove}).Keys == buckets[oldestBucket].Keys - {keyToRemove};
      buckets := buckets[oldestBucket := buckets[oldestBucket] - {keyToRemove}];
      totalEntries := totalEntries - 1;
    }

    /**
     * `Put`: an existing key gets the new value and a fresh timestamp; a new
     * key is inserted after one eviction when the counter has reached the
     * capacity.
     */
    method Put(key: K, value: V, now: nat)
      requires Valid() && now < U64Max
      modifies this
      ensures Valid()
      ensures var b := GetBucketIndex(key);
              key in buckets[b] && buckets[b][key] == CacheEntry(value, now, b)
      ensures var b := GetBucketIndex(key);
              key in old(buckets)[b] ==>
                buckets == old(buckets)[b := old(buckets)[b][key := CacheEntry(value, now, b)]]
                && totalEntries == old(totalEntries)
      ensures var b := GetBucketIndex(key);
              key !in old(buckets)[b] && old(totalEntries) < totalCapacity ==>
                buckets == old(buckets)[b := old(buckets)[b][key := CacheEntry(value, now, b)]]
                && totalEntries == old(totalEntries) + 1
      ensures var b := GetBucketIndex(key);
              key !in old(buckets)[b] && old(totalEntries) >= totalCapacity ==>
                totalEntries == old(totalEntries)
                && exists vb, vk :: IsOldest(old(buckets), vb, vk)
                     && var rest := Erase(old(buckets), vb, vk);
                        buckets == rest[b := rest[b][key := CacheEntry(value, now, b)]]
    {
      var bucketIdx := GetBucketIndex(key);
      if key in buckets[bucketIdx] {
        buckets := buckets[bucketIdx := buckets[bucketIdx][key := CacheEntry(value, now, bucketIdx)]];
        TotalSizeUpdate(old(buckets), bucketIdx, buckets[bucketIdx]);
        return;
      }
      var needEviction := totalEntries >= totalCapacity;
      if needEviction {
        ghost var vb, vk := PerformEviction(bucketIdx);
      }
      InsertNew(key, value, now);
    }

    /** The insertion half of `Put`: `insert_or_assign` of a new key, then the increment. */
    method InsertNew(key: K, value: V, now: nat)
      requires 0 < numBuckets <= totalCapacity && |buckets| == numBuckets
      requires totalEntries == TotalSize(buckets) && totalEntries < totalCapacity
      requires forall b, k | 0 <= b < |buckets| && k in buckets[b] :: b == BucketIndex(hash, k, numBuckets)
      requires forall b, k | 0 <= b < |buckets| && k in buckets[b] ::
                 buckets[b][k].bucketIndex == b && buckets[b][k].timestamp < U64Max
      requires now < U64Max && key !in buckets[GetBucketIndex(key)]
      modifies this
      ensures Valid()
      ensures var b := GetBucketIndex(key);
              buckets == old(buckets)[b := old(buckets)[b][key := CacheEntry(value, now, b)]]
      ensures totalEntries == old(totalEntries) + 1
    {
      var bucketIdx := GetBucketIndex(key);
      var m := buckets[bucketIdx][key := CacheEntry(value, now, bucketIdx)];
      assert m.Keys == buckets[bucketIdx].Keys + {key};
      TotalSizeUpdate(buckets, bucketIdx, m);
      buckets := buckets[bucketIdx := m];
      totalEntries := totalEntries + 1;
    }

    /** `Get`: the value under `key`, refreshing its timestamp; none when absent. */
    method Get(key: K, now: nat) returns (r: Option<V>)
      requires Valid() && now < U64Max
      modifies this
      ensures Valid()
      ensures var b := GetBucketIndex(key);
              && (key in old(buckets)[b] ==>
                    r == Some(old(buckets)[b][key].value)
                    && buckets == old(buckets)[b := old(buckets)[b][key := old(buckets)[b][key].(timestamp := now)]])
              && (key !in old(buckets)[b] ==> r == None && buckets == old(buckets))
      ensures totalEntries == old(totalEntries)
    {
      var bucketIdx := GetBucketIndex(key);
      if key in buckets[bucketIdx] {
        var entry := buckets[bucketIdx][key];
        buckets := buckets[bucketIdx := buckets[bucketIdx][key := entry.(timestamp := now)]];
        TotalSizeUpdate(old(buckets), bucketIdx, buckets[bucketIdx]);
        return Some(entry.value);
      }
      return None;
    }

    /** `Contains`: a bucket lookup that leaves the timestamps alone. */
    method Contains(key: K) returns (r: bool)
      requires Valid()
      ensures r <==> exists b | 0 <= b < |buckets| :: key in buckets[b]
    {
      r := key in buckets[GetBucketIndex(key)];
    }

    /** `Size`: the counter, which equals the number of entries and never exceeds the capacity. */
    method Size() returns (n: nat)
      requires Valid()
      ensures n == TotalSize(buckets) && n <= totalCapacity
    {
      n := totalEntries;
    }

    /** `Clear`: empty every bucket, then reset the counter. */
    method Clear()
      requires Valid()
      modifies this
      ensures Valid()
      ensures totalEntries == 0 && |buckets| == old(|buckets|)
      ensures forall b | 0 <= b < |buckets| :: buckets[b] == map[]
    {
      for i := 0 to |buckets|
        invariant |buckets| == numBuckets
        invariant forall b | 0 <= b < i :: buckets[b] == map[]
      {
        buckets := buckets[i := map[]];
      }
      TotalSizeOfEmpty(buckets);
      totalEntries := 0;
    }
  }
}
