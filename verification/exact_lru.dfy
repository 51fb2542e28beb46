/**
 * ConcurrentLRUMap (Source/common/ConcurrentLRUMap.h:31-225): a sharded
 * key-value cache with exact LRU eviction. One global recency list holds a
 * node per entry, most recently used first; each bucket maps the keys routed
 * to it to their node in that list.
 *
 * Each public call is one atomic step: the bucket mutexes and the LRU mutex
 * are not modelled.
 */
module ExactLru {
  import opened Wrappers
  import opened Sharding

  /** A node of `lru_list_`. */
  datatype Node<K, V> = Node(key: K, value: V, bucketIndex: nat)

  /** The keys of a recency list. */
  ghost function Keys<K, V>(list: seq<Node<K, V>>): set<K> {
    set n | n in list :: n.key
  }

  ghost predicate UniqueKeys<K, V>(list: seq<Node<K, V>>) {
    forall i, j | 0 <= i < j < |list| :: list[i].key != list[j].key
  }

  /**
   * The position of the node with key `k`: the list iterator that a
   * bucket's `cache_map` stores for `k`.
   */
  function IndexOf<K(==), V>(list: seq<Node<K, V>>, k: K): (i: nat)
    requires exists n :: n in list && n.key == k
    ensures i < |list| && list[i].key == k
  {
    if list[0].key == k then 0 else IndexOf(list[1..], k) + 1
  }

  /** The value stored under `k`, if any. */
  ghost function Find<K, V>(list: seq<Node<K, V>>, k: K): Option<V> {
    if k in Keys(list) then Some(list[IndexOf(list, k)].value) else None
  }

  /** `splice(begin(), list, it)`: the node at `i` moves to the front, the rest keep their order. */
  function MoveToFront<K, V>(list: seq<Node<K, V>>, i: nat): (r: seq<Node<K, V>>)
    requires i < |list|
    ensures |r| == |list| && r[0] == list[i]
    ensures r[1..] == list[..i] + list[i + 1..]
  {
    [list[i]] + list[..i] + list[i + 1..]
  }

  /**
   * Recency bookkeeping: `lastUse[k]` is the tick of the last Put or Get of
   * `k`. The list is ordered by strictly decreasing last use.
   */
  ghost predicate RecencyOrdered<K, V>(list: seq<Node<K, V>>, lastUse: map<K, nat>, clock: nat) {
    && (forall i | 0 <= i < |list| :: list[i].key in lastUse && lastUse[list[i].key] < clock)
    && (forall i, j | 0 <= i < j < |list| :: lastUse[list[i].key] > lastUse[list[j].key])
  }

  lemma KeysOfMoveToFront<K, V>(list: seq<Node<K, V>>, i: nat)
    requires i < |list|
    ensures forall n :: n in MoveToFront(list, i) <==> n in list
    ensures Keys(MoveToFront(list, i)) == Keys(list)
    ensures UniqueKeys(list) ==> UniqueKeys(MoveToFront(list, i))
  {
    var r := MoveToFront(list, i);
    assert forall n :: n in r <==> n in list by {
      assert list == list[..i] + [list[i]] + list[i + 1..];
    }
    if UniqueKeys(list) {
      forall a, b | 0 <= a < b < |r| ensures r[a].key != r[b].key {
        var a' := if a == 0 then i else if a - 1 < i then a - 1 else a;
        var b' := if b - 1 < i then b - 1 else b;
        assert r[a] == list[a'] && r[b] == list[b'] && a' != b';
      }
    }
  }

  /** Replacing a node's value keeps keys, bucket indices and the recency order. */
  lemma SetValueKeeps<K, V>(list: seq<Node<K, V>>, i: nat, v: V, lastUse: map<K, nat>, clock: nat)
    requires i < |list|
    ensures var r := list[i := list[i].(value := v)];
            && Keys(r) == Keys(list)
            && (forall n | n in r :: n == list[i].(value := v) || n in list)
            && (UniqueKeys(list) ==> UniqueKeys(r))
            && (RecencyOrdered(list, lastUse, clock) ==> RecencyOrdered(r, lastUse, clock))
  {
    var r := list[i := list[i].(value := v)];
    assert forall j | 0 <= j < |r| :: r[j].key == list[j].key;
    forall k ensures k in Keys(r) <==> k in Keys(list) {
      if k in Keys(r) {
        var n :| n in r && n.key == k;
        var j :| 0 <= j < |r| && r[j] == n;
        assert list[j] in list;
      }
      if k in Keys(list) {
        var n :| n in list && n.key == k;
        var j :| 0 <= j < |list| && list[j] == n;
        assert r[j] in r;
      }
    }
  }

  /** Putting a node with a new key in front adds exactly that key. */
  lemma PushFrontKeys<K, V>(list: seq<Node<K, V>>, n: Node<K, V>)
    requires UniqueKeys(list) && n.key !in Keys(list)
    ensures Keys([n] + list) == Keys(list) + {n.key}
    ensures UniqueKeys([n] + list)
  {
    var r := [n] + list;
    assert forall m :: m in r <==> m == n || m in list;
    forall a, b | 0 <= a < b < |r| ensures r[a].key != r[b].key {
      assert r[b] == list[b - 1] && r[b] in list;
      if a > 0 {
        assert r[a] == list[a - 1];
      }
    }
  }

  /** A Put or Get of the node at `i` makes it the most recently used, and the order stays consistent. */
  lemma TouchKeepsOrder<K, V>(list: seq<Node<K, V>>, i: nat, lastUse: map<K, nat>, clock: nat)
    requires i < |list| && UniqueKeys(list) && RecencyOrdered(list, lastUse, clock)
    ensures RecencyOrdered(MoveToFront(list, i), lastUse[list[i].key := clock], clock + 1)
  {
    var r := MoveToFront(list, i);
    var lu := lastUse[list[i].key := clock];
    forall a | 0 <= a < |r| ensures r[a].key in lu && lu[r[a].key] < clock + 1 {
      var a' := if a == 0 then i else if a - 1 < i then a - 1 else a;
      assert r[a] == list[a'];
    }
    forall a, b | 0 <= a < b < |r| ensures lu[r[a].key] > lu[r[b].key] {
      var a' := if a == 0 then i else if a - 1 < i then a - 1 else a;
      var b' := if b - 1 < i then b - 1 else b;
      assert r[a] == list[a'] && r[b] == list[b'] && b' != i;
      if a != 0 {
        assert a' < b' && a' != i;
      }
    }
  }

  /** Inserting a new key at the front keeps the order consistent. */
  lemma PushFrontKeepsOrder<K, V>(list: seq<Node<K, V>>, n: Node<K, V>, lastUse: map<K, nat>, clock: nat)
    requires n.key !in Keys(list) && RecencyOrdered(list, lastUse, clock)
    ensures RecencyOrdered([n] + list, lastUse[n.key := clock], clock + 1)
  {
    var r := [n] + list;
    forall a | 1 <= a < |r| ensures r[a].key != n.key {
      assert r[a] == list[a - 1] && r[a] in list;
    }
  }

  /** Of the live entries, the back of an ordered list is the least recently used. */
  lemma BackIsLeastRecent<K, V>(list: seq<Node<K, V>>, lastUse: map<K, nat>, clock: nat)
    requires list != [] && RecencyOrdered(list, lastUse, clock)
    ensures forall j | 0 <= j < |list| :: lastUse[list[|list| - 1].key] <= lastUse[list[j].key]
  {
    forall j | 0 <= j < |list| - 1 ensures lastUse[list[|list| - 1].key] <= lastUse[list[j].key] {
      assert lastUse[list[j].key] > lastUse[list[|list| - 1].key];
    }
  }

  class ConcurrentLRUMap<K(==), V> {
    const totalCapacity: nat
    const numBuckets: nat
    const hash: K -> nat

    /** `lru_list_`, most recently used first. */
    var lruList: seq<Node<K, V>>
    /** The key set of each bucket's `cache_map`; a key's iterator is its node in `lruList`. */
    var buckets: seq<set<K>>

    /** When each key was last put or got, on a logical clock. */
    ghost var lastUse: map<K, nat>
    ghost var clock: nat

    ghost predicate Valid()
      reads this
    {
      && 0 < numBuckets <= totalCapacity
      && |buckets| == numBuckets
      && |lruList| <= totalCapacity
      && UniqueKeys(lruList)
      && (forall n | n in lruList ::
            n.bucketIndex == BucketIndex(hash, n.key, numBuckets) && n.key in buckets[n.bucketIndex])
      && (forall b, k | 0 <= b < |buckets| && k in buckets[b] ::
            k in Keys(lruList) && b == BucketIndex(hash, k, numBuckets))
      && RecencyOrdered(lruList, lastUse, clock)
    }

    /** The cache as a map from key to value. */
    ghost function Contents(): map<K, V>
      reads this
    {
      map k | k in Keys(lruList) :: Find(lruList, k).value
    }

    /**
     * `ConcurrentLRUMap(size, num_shards = 16)`: the asserted configuration,
     * all buckets empty. The hash is a parameter and comes first so that the
     * shard count keeps its default.
     */
    constructor (size: nat, hash: K -> nat, numShards: nat := 16)
      requires size > 0 && numShards > 0 && size >= numShards
      ensures Valid()
      ensures totalCapacity == size && numBuckets == numShards && this.hash == hash
      ensures lruList == [] && |buckets| == numShards
    {
      totalCapacity := size;
      numBuckets := numShards;
      this.hash := hash;
      lruList := [];
      buckets := seq(numShards, _ => {});
      lastUse := map[];
      clock := 0;
    }

    function GetBucketIndex(key: K): (i: nat)
      requires 0 < numBuckets
      ensures i < numBuckets
    {
      BucketIndex(hash, key, numBuckets)
    }

    /** `Touch`: move the node at `i` to the front and record the access. */
    method Touch(i: nat)
      requires Valid() && i < |lruList|
      modifies this
      ensures Valid()
      ensures lruList == MoveToFront(old(lruList), i)
      ensures UniqueKeys(lruList) && Keys(lruList) == Keys(old(lruList))
      ensures lastUse == old(lastUse)[old(lruList)[i].key := old(clock)] && clock == old(clock) + 1
      ensures RecencyOrdered(lruList, lastUse, clock)
      ensures buckets == old(buckets)
    {
      KeysOfMoveToFront(lruList, i);
      TouchKeepsOrder(lruList, i, lastUse, clock);
      lastUse := lastUse[lruList[i].key := clock];
      clock := clock + 1;
      lruList := [lruList[i]] + lruList[..i] + lruList[i + 1..];
    }

    /**
     * `EvictLRU`: drop the back node from its bucket and from the list. The
     * unlock/relock around the bucket erase is commented out in the source, so
     * the re-check of the back node always succeeds.
     */
    method EvictLRU()
      requires Valid()
      modifies this
      ensures Valid()
      ensures old(lruList) == [] ==> lruList == [] && buckets == old(buckets)
      ensures old(lruList) != [] ==> lruList == old(lruList)[..|old(lruList)| - 1]
      ensures old(lruList) != [] ==>
                var victim := old(lruList)[|old(lruList)| - 1];
                buckets == old(buckets)[victim.bucketIndex := old(buckets)[victim.bucketIndex] - {victim.key}]
                && forall j | 0 <= j < |old(lruList)| ::
                     old(lastUse)[victim.key] <= old(lastUse)[old(lruList)[j].key]
      ensures lastUse == old(lastUse) && clock == old(clock)
      ensures Keys(lruList) <= old(Keys(lruList))
    {
      if |lruList| == 0 {
        return;
      }
      var lruNode := lruList[|lruList| - 1];
      var bucketIdx := lruNode.bucketIndex;
      var keyToRemove := lruNode.key;
      BackIsLeastRecent(lruList, lastUse, clock);

      buckets := buckets[bucketIdx := buckets[bucketIdx] - {keyToRemove}];

      if |lruList| > 0 && lruList[|lruList| - 1].key == keyToRemove
         && lruList[|lruList| - 1].bucketIndex == bucketIdx {
        lruList := lruList[..|lruList| - 1];
      }
      PopBackKeepsValid(old(lruList));
    }

    lemma PopBackKeepsValid(list: seq<Node<K, V>>)
      requires list != [] && lruList == list[..|list| - 1]
      requires UniqueKeys(list) && RecencyOrdered(list, lastUse, clock)
      ensures UniqueKeys(lruList) && RecencyOrdered(lruList, lastUse, clock)
      ensures Keys(lruList) == Keys(list) - {list[|list| - 1].key}
    {
      assert list == lruList + [list[|list| - 1]];
      forall k ensures k in Keys(lruList) <==> k in Keys(list) && k != list[|list| - 1].key {
        if k in Keys(lruList) {
          var n :| n in lruList && n.key == k;
          var i :| 0 <= i < |lruList| && lruList[i] == n;
          assert list[i] == n;
        }
      }
    }

    /** The state right after a new node went to the front of a valid, non-full cache and into its bucket. */
    lemma InsertedFrontValid(before: seq<Node<K, V>>, beforeBuckets: seq<set<K>>)
      requires 0 < numBuckets <= totalCapacity && |beforeBuckets| == numBuckets && |before| < totalCapacity
      requires lruList != [] && lruList[1..] == before
      requires lruList[0].bucketIndex == BucketIndex(hash, lruList[0].key, numBuckets)
      requires lruList[0].key !in Keys(before)
      requires buckets == beforeBuckets[lruList[0].bucketIndex := beforeBuckets[lruList[0].bucketIndex] + {lruList[0].key}]
      requires forall n | n in before ::
                 n.bucketIndex == BucketIndex(hash, n.key, numBuckets) && n.key in beforeBuckets[n.bucketIndex]
      requires forall b, k | 0 <= b < |beforeBuckets| && k in beforeBuckets[b] ::
                 k in Keys(before) && b == BucketIndex(hash, k, numBuckets)
      requires Keys(lruList) == Keys(before) + {lruList[0].key}
      requires UniqueKeys(lruList) && RecencyOrdered(lruList, lastUse, clock)
      ensures Valid()
    {
      assert lruList == [lruList[0]] + before;
    }

    /**
     * `Put`: an existing key gets the new value and moves to the front, the
     * size unchanged; a new key goes to the front, after evicting the least
     * recently used entry when the cache is full.
     */
    method Put(key: K, value: V)
      requires Valid()
      modifies this
      ensures Valid()
      ensures Find(lruList, key) == Some(value)
      ensures lruList[0] == Node(key, value, GetBucketIndex(key))
      ensures key in old(Keys(lruList)) ==>
                var i := IndexOf(old(lruList), key);
                lruList == MoveToFront(old(lruList)[i := Node(key, value, GetBucketIndex(key))], i)
      ensures key !in old(Keys(lruList)) && |old(lruList)| < totalCapacity ==>
                lruList == [Node(key, value, GetBucketIndex(key))] + old(lruList)
      ensures key !in old(Keys(lruList)) && |old(lruList)| >= totalCapacity ==>
                lruList == [Node(key, value, GetBucketIndex(key))] + old(lruList)[..|old(lruList)| - 1]
      ensures key !in old(Keys(lruList)) && |old(lruList)| >= totalCapacity ==>
                var victim := old(lruList)[|old(lruList)| - 1];
                forall j | 0 <= j < |old(lruList)| :: old(lastUse)[victim.key] <= old(lastUse)[old(lruList)[j].key]
      ensures key in old(Keys(lruList)) ==> |lruList| == |old(lruList)|
      ensures lastUse == old(lastUse)[key := old(clock)] && clock == old(clock) + 1
    {
      var bucketIdx := GetBucketIndex(key);
      if key in buckets[bucketIdx] {
        var i := IndexOf(lruList, key);
        SetValueKeeps(lruList, i, value, lastUse, clock);
        lruList := lruList[i := lruList[i].(value := value)];
        Touch(i);
        return;
      }

      if |lruList| >= totalCapacity {
        EvictLRU();
      }
      PushFront(Node(key, value, bucketIdx));
    }

    /** The insertion half of `Put`: a node with a new key goes to the front and into its bucket. */
    method PushFront(n: Node<K, V>)
      requires Valid() && |lruList| < totalCapacity
      requires n.key !in Keys(lruList) && n.bucketIndex == GetBucketIndex(n.key)
      modifies this
      ensures Valid()
      ensures lruList == [n] + old(lruList)
      ensures buckets == old(buckets)[n.bucketIndex := old(buckets)[n.bucketIndex] + {n.key}]
      ensures lastUse == old(lastUse)[n.key := old(clock)] && clock == old(clock) + 1
    {
      ghost var before, beforeBuckets := lruList, buckets;
      PushFrontKeys(lruList, n);
      PushFrontKeepsOrder(lruList, n, lastUse, clock);
      lruList := [n] + lruList;
      lastUse := lastUse[n.key := clock];
      clock := clock + 1;
      buckets := buckets[n.bucketIndex := buckets[n.bucketIndex] + {n.key}];
      InsertedFrontValid(before, beforeBuckets);
    }

    /** `Get`: the value under `key`, moving its node to the front; none when absent. */
    method Get(key: K) returns (r: Option<V>)
      requires Valid()
      modifies this
      ensures Valid()
      ensures r == old(Find(lruList, key))
      ensures key !in old(Keys(lruList)) ==>
                lruList == old(lruList) && lastUse == old(lastUse) && clock == old(clock)
      ensures key in old(Keys(lruList)) ==>
                && lruList == MoveToFront(old(lruList), IndexOf(old(lruList), key))
                && lastUse == old(lastUse)[key := old(clock)] && clock == old(clock) + 1
    {
      var bucketIdx := GetBucketIndex(key);
      if key in buckets[bucketIdx] {
        var i := IndexOf(lruList, key);
        var result := lruList[i].value;
        Touch(i);
        return Some(result);
      }
      return None;
    }

    /**
     * `Contains`: a lookup in the key's own bucket only, which leaves the
     * recency order alone and agrees with a search of every bucket.
     */
    method Contains(key: K) returns (r: bool)
      requires Valid()
      ensures r <==> key in Keys(lruList)
      ensures r <==> exists b | 0 <= b < |buckets| :: key in buckets[b]
    {
      r := key in buckets[GetBucketIndex(key)];
    }

    /** `Size`: the length of the recency list, never above the capacity. */
    method Size() returns (n: nat)
      requires Valid()
      ensures n == |lruList| && n <= totalCapacity
    {
      n := |lruList|;
    }

    /** `Clear`: empty every bucket, then the recency list. */
    method Clear()
      requires Valid()
      modifies this
      ensures Valid()
      ensures lruList == [] && Contents() == map[]
      ensures forall b | 0 <= b < |buckets| :: buckets[b] == {}
    {
      var i := 0;
      while i < |buckets|
        invariant 0 <= i <= |buckets| == numBuckets
        invariant forall b | 0 <= b < i :: buckets[b] == {}
        invariant forall b | i <= b < |buckets| :: buckets[b] == old(buckets)[b]
      {
        buckets := buckets[i := {}];
        i := i + 1;
      }
      lruList := [];
    }
  }
}
