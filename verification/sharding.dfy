/**
 * Key-to-bucket routing shared by both caches of
 * Source/common/ConcurrentLRUMap.h: `Hash{}(key) % num_buckets_`.
 */
module Sharding {

  /**
   * `GetBucketIndex`. The hash is a parameter: a function of the key alone,
   * so a key is always routed to the same bucket, and that bucket exists.
   */
  function BucketIndex<K>(hash: K -> nat, key: K, numBuckets: nat): (i: nat)
    requires numBuckets > 0
    ensures i < numBuckets
  {
    hash(key) % numBuckets
  }
}
