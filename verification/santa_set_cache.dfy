/**
 * SantaSetCache (Source/common/SantaSetCache.h): maps a key to a set of
 * values; a set that would grow past `per_entry_capacity_` is cleared before
 * the new value goes in. The outer `SantaCache` is modelled as a plain map.
 */
module SantaSetCache {

  /**
   * The set stored after the update block has run on `s` (an absent set is
   * first created empty): unchanged if it already holds `v`; otherwise `v` is
   * added, after clearing the set when it is already at capacity.
   */
  function InsertCapped<V>(s: set<V>, v: V, cap: nat): (r: set<V>)
    ensures v in r
    ensures v in s ==> r == s
    ensures v !in s && |s| < cap ==> r == s + {v}
    ensures v !in s && |s| >= cap ==> r == {v}
  {
    if v in s then s
    else if |s| >= cap then {v}
    else s + {v}
  }

  /** A set kept by InsertCapped never grows past the capacity (or 1 when the capacity is 0). */
  lemma InsertCappedBound<V>(s: set<V>, v: V, cap: nat)
    requires |s| <= cap || |s| <= 1
    ensures |InsertCapped(s, v, cap)| <= if cap == 0 then 1 else cap
  {
    if v !in s && |s| < cap {
      assert |s + {v}| == |s| + 1;
    }
  }

  class SetCache<K(==), V(==)> {
    const perEntryCapacity: nat
    /** The outer cache: a set of values per key. */
    var cache: map<K, set<V>>

    /** Every stored set is within the per-entry capacity (1 when that is 0). */
    ghost predicate Valid()
      reads this
    {
      forall key | key in cache :: |cache[key]| <= if perEntryCapacity == 0 then 1 else perEntryCapacity
    }

    constructor (perEntryCapacity: nat)
      ensures Valid()
      ensures this.perEntryCapacity == perEntryCapacity && cache == map[]
    {
      this.perEntryCapacity := perEntryCapacity;
      cache := map[];
    }

    /** The set at `key`, or the empty set when there is none. */
    function SetAt(key: K): set<V>
      reads this
    {
      if key in cache then cache[key] else {}
    }

    /** Whether the set at `key` holds `val`; false when `key` has no set. */
    method Contains(key: K, val: V) returns (r: bool)
      ensures r <==> key in cache && val in cache[key]
    {
      r := key in cache && val in cache[key];
    }

    /**
     * Add `val` to the set at `key`, creating the set if needed. Returns true
     * when the value was inserted, false when the set already held it (the
     * set is then left as it was).
     */
    method Set(key: K, val: V) returns (didSet: bool)
      requires Valid()
      modifies this
      ensures Valid()
      ensures didSet <==> val !in old(SetAt(key))
      ensures cache == old(cache)[key := InsertCapped(old(SetAt(key)), val, perEntryCapacity)]
      ensures !didSet ==> cache[key] == old(cache)[key]
      ensures val in cache[key]
    {
      var s: set<V>;
      if key in cache {
        s := cache[key];
      } else {
        s := {};
      }
      if val in s {
        didSet := false;
      } else {
        if |s| >= perEntryCapacity {
          s := {};
        }
        s := s + {val};
        didSet := true;
      }
      InsertCappedBound(SetAt(key), val, perEntryCapacity);
      cache := cache[key := s];
    }

    /** Drop the whole set at `key`. */
    method Remove(key: K)
      requires Valid()
      modifies this
      ensures Valid()
      ensures cache == old(cache) - {key}
      ensures SetAt(key) == {}
    {
      cache := cache - {key};
    }

    /** Drop every set. */
    method Clear()
      modifies this
      ensures Valid()
      ensures cache == map[]
    {
      cache := map[];
    }

    /** `Size()`: the number of keys that have a set. */
    method Size() returns (n: nat)
      ensures n == |cache.Keys|
    {
      n := |cache|;
    }

    /** `Size(key)`: the size of the set at `key`, 0 when there is none. */
    method SizeOf(key: K) returns (n: nat)
      ensures key !in cache ==> n == 0
      ensures key in cache ==> n == |cache[key]|
    {
      if key in cache {
        n := |cache[key]|;
      } else {
        n := 0;
      }
    }
  }
}
