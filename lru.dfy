/**
 * A bounded least-recently-used memo, as `functools.lru_cache(maxsize)`
 * keeps it: a hit moves the key to the most-recent end, a miss that
 * completes stores the value, evicting the least recently used key when full;
 * maxsize 0 stores nothing. Failed calls are never stored.
 */
module Lru {
  import opened Results

  /** The capacity used when LRU_CACHE_MAXSIZE is not set. */
  const DefaultMaxsize: nat := 2048

  ghost predicate Distinct<K>(s: seq<K>) {
    forall i, j :: 0 <= i < j < |s| ==> s[i] != s[j]
  }

  /** `s` without `k`, the others kept in order. */
  function Without<K(==, !new)>(s: seq<K>, k: K): (r: seq<K>)
    ensures forall x :: x in r <==> x in s && x != k
    ensures Distinct(s) ==> Distinct(r)
    ensures Distinct(s) && k in s ==> |r| == |s| - 1
    ensures k !in s ==> r == s
  {
    if s == [] then []
    else if s[0] == k then Without(s[1..], k)
    else
      var rest := Without(s[1..], k);
      assert Distinct(s) ==> s[0] !in s[1..];
      assert forall j :: 0 < j < |[s[0]] + rest| ==> ([s[0]] + rest)[j] == rest[j - 1];
      [s[0]] + rest
  }

  /**
   * The recency order after a new key is stored: it becomes the most recent;
   * a full memo first drops its least recently used key.
   */
  function StoredOrder<K>(order: seq<K>, capacity: nat, key: K): (r: seq<K>)
    ensures capacity == 0 ==> r == order
    ensures capacity > 0 ==> r != [] && r[|r| - 1] == key && r[..|r| - 1] == (if |order| >= capacity then order[1..] else order)
  {
    if capacity == 0 then order
    else if |order| >= capacity then order[1..] + [key]
    else order + [key]
  }

  /**
   * The entries after a new key is stored: the key maps to the value, the
   * least recently used key is evicted when the memo is full, and every other
   * entry is kept as it was.
   */
  function StoredEntries<K, V>(entries: map<K, V>, order: seq<K>, capacity: nat, key: K, value: V): (r: map<K, V>)
    ensures capacity == 0 ==> r == entries
    ensures capacity > 0 ==> key in r && r[key] == value
    ensures forall k :: k in r ==> k == key || k in entries
    ensures 0 < capacity <= |order| && order[0] != key ==> order[0] !in r
    ensures forall k :: k in entries && k != key && !(0 < capacity <= |order| && k == order[0]) ==>
      k in r && r[k] == entries[k]
  {
    if capacity == 0 then entries
    else if |order| >= capacity then (entries - {order[0]})[key := value]
    else entries[key := value]
  }

  class LruCache<K(==, !new), V> {
    const capacity: nat
    /** The keys, least recently used first. */
    var order: seq<K>
    var entries: map<K, V>

    ghost predicate Valid()
      reads this
    {
      |order| <= capacity &&
      Distinct(order) &&
      (forall k :: k in entries <==> k in order)
    }

    constructor (capacity: nat)
      ensures Valid()
      ensures this.capacity == capacity && order == [] && entries == map[]
    {
      this.capacity := capacity;
      order := [];
      entries := map[];
    }

    /** A lookup: on a hit the key becomes the most recently used. */
    method Lookup(key: K) returns (hit: Option<V>)
      requires Valid()
      modifies this
      ensures Valid()
      ensures entries == old(entries)
      ensures key in entries ==> hit == Some(entries[key]) && order == Without(old(order), key) + [key]
      ensures key !in entries ==> hit == None && order == old(order)
    {
      if key in entries {
        hit := Some(entries[key]);
        order := Without(order, key) + [key];
      } else {
        hit := None;
      }
    }

    /**
     * Store the value of a completed call. A key already present (only
     * possible if the call re-entered the cache) is left as it is.
     */
    method Store(key: K, value: V)
      requires Valid()
      modifies this
      ensures Valid()
      ensures key in old(entries) ==> order == old(order) && entries == old(entries)
      ensures key !in old(entries) ==>
        order == StoredOrder(old(order), capacity, key) &&
        entries == StoredEntries(old(entries), old(order), capacity, key, value)
    {
      if key in entries || capacity == 0 {
        return;
      }
      if |order| >= capacity {
        var oldest := order[0];
        assert oldest !in order[1..];
        entries := (entries - {oldest})[key := value];
        order := order[1..] + [key];
      } else {
        entries := entries[key := value];
        order := order + [key];
      }
    }
  }
}
