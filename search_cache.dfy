// The LRU cache of query results (pkg/search/cache.go). The recency list is a
// sequence of keys, most recently used first; the entry map holds each key's
// value and expiry time. The clock is a parameter `now` of the operations
// that read it.
module SearchCache {
  import opened Wrappers

  type CacheKey = string

  /** No key occurs twice. */
  predicate Distinct(s: seq<CacheKey>)
  {
    forall i, j :: 0 <= i < j < |s| ==> s[i] != s[j]
  }

  /** `s` with `k` taken out, the other keys in their order (list.Remove of k's element). */
  function Without(s: seq<CacheKey>, k: CacheKey): (r: seq<CacheKey>)
    ensures forall x :: x in r <==> x in s && x != k
    ensures Distinct(s) ==> Distinct(r)
    ensures Distinct(s) && k in s ==> |r| == |s| - 1
    ensures k !in s ==> r == s
  {
    if s == [] then []
    else if s[0] == k then Without(s[1..], k)
    else
      var r := Without(s[1..], k);
      assert Distinct(s) ==> Distinct(s[1..]) && s[0] !in r by {
        if Distinct(s) {
          assert forall j :: 0 < j < |s| ==> s[j] != s[0];
        }
      }
      [s[0]] + r
  }

  /** The list with `k` moved (or pushed) to the front. */
  function ToFront(s: seq<CacheKey>, k: CacheKey): (r: seq<CacheKey>)
    ensures |r| > 0 && r[0] == k
    ensures forall x :: x in r <==> x in s || x == k
    ensures Distinct(s) ==> Distinct(r)
    ensures Distinct(s) ==> |r| == if k in s then |s| else |s| + 1
  {
    [k] + Without(s, k)
  }

  /** The most keys the cache holds: its capacity, or none for a capacity below zero. */
  function Bound(capacity: int): nat
  {
    if capacity < 0 then 0 else capacity
  }

  datatype Entry<V> = Entry(value: V, expiresAt: int)

  /** An entry has expired when there is a time-to-live and the clock is past its expiry. */
  predicate Expired<V>(ttl: int, e: Entry<V>, now: int)
  {
    ttl > 0 && now > e.expiresAt
  }

  datatype CacheStats = CacheStats(hits: nat, misses: nat, size: nat, hitRate: real)

  /** Hits over lookups, 0 before the first lookup. */
  function HitRate(hits: nat, misses: nat): (r: real)
    ensures 0.0 <= r <= 1.0
    ensures hits + misses == 0 ==> r == 0.0
    ensures hits + misses > 0 ==> r * (hits + misses) as real == hits as real
    ensures misses == 0 && hits > 0 ==> r == 1.0
    ensures hits == 0 ==> r == 0.0
  {
    var total := hits + misses;
    if total > 0 then hits as real / total as real else 0.0
  }

  class LRUCache<V> {
    const capacity: int
    const ttl: int
    var entries: map<CacheKey, Entry<V>>
    var order: seq<CacheKey>
    var hits: nat
    var misses: nat

    /** The list and the map hold the same keys, each once, and no more of them than the capacity. */
    ghost predicate Valid()
      reads this
    {
      Distinct(order) && (forall k :: k in entries <==> k in order) && |order| <= Bound(capacity)
    }

    /** NewLRUCache: empty, with zero counters. */
    constructor (capacity: int, ttl: int)
      ensures Valid() && this.capacity == capacity && this.ttl == ttl
      ensures entries == map[] && order == [] && hits == 0 && misses == 0
    {
      this.capacity := capacity;
      this.ttl := ttl;
      entries := map[];
      order := [];
      hits := 0;
      misses := 0;
    }

    /**
     * A missing key counts a miss; an expired one is removed and counts a
     * miss; a live one moves to the front of the list and counts a hit.
     */
    method Get(key: CacheKey, now: int) returns (r: Option<V>)
      requires Valid()
      modifies this
      ensures Valid()
      ensures key !in old(entries) ==>
        r.None? && misses == old(misses) + 1 && hits == old(hits) &&
        entries == old(entries) && order == old(order)
      ensures key in old(entries) && Expired(ttl, old(entries)[key], now) ==>
        r.None? && misses == old(misses) + 1 && hits == old(hits) &&
        entries == old(entries) - {key} && order == Without(old(order), key)
      ensures key in old(entries) && !Expired(ttl, old(entries)[key], now) ==>
        r == Some(old(entries)[key].value) && hits == old(hits) + 1 && misses == old(misses) &&
        entries == old(entries) && order == ToFront(old(order), key)
    {
      if key !in entries {
        misses := misses + 1;
        return None;
      }
      var e := entries[key];
      if ttl > 0 && now > e.expiresAt {
        RemoveKey(key);
        misses := misses + 1;
        return None;
      }
      order := ToFront(order, key);
      hits := hits + 1;
      return Some(e.value);
    }

    /** removeElement: drops the key from the list and the map. */
    method RemoveKey(key: CacheKey)
      requires Valid()
      modifies this`entries, this`order
      ensures Valid()
      ensures entries == old(entries) - {key} && order == Without(old(order), key)
    {
      order := Without(order, key);
      entries := entries - {key};
    }

    /**
     * An existing key gets the new value (and a fresh expiry when there is a
     * time-to-live) and moves to the front; a new key is pushed at the front,
     * and when that overflows the capacity the last key of the list, the
     * least recently used, is evicted.
     */
    method Put(key: CacheKey, value: V, now: int)
      requires Valid()
      modifies this`entries, this`order
      ensures Valid()
      ensures key in old(entries) ==>
        entries == old(entries)[key := Entry(value, if ttl > 0 then now + ttl else old(entries)[key].expiresAt)] &&
        order == ToFront(old(order), key) && |order| == |old(order)|
      ensures key !in old(entries) && |old(order)| + 1 <= capacity ==>
        entries == old(entries)[key := Entry(value, if ttl > 0 then now + ttl else 0)] &&
        order == [key] + old(order)
      ensures key !in old(entries) && |old(order)| + 1 > capacity ==>
        var pushed := [key] + old(order);
        var lru := pushed[|pushed| - 1];
        entries == old(entries)[key := Entry(value, if ttl > 0 then now + ttl else 0)] - {lru} &&
        order == pushed[..|pushed| - 1]
    {
      if key in entries {
        var e := entries[key];
        var expiresAt := if ttl > 0 then now + ttl else e.expiresAt;
        entries := entries[key := Entry(value, expiresAt)];
        order := ToFront(order, key);
        return;
      }
      entries := entries[key := Entry(value, if ttl > 0 then now + ttl else 0)];
      order := [key] + order;
      if |order| > capacity {
        EvictOldest();
      }
    }

    /** The state Put leaves just before its capacity test: a new key pushed at the front. */
    ghost predicate Pushed()
      reads this
    {
      Distinct(order) && (forall k :: k in entries <==> k in order) && |order| <= Bound(capacity) + 1
    }

    /** evictOldest: removes the last key of the list. */
    method EvictOldest()
      requires Pushed() && |order| > capacity
      modifies this`entries, this`order
      ensures Valid()
      ensures old(order) != [] ==> entries == old(entries) - {old(order)[|old(order)| - 1]} && order == old(order)[..|old(order)| - 1]
      ensures old(order) == [] ==> entries == old(entries) && order == old(order)
    {
      if order == [] { return; }
      var lru := order[|order| - 1];
      var rest := order[..|order| - 1];
      assert order == rest + [lru];
      assert lru !in rest;
      order := rest;
      entries := entries - {lru};
    }

    /** Removes one key and nothing else. */
    method Invalidate(key: CacheKey)
      requires Valid()
      modifies this`entries, this`order
      ensures Valid()
      ensures entries == old(entries) - {key} && order == Without(old(order), key)
    {
      if key in entries {
        RemoveKey(key);
      }
    }

    /** Empties the cache and zeroes both counters. */
    method Clear()
      requires Valid()
      modifies this
      ensures Valid()
      ensures entries == map[] && order == [] && hits == 0 && misses == 0
    {
      entries := map[];
      order := [];
      hits := 0;
      misses := 0;
    }

    method Size() returns (n: nat)
      requires Valid()
      ensures n == |order| && n == |entries.Keys| && n <= Bound(capacity)
    {
      KeysCount(order, entries.Keys);
      n := |order|;
    }

    method Stats() returns (s: CacheStats)
      requires Valid()
      ensures s == CacheStats(hits, misses, |order|, HitRate(hits, misses))
      ensures s.size <= Bound(capacity)
    {
      s := CacheStats(hits, misses, |order|, HitRate(hits, misses));
    }
  }

  /** A duplicate-free list has as many keys as the set of its keys. */
  lemma {:induction false} KeysCount(s: seq<CacheKey>, keys: set<CacheKey>)
    requires Distinct(s) && forall k :: k in keys <==> k in s
    ensures |keys| == |s|
  {
    if s != [] {
      var rest := s[1..];
      assert Distinct(rest);
      assert s[0] !in rest;
      KeysCount(rest, keys - {s[0]});
    }
  }

  /** What the typed wrappers store: hybrid results, full-text results, or a value of some other type. */
  datatype Cached<H, T> = HybridResults(hybrid: seq<H>) | TextResults(text: seq<T>) | Foreign(tag: nat)

  /** QueryCache: an LRU cache of search results with typed accessors. */
  class QueryCache<H, T> {
    const cache: LRUCache<Cached<H, T>>

    ghost predicate Valid()
      reads this, cache
    {
      cache.Valid()
    }

    constructor (capacity: int, ttl: int)
      ensures Valid() && fresh(cache) && cache.capacity == capacity && cache.ttl == ttl
      ensures cache.entries == map[] && cache.hits == 0 && cache.misses == 0
    {
      cache := new LRUCache(capacity, ttl);
    }

    /** A live entry that holds hybrid results is returned; one of another type is removed. */
    method GetHybridResults(key: CacheKey, now: int) returns (r: Option<seq<H>>)
      requires Valid()
      modifies cache
      ensures Valid()
      ensures r.Some? <==> (key in old(cache.entries) && !Expired(cache.ttl, old(cache.entries)[key], now) &&
        old(cache.entries)[key].value.HybridResults?)
      ensures key !in old(cache.entries) ==>
        cache.misses == old(cache.misses) + 1 && cache.hits == old(cache.hits) &&
        cache.entries == old(cache.entries) && cache.order == old(cache.order)
      ensures key in old(cache.entries) && Expired(cache.ttl, old(cache.entries)[key], now) ==>
        cache.misses == old(cache.misses) + 1 && cache.hits == old(cache.hits) &&
        cache.entries == old(cache.entries) - {key} && cache.order == Without(old(cache.order), key)
      ensures key in old(cache.entries) && !Expired(cache.ttl, old(cache.entries)[key], now) ==>
        cache.hits == old(cache.hits) + 1 && cache.misses == old(cache.misses)
      ensures key in old(cache.entries) && !Expired(cache.ttl, old(cache.entries)[key], now) &&
              old(cache.entries)[key].value.HybridResults? ==>
        cache.entries == old(cache.entries) && cache.order == ToFront(old(cache.order), key)
      ensures key in old(cache.entries) && !Expired(cache.ttl, old(cache.entries)[key], now) &&
              !old(cache.entries)[key].value.HybridResults? ==>
        cache.entries == old(cache.entries) - {key} && cache.order == Without(ToFront(old(cache.order), key), key)
      ensures r.Some? ==> r.value == old(cache.entries)[key].value.hybrid
      ensures r.None? ==> key !in cache.entries
      ensures key !in old(cache.entries) ==> cache.entries == old(cache.entries)
    {
      var v := cache.Get(key, now);
      if v.None? { return None; }
      if !v.value.HybridResults? {
        cache.Invalidate(key);
        return None;
      }
      return Some(v.value.hybrid);
    }

    /** A live entry that holds full-text results is returned; one of another type is removed. */
    method GetTextResults(key: CacheKey, now: int) returns (r: Option<seq<T>>)
      requires Valid()
      modifies cache
      ensures Valid()
      ensures r.Some? <==> (key in old(cache.entries) && !Expired(cache.ttl, old(cache.entries)[key], now) &&
        old(cache.entries)[key].value.TextResults?)
      ensures key !in old(cache.entries) ==>
        cache.misses == old(cache.misses) + 1 && cache.hits == old(cache.hits) &&
        cache.entries == old(cache.entries) && cache.order == old(cache.order)
      ensures key in old(cache.entries) && Expired(cache.ttl, old(cache.entries)[key], now) ==>
        cache.misses == old(cache.misses) + 1 && cache.hits == old(cache.hits) &&
        cache.entries == old(cache.entries) - {key} && cache.order == Without(old(cache.order), key)
      ensures key in old(cache.entries) && !Expired(cache.ttl, old(cache.entries)[key], now) ==>
        cache.hits == old(cache.hits) + 1 && cache.misses == old(cache.misses)
      ensures key in old(cache.entries) && !Expired(cache.ttl, old(cache.entries)[key], now) &&
              old(cache.entries)[key].value.TextResults? ==>
        cache.entries == old(cache.entries) && cache.order == ToFront(old(cache.order), key)
      ensures key in old(cache.entries) && !Expired(cache.ttl, old(cache.entries)[key], now) &&
              !old(cache.entries)[key].value.TextResults? ==>
        cache.entries == old(cache.entries) - {key} && cache.order == Without(ToFront(old(cache.order), key), key)
      ensures r.Some? ==> r.value == old(cache.entries)[key].value.text
      ensures r.None? ==> key !in cache.entries
      ensures key !in old(cache.entries) ==> cache.entries == old(cache.entries)
    {
      var v := cache.Get(key, now);
      if v.None? { return None; }
      if !v.value.TextResults? {
        cache.Invalidate(key);
        return None;
      }
      return Some(v.value.text);
    }

    /** Put of hybrid results: the LRU cache's Put, so the key moves to the front and the least recent key beyond the capacity goes. */
    method PutHybridResults(key: CacheKey, results: seq<H>, now: int)
      requires Valid()
      modifies cache
      ensures Valid()
      ensures cache.hits == old(cache.hits) && cache.misses == old(cache.misses)
      ensures key in old(cache.entries) ==>
        cache.entries == old(cache.entries)[key := Entry(HybridResults(results),
          if cache.ttl > 0 then now + cache.ttl else old(cache.entries)[key].expiresAt)] &&
        cache.order == ToFront(old(cache.order), key)
      ensures key !in old(cache.entries) && |old(cache.order)| + 1 <= cache.capacity ==>
        cache.entries == old(cache.entries)[key := Entry(HybridResults(results), if cache.ttl > 0 then now + cache.ttl else 0)] &&
        cache.order == [key] + old(cache.order)
      ensures key !in old(cache.entries) && |old(cache.order)| + 1 > cache.capacity ==>
        var pushed := [key] + old(cache.order);
        var lru := pushed[|pushed| - 1];
        cache.entries == old(cache.entries)[key := Entry(HybridResults(results), if cache.ttl > 0 then now + cache.ttl else 0)] - {lru} &&
        cache.order == pushed[..|pushed| - 1]
      ensures cache.capacity > 0 ==> key in cache.entries && cache.entries[key].value == HybridResults(results)
    {
      cache.Put(key, HybridResults(results), now);
    }

    /** Put of full-text results, with the same effect. */
    method PutTextResults(key: CacheKey, results: seq<T>, now: int)
      requires Valid()
      modifies cache
      ensures Valid()
      ensures cache.hits == old(cache.hits) && cache.misses == old(cache.misses)
      ensures key in old(cache.entries) ==>
        cache.entries == old(cache.entries)[key := Entry(TextResults(results),
          if cache.ttl > 0 then now + cache.ttl else old(cache.entries)[key].expiresAt)] &&
        cache.order == ToFront(old(cache.order), key)
      ensures key !in old(cache.entries) && |old(cache.order)| + 1 <= cache.capacity ==>
        cache.entries == old(cache.entries)[key := Entry(TextResults(results), if cache.ttl > 0 then now + cache.ttl else 0)] &&
        cache.order == [key] + old(cache.order)
      ensures key !in old(cache.entries) && |old(cache.order)| + 1 > cache.capacity ==>
        var pushed := [key] + old(cache.order);
        var lru := pushed[|pushed| - 1];
        cache.entries == old(cache.entries)[key := Entry(TextResults(results), if cache.ttl > 0 then now + cache.ttl else 0)] - {lru} &&
        cache.order == pushed[..|pushed| - 1]
      ensures cache.capacity > 0 ==> key in cache.entries && cache.entries[key].value == TextResults(results)
    {
      cache.Put(key, TextResults(results), now);
    }

    /** Clear and its alias InvalidateAll. */
    method Clear()
      requires Valid()
      modifies cache
      ensures Valid() && cache.entries == map[] && cache.hits == 0 && cache.misses == 0
    {
      cache.Clear();
    }
  }
}
