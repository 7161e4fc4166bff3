/**
 * `ConfigCache` of Python/utils/config_manager.py: a bounded map from key to
 * (value, time stored) with a last-access time per key. A full cache evicts
 * the key with the smallest access time before storing; a read drops an
 * entry whose age has reached the time to live. The clock is a parameter.
 */
module ConfigCaching {
  import opened Wrappers
  import opened ConfigTree
  import opened Sequences

  /** A cached value with the time it was stored. */
  datatype Stamped = Stamped(value: Node, storedAt: int)

  /** The access times of `keys`, in order (zero for a key without one, which a valid cache never has). */
  function Weights(keys: seq<string>, times: map<string, int>): (ws: seq<int>)
    ensures |ws| == |keys| && forall i :: 0 <= i < |keys| && keys[i] in times ==> ws[i] == times[keys[i]]
  {
    seq(|keys|, i requires 0 <= i < |keys| => if keys[i] in times then times[keys[i]] else 0)
  }

  /** The key `_evict_lru` picks: the first one, in insertion order, with the smallest access time. */
  function LeastRecent(order: seq<string>, times: map<string, int>): string
    requires order != []
  {
    order[FirstMin(Weights(order, times), 0)]
  }

  /** The cache's three fields as one value, so that a sequence of operations can be described by functions. */
  datatype CacheState = CacheState(cache: map<string, Stamped>, accessTimes: map<string, int>, order: seq<string>)

  /** `key` deleted from both dictionaries, as `del` does. */
  function Dropped(s: CacheState, key: string): CacheState {
    CacheState(s.cache - {key}, s.accessTimes - {key}, Without(s.order, key))
  }

  /** The state `_evict_lru` leaves. */
  function Evicted(s: CacheState): CacheState {
    if s.order == [] then s else Dropped(s, LeastRecent(s.order, s.accessTimes))
  }

  /** The state `get` leaves: a fresh entry's access time renewed, a stale one dropped. */
  function AfterGet(s: CacheState, key: string, now: int, ttl: int): CacheState {
    if key !in s.cache then s
    else if now - s.cache[key].storedAt < ttl then s.(accessTimes := s.accessTimes[key := now])
    else Dropped(s, key)
  }

  /** The state `set` leaves: an eviction when `max_size` entries or more are held, then the stamped value. */
  function AfterSet(s: CacheState, maxSize: int, key: string, value: Node, now: int): CacheState {
    var t := if |s.order| >= maxSize then Evicted(s) else s;
    CacheState(t.cache[key := Stamped(value, now)], t.accessTimes[key := now],
               if key in t.cache then t.order else t.order + [key])
  }

  /** The least recently accessed key is one of the keys. */
  lemma LeastRecentIn(order: seq<string>, times: map<string, int>)
    requires order != []
    ensures LeastRecent(order, times) in order
  {
  }

  /**
   * What `set` leaves, from a state that keeps the invariant: the invariant
   * again, the value stamped with `now` under the key, and every other entry
   * that is left as it was.
   */
  lemma AfterSetKeeps(s: CacheState, maxSize: int, key: string, value: Node, now: int)
    requires CacheInvariant(s.cache, s.accessTimes, s.order, if maxSize >= 1 then maxSize else 1)
    ensures var r := AfterSet(s, maxSize, key, value, now);
      && CacheInvariant(r.cache, r.accessTimes, r.order, if maxSize >= 1 then maxSize else 1)
      && r.cache[key] == Stamped(value, now) && r.accessTimes[key] == now
      && forall k :: k in r.cache && k != key ==> k in s.cache && r.cache[k] == s.cache[k] && r.accessTimes[k] == s.accessTimes[k]
  {
    var cap := if maxSize >= 1 then maxSize else 1;
    var t := if |s.order| >= maxSize then Evicted(s) else s;
    if |s.order| >= maxSize {
      EvictedKeeps(s, cap);
    }
    StoreFrom(s, t, cap, key, Stamped(value, now));
    assert AfterSet(s, maxSize, key, value, now) ==
      CacheState(t.cache[key := Stamped(value, now)], t.accessTimes[key := now], if key in t.cache then t.order else t.order + [key]);
  }

  /** Storing into a state `t` whose entries all come unchanged from `s`: the invariant, the stored entry, the others from `s`. */
  lemma StoreFrom(s: CacheState, t: CacheState, cap: int, key: string, e: Stamped)
    requires CacheInvariant(t.cache, t.accessTimes, t.order, cap) && (key in t.cache || |t.order| < cap)
    requires t.cache.Keys <= s.cache.Keys
    requires forall k :: k in t.cache ==> k in s.accessTimes && t.cache[k] == s.cache[k] && t.accessTimes[k] == s.accessTimes[k]
    ensures CacheInvariant(t.cache[key := e], t.accessTimes[key := e.storedAt], if key in t.cache then t.order else t.order + [key], cap)
    ensures forall k :: k in t.cache[key := e] && k != key ==>
      k in s.cache && t.cache[key := e][k] == s.cache[k] && t.accessTimes[key := e.storedAt][k] == s.accessTimes[k]
  {
    StoreKeeps(t.cache, t.accessTimes, t.order, cap, key, e);
  }

  /** `_evict_lru` keeps the invariant, frees one place and leaves the surviving entries as they were. */
  lemma EvictedKeeps(s: CacheState, cap: int)
    requires CacheInvariant(s.cache, s.accessTimes, s.order, cap)
    ensures CacheInvariant(Evicted(s).cache, Evicted(s).accessTimes, Evicted(s).order, cap)
    ensures |Evicted(s).order| == if s.order == [] then 0 else |s.order| - 1
    ensures Evicted(s).cache.Keys <= s.cache.Keys
    ensures forall k :: k in Evicted(s).cache ==> Evicted(s).cache[k] == s.cache[k] && Evicted(s).accessTimes[k] == s.accessTimes[k]
  {
    if s.order != [] {
      var v := LeastRecent(s.order, s.accessTimes);
      LeastRecentIn(s.order, s.accessTimes);
      DropKeeps(s.cache, s.accessTimes, s.order, cap, v);
      WithoutDistinct(s.order, v);
    }
  }

  /** Below `max_size` entries, `set` adds or replaces the key and evicts nothing; a new key goes last in insertion order. */
  lemma AfterSetBelowLimit(s: CacheState, maxSize: int, key: string, value: Node, now: int)
    ensures !(|s.order| >= maxSize && s.order != []) ==>
      var r := AfterSet(s, maxSize, key, value, now);
      && r.cache.Keys == s.cache.Keys + {key}
      && r.order == if key in s.cache then s.order else s.order + [key]
  {
  }

  /**
   * At `max_size` entries or more, `set` first evicts exactly the least
   * recently accessed key; the survivors keep their order, and the key is
   * appended unless it survived (so a key that was itself evicted is stored
   * anew, last).
   */
  lemma AfterSetAtLimit(s: CacheState, maxSize: int, key: string, value: Node, now: int)
    requires CacheInvariant(s.cache, s.accessTimes, s.order, if maxSize >= 1 then maxSize else 1)
    ensures |s.order| >= maxSize && s.order != [] ==>
      var r := AfterSet(s, maxSize, key, value, now);
      var v := LeastRecent(s.order, s.accessTimes);
      && r.cache.Keys == s.cache.Keys - {v} + {key}
      && r.order == if key in s.cache && key != v then Without(s.order, v) else Without(s.order, v) + [key]
  {
  }

  /** The cache's invariant over plain values: the two maps share their keys, `order` lists them once each, and there are at most `cap`. */
  ghost predicate CacheInvariant(cache: map<string, Stamped>, times: map<string, int>, order: seq<string>, cap: int) {
    && cache.Keys == times.Keys
    && (forall i :: 0 <= i < |order| ==> order[i] in cache)
    && (forall k :: k in cache ==> k in order)
    && Distinct(order)
    && |order| <= cap
  }

  /** Deleting a key, present or not, keeps the invariant; `order` loses it the way an ordered dictionary does. */
  lemma DropKeeps(cache: map<string, Stamped>, times: map<string, int>, order: seq<string>, cap: int, key: string)
    requires CacheInvariant(cache, times, order, cap)
    ensures CacheInvariant(cache - {key}, times - {key}, Without(order, key), cap)
  {
    WithoutDistinct(order, key);
    WithoutMembers(order, key);
    var o := Without(order, key);
    forall i | 0 <= i < |o| ensures o[i] in cache - {key} {
      assert o[i] in o;
    }
  }

  lemma TouchKeeps(cache: map<string, Stamped>, times: map<string, int>, order: seq<string>, cap: int, key: string, t: int)
    requires CacheInvariant(cache, times, order, cap) && key in cache
    ensures CacheInvariant(cache, times[key := t], order, cap)
  {
  }

  lemma StoreKeeps(cache: map<string, Stamped>, times: map<string, int>, order: seq<string>, cap: int,
                   key: string, v: Stamped)
    requires CacheInvariant(cache, times, order, cap) && (key in cache || |order| < cap)
    ensures CacheInvariant(cache[key := v], times[key := v.storedAt], if key in cache then order else order + [key], cap)
  {
    if key !in cache {
      var o := order + [key];
      assert key !in order;
      forall i, j | 0 <= i < j < |o| ensures o[i] != o[j] {
        if j < |order| {
          assert o[i] == order[i] && o[j] == order[j];
        }
      }
    }
  }

  class ConfigCache {
    const maxSize: int
    const ttl: int
    var cache: map<string, Stamped>
    var accessTimes: map<string, int>
    /** The keys in the order the dictionaries iterate them: order of insertion. */
    var order: seq<string>

    /** The most entries the cache can hold: `max_size`, or one when `max_size` is not positive. */
    function Capacity(): int
      reads this
    {
      if maxSize >= 1 then maxSize else 1
    }

    function State(): CacheState
      reads this
    {
      CacheState(cache, accessTimes, order)
    }

    ghost predicate Valid()
      reads this
    {
      CacheInvariant(cache, accessTimes, order, Capacity())
    }

    /** The number of entries never exceeds the capacity. */
    lemma EntryCountBounded()
      requires Valid()
      ensures |cache| <= Capacity()
    {
      DistinctCard(order);
      assert cache.Keys == set x | x in order;
    }

    constructor(maxSize: int, ttl: int)
      ensures Valid()
      ensures this.maxSize == maxSize && this.ttl == ttl
      ensures cache == map[] && order == []
    {
      this.maxSize := maxSize;
      this.ttl := ttl;
      cache := map[];
      accessTimes := map[];
      order := [];
    }

    /** The key `_evict_lru` removes: the first one with the smallest access time. */
    function LruKey(): string
      requires Valid() && order != []
      reads this
    {
      LeastRecent(order, accessTimes)
    }

    /**
     * The evicted key is cached and was accessed no later than any other
     * cached key; every key stored before it was accessed strictly later.
     */
    lemma LruKeyIsLeastRecent()
      requires Valid() && order != []
      ensures LruKey() in cache
      ensures forall k :: k in cache ==> accessTimes[k] >= accessTimes[LruKey()]
      ensures forall j :: 0 <= j < |order| && order[j] == LruKey() ==>
        forall l :: 0 <= l < j ==> accessTimes[order[l]] > accessTimes[LruKey()]
    {
      var ws := Weights(order, accessTimes);
      var i := FirstMin(ws, 0);
      forall k | k in cache ensures accessTimes[k] >= accessTimes[LruKey()] {
        var l :| 0 <= l < |order| && order[l] == k;
        assert ws[l] >= ws[i];
      }
      forall j, l | 0 <= j < |order| && order[j] == LruKey() && 0 <= l < j
        ensures accessTimes[order[l]] > accessTimes[LruKey()]
      {
        assert j == i;
        assert ws[l] > ws[i];
      }
    }

    /** `_evict_lru`: nothing when empty, else drop the least recently accessed key. */
    method EvictLru()
      requires Valid()
      modifies this
      ensures Valid() && |order| == if old(order) == [] then 0 else |old(order)| - 1
      ensures old(order) == [] ==> cache == old(cache) && accessTimes == old(accessTimes)
      ensures old(order) == [] ==> order == []
      ensures old(order) != [] ==>
        && cache == old(cache) - {old(LruKey())}
        && accessTimes == old(accessTimes) - {old(LruKey())}
        && order == Without(old(order), old(LruKey()))
      ensures State() == Evicted(old(State()))
    {
      if order == [] {
        return;
      }
      var victim := LruKey();
      DropKeeps(cache, accessTimes, order, Capacity(), victim);
      WithoutDistinct(order, victim);
      cache := cache - {victim};
      accessTimes := accessTimes - {victim};
      order := Without(order, victim);
    }

    /** `get`: a fresh entry is returned and its access time renewed; a stale one is dropped. */
    method Get(key: string, now: int) returns (r: Option<Node>)
      requires Valid()
      modifies this
      ensures Valid()
      ensures key !in old(cache) ==> r.None? && cache == old(cache) && accessTimes == old(accessTimes) && order == old(order)
      ensures key in old(cache) && now - old(cache)[key].storedAt < ttl ==>
        && r == Some(old(cache)[key].value)
        && cache == old(cache) && accessTimes == old(accessTimes)[key := now] && order == old(order)
      ensures key in old(cache) && now - old(cache)[key].storedAt >= ttl ==>
        && r.None?
        && cache == old(cache) - {key} && accessTimes == old(accessTimes) - {key}
        && order == Without(old(order), key)
      ensures State() == AfterGet(old(State()), key, now, ttl)
    {
      if key in cache {
        var entry := cache[key];
        if now - entry.storedAt < ttl {
          TouchKeeps(cache, accessTimes, order, Capacity(), key, now);
          accessTimes := accessTimes[key := now];
          return Some(entry.value);
        }
        DropKeeps(cache, accessTimes, order, Capacity(), key);
        cache := cache - {key};
        accessTimes := accessTimes - {key};
        order := Without(order, key);
      }
      return None;
    }

    /**
     * `set`: when the cache holds `max_size` entries or more, evict the least
     * recently accessed key first; then store the value stamped with `now`.
     * `AfterSetKeeps`, `AfterSetBelowLimit` and `AfterSetAtLimit` spell out the state this leaves.
     */
    method Set(key: string, value: Node, now: int)
      requires Valid()
      modifies this
      ensures Valid()
      ensures State() == AfterSet(old(State()), maxSize, key, value, now)
    {
      if |order| >= maxSize {
        EvictLru();
      }
      Store(key, value, now);
    }

    /** The second half of `set`: store the value stamped with `now`, once there is room for it. */
    method Store(key: string, value: Node, now: int)
      requires Valid() && (key in cache || |order| < Capacity())
      modifies this
      ensures Valid()
      ensures cache == old(cache)[key := Stamped(value, now)] && accessTimes == old(accessTimes)[key := now]
      ensures order == if key in old(cache) then old(order) else old(order) + [key]
    {
      StoreKeeps(cache, accessTimes, order, Capacity(), key, Stamped(value, now));
      if key !in cache {
        order := order + [key];
      }
      cache := cache[key := Stamped(value, now)];
      accessTimes := accessTimes[key := now];
    }

    /** `invalidate`: forget the key, if present. */
    method Invalidate(key: string)
      requires Valid()
      modifies this
      ensures Valid()
      ensures cache == old(cache) - {key} && accessTimes == old(accessTimes) - {key}
      ensures order == Without(old(order), key)
      ensures State() == Dropped(old(State()), key)
    {
      DropKeeps(cache, accessTimes, order, Capacity(), key);
      cache := cache - {key};
      accessTimes := accessTimes - {key};
      order := Without(order, key);
    }

    method Clear()
      modifies this
      ensures Valid()
      ensures State() == CacheState(map[], map[], [])
    {
      cache := map[];
      accessTimes := map[];
      order := [];
    }
  }
}
