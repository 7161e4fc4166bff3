/**
 * `MemoryCache` of Python/utils/cache_manager.py: a dictionary of entries in
 * insertion order, an ordered dictionary of keys for LRU, and counters for
 * hits, misses, evictions, total size and entry count. Storing evicts one
 * entry at a time, chosen by the eviction policy, until both the entry count
 * and the total size are within their limits.
 *
 * The clock is a parameter `now`; an entry's size (its pickled length) is a
 * parameter of `Set`; `random.choice` is the oracle `pick`.
 */
module MemoryCaching {
  import opened Wrappers
  import opened Sequences

  datatype EvictionPolicy = Lru | Lfu | Fifo | Ttl | Random

  /** A `CacheEntry`; `ttl` of None never expires. */
  datatype Entry<V> = Entry(
    value: V,
    createdAt: int,
    lastAccessed: int,
    accessCount: nat,
    ttl: Option<int>,
    size: nat,
    tags: seq<string>)

  /** `is_expired`: older than its time to live, strictly. */
  predicate Expired<V>(e: Entry<V>, now: int) {
    e.ttl.Some? && now - e.createdAt > e.ttl.value
  }

  /** `touch`. */
  function Touch<V>(e: Entry<V>, now: int): Entry<V> {
    e.(lastAccessed := now, accessCount := e.accessCount + 1)
  }

  /** Some tag of `tags` is among the entry's tags. */
  predicate Tagged<V>(e: Entry<V>, tags: seq<string>) {
    exists t :: t in tags && t in e.tags
  }

  /** The integer counters of `CacheStats`. */
  datatype Stats = Stats(hits: nat, misses: nat, evictions: nat, totalSize: int, entryCount: int)

  const NoStats := Stats(0, 0, 0, 0, 0)

  /**
   * The cache's state: `entries` is `_cache`, `keys` its iteration order
   * (order of first insertion), `accessOrder` the keys of `_access_order`.
   */
  datatype CacheState<V> = CacheState(
    entries: map<string, Entry<V>>,
    keys: seq<string>,
    accessOrder: seq<string>,
    stats: Stats)

  /** `max_size`, `max_memory`, the eviction policy and the stand-in for `random.choice`. */
  datatype Limits = Limits(maxSize: int, maxMemory: int, policy: EvictionPolicy, pick: seq<string> -> nat)

  function Empty<V>(): CacheState<V> {
    CacheState(map[], [], [], NoStats)
  }

  /** Both key sequences list the dictionary's keys, once each. */
  ghost predicate Shaped<V>(s: CacheState<V>) {
    && Distinct(s.keys)
    && Distinct(s.accessOrder)
    && (forall k :: k in s.keys <==> k in s.entries)
    && (forall k :: k in s.accessOrder <==> k in s.entries)
  }

  /** The sum of the sizes of the entries at `keys`. */
  function SizeSum<V>(entries: map<string, Entry<V>>, keys: seq<string>): nat
    requires forall k :: k in keys ==> k in entries
    decreases |keys|
  {
    if keys == [] then 0 else entries[keys[0]].size + SizeSum(entries, keys[1..])
  }

  /** The counters agree with the entries: `entry_count` counts them, `total_size` adds up their sizes. */
  ghost predicate Consistent<V>(s: CacheState<V>) {
    && Shaped(s)
    && s.stats.entryCount == |s.keys|
    && s.stats.totalSize == SizeSum(s.entries, s.keys)
  }

  /** The condition under which `_enforce_limits` stops. */
  predicate WithinLimits<V>(s: CacheState<V>, lim: Limits) {
    |s.entries| <= lim.maxSize && s.stats.totalSize <= lim.maxMemory
  }

  // ---------------------------------------------------------------------
  // The operations as functions on states
  // ---------------------------------------------------------------------

  /** The bookkeeping of `set` before `_enforce_limits`. */
  function StoreStep<V>(s: CacheState<V>, key: string, e: Entry<V>): (r: CacheState<V>)
    ensures r.entries.Keys == s.entries.Keys + {key} && r.entries[key] == e
    ensures forall k :: k in s.entries && k != key ==> r.entries[k] == s.entries[k]
    ensures key in s.entries ==> r.keys == s.keys
  {
    var stats :=
      if key in s.entries then s.stats.(totalSize := s.stats.totalSize - s.entries[key].size)
      else s.stats.(entryCount := s.stats.entryCount + 1);
    CacheState(
      s.entries[key := e],
      if key in s.entries then s.keys else s.keys + [key],
      if key in s.accessOrder then s.accessOrder else s.accessOrder + [key],
      stats.(totalSize := stats.totalSize + e.size))
  }

  /** `delete`: the new state and whether the key was there. */
  function DeleteStep<V>(s: CacheState<V>, key: string): (r: (CacheState<V>, bool))
    ensures r.1 <==> key in s.entries
    ensures r.0.entries == s.entries - {key}
    ensures !r.1 ==> r.0 == s
  {
    if key in s.entries then
      (CacheState(
        s.entries - {key},
        Without(s.keys, key),
        Without(s.accessOrder, key),
        s.stats.(totalSize := s.stats.totalSize - s.entries[key].size, entryCount := s.stats.entryCount - 1)),
       true)
    else (s, false)
  }

  /**
   * `get`. An expired entry is removed the way `delete` removes it, so the
   * size and count go down with it; a hit touches the entry and, under LRU,
   * moves the key to the most recent end.
   */
  function GetStep<V>(s: CacheState<V>, key: string, now: int, policy: EvictionPolicy): (r: (CacheState<V>, Option<V>))
    ensures r.1.Some? <==> key in s.entries && !Expired(s.entries[key], now)
    ensures r.1.Some? ==> r.1.value == s.entries[key].value
    ensures r.0.entries.Keys == if r.1.None? then s.entries.Keys - {key} else s.entries.Keys
  {
    if key !in s.entries then
      (s.(stats := s.stats.(misses := s.stats.misses + 1)), None)
    else if Expired(s.entries[key], now) then
      var t := DeleteStep(s, key).0;
      (t.(stats := t.stats.(misses := t.stats.misses + 1, evictions := t.stats.evictions + 1)), None)
    else
      var e := s.entries[key];
      (s.(entries := s.entries[key := Touch(e, now)],
          accessOrder := if policy == Lru then Without(s.accessOrder, key) + [key] else s.accessOrder,
          stats := s.stats.(hits := s.stats.hits + 1)),
       Some(e.value))
  }

  /**
   * `get` as written: an expired entry is dropped from both dictionaries but
   * `total_size` and `entry_count` are left as they were.
   */
  function GetStepAsWritten<V>(s: CacheState<V>, key: string, now: int, policy: EvictionPolicy): (r: (CacheState<V>, Option<V>))
    ensures r.1 == GetStep(s, key, now, policy).1
    ensures r.0.entries == GetStep(s, key, now, policy).0.entries
    ensures key in s.entries && Expired(s.entries[key], now) ==>
      r.0.stats.totalSize == s.stats.totalSize && r.0.stats.entryCount == s.stats.entryCount
  {
    if key in s.entries && Expired(s.entries[key], now) then
      (CacheState(
        s.entries - {key},
        Without(s.keys, key),
        Without(s.accessOrder, key),
        s.stats.(misses := s.stats.misses + 1, evictions := s.stats.evictions + 1)),
       None)
    else GetStep(s, key, now, policy)
  }

  /** The access counts of the entries at `keys`, in order. */
  function Counts<V>(s: CacheState<V>): (ws: seq<int>)
    requires forall k :: k in s.keys ==> k in s.entries
    ensures |ws| == |s.keys| && forall i :: 0 <= i < |s.keys| ==> ws[i] == s.entries[s.keys[i]].accessCount
  {
    seq(|s.keys|, i requires 0 <= i < |s.keys| => s.entries[s.keys[i]].accessCount)
  }

  /** The creation times of the entries at `keys`, in order. */
  function Births<V>(s: CacheState<V>): (ws: seq<int>)
    requires forall k :: k in s.keys ==> k in s.entries
    ensures |ws| == |s.keys| && forall i :: 0 <= i < |s.keys| ==> ws[i] == s.entries[s.keys[i]].createdAt
  {
    seq(|s.keys|, i requires 0 <= i < |s.keys| => s.entries[s.keys[i]].createdAt)
  }

  /** Whether the key names an expired entry. */
  function ExpiredAt<V>(entries: map<string, Entry<V>>, now: int): string -> bool {
    k => k in entries && Expired(entries[k], now)
  }

  /** The key `_evict_one` removes. */
  function Victim<V>(s: CacheState<V>, lim: Limits, now: int): (r: string)
    requires Shaped(s) && s.keys != []
    ensures r in s.entries
  {
    assert s.keys[0] in s.accessOrder;
    match lim.policy
    case Lru => s.accessOrder[0]
    case Lfu => s.keys[FirstMin(Counts(s), 0)]
    case Fifo => s.keys[FirstMin(Births(s), 0)]
    case Ttl =>
      var expired := Filter(s.keys, ExpiredAt(s.entries, now));
      FilterMembers(s.keys, ExpiredAt(s.entries, now));
      if expired != [] then assert expired[0] in expired; expired[0] else s.keys[0]
    case Random => s.keys[lim.pick(s.keys) % |s.keys|]
  }

  /** `_evict_one`: nothing on an empty cache, else delete the victim and count an eviction. */
  function EvictStep<V>(s: CacheState<V>, lim: Limits, now: int): (r: CacheState<V>)
    requires Shaped(s)
    ensures s.keys == [] ==> r == s
    ensures s.keys != [] ==> r.entries == s.entries - {Victim(s, lim, now)} && r.stats.evictions == s.stats.evictions + 1
  {
    if s.keys == [] then s
    else
      var t := DeleteStep(s, Victim(s, lim, now)).0;
      t.(stats := t.stats.(evictions := t.stats.evictions + 1))
  }

  /**
   * `_enforce_limits`: evict while over either limit. None when the loop
   * never stops: over a limit with nothing left to evict, where `_evict_one`
   * changes nothing.
   */
  function Enforce<V>(s: CacheState<V>, lim: Limits, now: int): (r: Option<CacheState<V>>)
    requires Shaped(s)
    ensures r.Some? ==> WithinLimits(r.value, lim) && r.value.entries.Keys <= s.entries.Keys
    decreases |s.keys|
  {
    if WithinLimits(s, lim) then Some(s)
    else if s.keys == [] then None
    else
      EvictShrinks(s, lim, now);
      Enforce(EvictStep(s, lim, now), lim, now)
  }

  /** The limits a `MemoryCache` can be built with. */
  predicate Sane(lim: Limits) {
    lim.maxSize >= 0 && lim.maxMemory >= 0
  }

  /**
   * `set` as a whole: store, then evict until within the limits. What is
   * left is consistent and within both limits, and every surviving entry is
   * the new one or an old one unchanged.
   */
  function SetStep<V>(s: CacheState<V>, key: string, e: Entry<V>, lim: Limits, now: int): (r: CacheState<V>)
    requires Consistent(s) && Sane(lim)
    ensures Consistent(r) && WithinLimits(r, lim)
    ensures forall k :: k in r.entries ==>
      if k == key then r.entries[k] == e else k in s.entries && r.entries[k] == s.entries[k]
  {
    StoreKeepsConsistent(s, key, e);
    EnforceWithinLimits(StoreStep(s, key, e), lim, now);
    Enforce(StoreStep(s, key, e), lim, now).value
  }

  /** `delete_by_tags`' second loop: delete the keys one after another. */
  function DeleteAll<V>(s: CacheState<V>, doomed: seq<string>): CacheState<V>
    decreases |doomed|
  {
    if doomed == [] then s else DeleteAll(DeleteStep(s, doomed[0]).0, doomed[1..])
  }

  /** Whether the key names an entry carrying one of `tags`. */
  function TaggedIn<V>(entries: map<string, Entry<V>>, tags: seq<string>): string -> bool {
    k => k in entries && Tagged(entries[k], tags)
  }

  // ---------------------------------------------------------------------
  // Sizes
  // ---------------------------------------------------------------------

  lemma {:induction false} SizeSumFrame<V>(a: map<string, Entry<V>>, b: map<string, Entry<V>>, keys: seq<string>)
    requires forall k :: k in keys ==> k in a && k in b && a[k].size == b[k].size
    ensures SizeSum(a, keys) == SizeSum(b, keys)
    decreases |keys|
  {
    if keys != [] {
      SizeSumFrame(a, b, keys[1..]);
    }
  }

  lemma {:induction false} SizeSumAppend<V>(entries: map<string, Entry<V>>, keys: seq<string>, key: string, e: Entry<V>)
    requires forall k :: k in keys ==> k in entries
    requires key !in keys
    ensures SizeSum(entries[key := e], keys + [key]) == SizeSum(entries, keys) + e.size
    decreases |keys|
  {
    if keys == [] {
      assert SizeSum(entries[key := e], [key]) == e.size + SizeSum(entries[key := e], []);
    } else {
      assert (keys + [key])[1..] == keys[1..] + [key];
      SizeSumAppend(entries, keys[1..], key, e);
    }
  }

  lemma {:induction false} SizeSumReplace<V>(entries: map<string, Entry<V>>, keys: seq<string>, key: string, e: Entry<V>)
    requires forall k :: k in keys ==> k in entries
    requires key in keys && Distinct(keys)
    ensures SizeSum(entries[key := e], keys) == SizeSum(entries, keys) - entries[key].size + e.size
    decreases |keys|
  {
    var rest := keys[1..];
    assert Distinct(rest) by {
      forall i, j | 0 <= i < j < |rest| ensures rest[i] != rest[j] {
        assert rest[i] == keys[i + 1] && rest[j] == keys[j + 1];
      }
    }
    if keys[0] == key {
      assert key !in rest by {
        forall i | 0 <= i < |rest| ensures rest[i] != key {
          assert rest[i] == keys[i + 1];
        }
      }
      SizeSumFrame(entries[key := e], entries, rest);
    } else {
      SizeSumReplace(entries, rest, key, e);
    }
  }

  lemma {:induction false} SizeSumWithout<V>(entries: map<string, Entry<V>>, keys: seq<string>, key: string)
    requires forall k :: k in keys ==> k in entries
    requires key in keys && Distinct(keys)
    ensures forall i :: 0 <= i < |Without(keys, key)| ==> Without(keys, key)[i] in entries - {key}
    ensures SizeSum(entries - {key}, Without(keys, key)) == SizeSum(entries, keys) - entries[key].size
    decreases |keys|
  {
    var rest := keys[1..];
    assert Distinct(rest) by {
      forall i, j | 0 <= i < j < |rest| ensures rest[i] != rest[j] {
        assert rest[i] == keys[i + 1] && rest[j] == keys[j + 1];
      }
    }
    WithoutMembers(keys, key);
    if keys[0] == key {
      assert key !in rest by {
        forall i | 0 <= i < |rest| ensures rest[i] != key {
          assert rest[i] == keys[i + 1];
        }
      }
      WithoutMembers(rest, key);
      assert Without(keys, key) == Without(rest, key);
      SizeSumFrame(entries - {key}, entries, rest);
    } else {
      assert Without(keys, key) == [keys[0]] + Without(rest, key);
      SizeSumWithout(entries, rest, key);
    }
  }

  /** With the key sequences in step, the dictionary has as many entries as `keys`. */
  lemma ShapedCount<V>(s: CacheState<V>)
    requires Shaped(s)
    ensures |s.entries| == |s.keys| == |s.accessOrder|
    ensures s.entries == map[] <==> s.keys == []
  {
    DistinctCard(s.keys);
    DistinctCard(s.accessOrder);
    assert s.entries.Keys == set x | x in s.keys;
    assert s.entries.Keys == set x | x in s.accessOrder;
  }

  // ---------------------------------------------------------------------
  // What each step keeps and changes
  // ---------------------------------------------------------------------

  lemma StoreKeepsShaped<V>(s: CacheState<V>, key: string, e: Entry<V>)
    requires Shaped(s)
    ensures Shaped(StoreStep(s, key, e))
  {
    if key !in s.entries {
      AppendKeepsDistinct(s.keys, key);
      AppendKeepsDistinct(s.accessOrder, key);
    }
  }

  /**
   * `set`'s bookkeeping keeps the counters right: the count grows by one
   * only for a new key, and the total size changes by the new size minus
   * the replaced one.
   */
  lemma StoreKeepsConsistent<V>(s: CacheState<V>, key: string, e: Entry<V>)
    requires Consistent(s)
    ensures Consistent(StoreStep(s, key, e))
  {
    StoreKeepsShaped(s, key, e);
    if key in s.entries {
      SizeSumReplace(s.entries, s.keys, key, e);
    } else {
      SizeSumAppend(s.entries, s.keys, key, e);
    }
  }

  lemma DeleteKeepsShaped<V>(s: CacheState<V>, key: string)
    requires Shaped(s)
    ensures Shaped(DeleteStep(s, key).0)
    ensures key in s.entries ==> |DeleteStep(s, key).0.keys| == |s.keys| - 1
  {
    if key in s.entries {
      WithoutDistinct(s.keys, key);
      WithoutDistinct(s.accessOrder, key);
      WithoutMembers(s.keys, key);
      WithoutMembers(s.accessOrder, key);
    }
  }

  /** `delete` keeps the counters right: one off the count, the entry's size off the total. */
  lemma DeleteKeepsConsistent<V>(s: CacheState<V>, key: string)
    requires Consistent(s)
    ensures Consistent(DeleteStep(s, key).0)
  {
    DeleteKeepsShaped(s, key);
    if key in s.entries {
      SizeSumWithout(s.entries, s.keys, key);
    }
  }

  /**
   * `get` keeps the counters right: an expired entry leaves the count and the
   * total size with it, and a hit changes no size.
   */
  lemma GetKeepsConsistent<V>(s: CacheState<V>, key: string, now: int, policy: EvictionPolicy)
    requires Consistent(s)
    ensures Consistent(GetStep(s, key, now, policy).0)
  {
    if key in s.entries {
      if Expired(s.entries[key], now) {
        DeleteKeepsConsistent(s, key);
      } else {
        var r := GetStep(s, key, now, policy).0;
        WithoutDistinct(s.accessOrder, key);
        WithoutMembers(s.accessOrder, key);
        if policy == Lru {
          AppendKeepsDistinct(Without(s.accessOrder, key), key);
        }
        SizeSumFrame(r.entries, s.entries, s.keys);
      }
    }
  }

  /**
   * A hit under LRU makes the key the most recent one: it ends the access
   * order, so with another entry present it is not the next victim.
   */
  lemma LruHitMovesToEnd<V>(s: CacheState<V>, key: string, now: int, lim: Limits)
    requires Consistent(s) && lim.policy == Lru
    requires key in s.entries && !Expired(s.entries[key], now)
    ensures var r := GetStep(s, key, now, Lru).0;
      && r.accessOrder != [] && r.accessOrder[|r.accessOrder| - 1] == key
      && (|s.entries| >= 2 ==> Shaped(r) && r.keys != [] && Victim(r, lim, now) != key)
  {
    GetKeepsConsistent(s, key, now, Lru);
    var r := GetStep(s, key, now, Lru).0;
    if |s.entries| >= 2 {
      ShapedCount(s);
      WithoutDistinct(s.accessOrder, key);
      assert |r.accessOrder| >= 2;
      assert r.accessOrder[0] == Without(s.accessOrder, key)[0];
    }
  }

  /** The victim is a cached key; which one depends on the policy. */
  lemma VictimSpec<V>(s: CacheState<V>, lim: Limits, now: int)
    requires Shaped(s) && s.keys != []
    ensures Victim(s, lim, now) in s.entries
    ensures lim.policy == Lru ==> Victim(s, lim, now) == s.accessOrder[0]
    ensures lim.policy == Lfu ==> forall k :: k in s.entries ==>
      s.entries[k].accessCount >= s.entries[Victim(s, lim, now)].accessCount
    ensures lim.policy == Fifo ==> forall k :: k in s.entries ==>
      s.entries[k].createdAt >= s.entries[Victim(s, lim, now)].createdAt
    ensures lim.policy == Ttl && (exists k :: k in s.entries && Expired(s.entries[k], now)) ==>
      Expired(s.entries[Victim(s, lim, now)], now)
  {
    var v := Victim(s, lim, now);
    match lim.policy {
      case Lru =>
        assert s.keys[0] in s.accessOrder;
      case Lfu =>
        var ws := Counts(s);
        var i := FirstMin(ws, 0);
        forall k | k in s.entries ensures s.entries[k].accessCount >= s.entries[v].accessCount {
          var j :| 0 <= j < |s.keys| && s.keys[j] == k;
          assert ws[j] >= ws[i];
        }
      case Fifo =>
        var ws := Births(s);
        var i := FirstMin(ws, 0);
        forall k | k in s.entries ensures s.entries[k].createdAt >= s.entries[v].createdAt {
          var j :| 0 <= j < |s.keys| && s.keys[j] == k;
          assert ws[j] >= ws[i];
        }
      case Ttl =>
        var p := ExpiredAt(s.entries, now);
        var f := Filter(s.keys, p);
        FilterMembers(s.keys, p);
        if f != [] {
          assert f[0] in f;
        } else {
          assert s.keys[0] in s.keys;
        }
        if exists k :: k in s.entries && Expired(s.entries[k], now) {
          var k :| k in s.entries && Expired(s.entries[k], now);
          assert p(k) && k in s.keys;
        }
      case Random =>
    }
  }

  /** Among several expired entries, TTL eviction takes the first in insertion order. */
  lemma TtlVictimIsFirstExpired<V>(s: CacheState<V>, lim: Limits, now: int, j: nat)
    requires Shaped(s) && lim.policy == Ttl
    requires j < |s.keys| && Expired(s.entries[s.keys[j]], now)
    ensures exists i :: 0 <= i <= j && s.keys[i] == Victim(s, lim, now)
    ensures forall l :: 0 <= l < |s.keys| && s.keys[l] == Victim(s, lim, now) ==>
      forall m :: 0 <= m < l ==> !Expired(s.entries[s.keys[m]], now)
  {
    var p := ExpiredAt(s.entries, now);
    assert p(s.keys[j]);
    var f := Filter(s.keys, p);
    FilterMembers(s.keys, p);
    FilterFirst(s.keys, p);
    var i :| 0 <= i < |s.keys| && s.keys[i] == f[0] && p(s.keys[i]) && forall m :: 0 <= m < i ==> !p(s.keys[m]);
    assert i <= j;
    forall l | 0 <= l < |s.keys| && s.keys[l] == Victim(s, lim, now)
      ensures forall m :: 0 <= m < l ==> !Expired(s.entries[s.keys[m]], now)
    {
      assert l == i;
      forall m | 0 <= m < l ensures !Expired(s.entries[s.keys[m]], now) {
        assert !p(s.keys[m]);
      }
    }
  }

  lemma EvictShrinks<V>(s: CacheState<V>, lim: Limits, now: int)
    requires Shaped(s) && s.keys != []
    ensures Shaped(EvictStep(s, lim, now))
    ensures |EvictStep(s, lim, now).keys| == |s.keys| - 1
  {
    VictimSpec(s, lim, now);
    DeleteKeepsShaped(s, Victim(s, lim, now));
  }

  /** `_evict_one` on a non-empty cache removes the victim, keeps the counters right and counts one eviction. */
  lemma EvictKeepsConsistent<V>(s: CacheState<V>, lim: Limits, now: int)
    requires Consistent(s) && s.keys != []
    ensures Consistent(EvictStep(s, lim, now))
    ensures EvictStep(s, lim, now).entries == s.entries - {Victim(s, lim, now)}
    ensures |EvictStep(s, lim, now).keys| == |s.keys| - 1
    ensures EvictStep(s, lim, now).stats.evictions == s.stats.evictions + 1
  {
    VictimSpec(s, lim, now);
    DeleteKeepsConsistent(s, Victim(s, lim, now));
    EvictShrinks(s, lim, now);
  }

  /**
   * With non-negative limits and right counters, `_enforce_limits` stops,
   * within both limits; it only removed entries, one eviction each.
   */
  lemma {:induction false} EnforceWithinLimits<V>(s: CacheState<V>, lim: Limits, now: int)
    requires Consistent(s) && lim.maxSize >= 0 && lim.maxMemory >= 0
    ensures Enforce(s, lim, now).Some?
    ensures var r := Enforce(s, lim, now).value;
      && Consistent(r)
      && WithinLimits(r, lim)
      && (forall k :: k in r.entries ==> k in s.entries && r.entries[k] == s.entries[k])
      && r.stats.evictions == s.stats.evictions + (|s.keys| - |r.keys|)
    decreases |s.keys|
  {
    if !WithinLimits(s, lim) {
      ShapedCount(s);
      if s.keys == [] {
        assert false;
      }
      EvictKeepsConsistent(s, lim, now);
      EnforceWithinLimits(EvictStep(s, lim, now), lim, now);
    }
  }

  /**
   * As written, `MemoryCache` accepts a negative limit, and then
   * `_enforce_limits` never stops: no state, not even the empty one, is
   * within it, and evicting from an empty cache changes nothing.
   */
  lemma {:induction false} NegativeLimitNeverSettles<V>(s: CacheState<V>, lim: Limits, now: int)
    requires Consistent(s) && !Sane(lim)
    ensures Enforce(s, lim, now) == None
    decreases |s.keys|
  {
    ShapedCount(s);
    if s.keys != [] {
      EvictKeepsConsistent(s, lim, now);
      NegativeLimitNeverSettles(EvictStep(s, lim, now), lim, now);
    }
  }

  /** A cache holding one entry that fits on its own is within its limits. */
  lemma SoleEntryFits<V>(s: CacheState<V>, lim: Limits, key: string)
    requires Consistent(s) && lim.maxSize >= 1
    requires s.accessOrder == [key] && s.entries[key].size <= lim.maxMemory
    ensures WithinLimits(s, lim)
  {
    ShapedCount(s);
    assert s.keys[0] in s.entries;
    assert s.keys == [key];
    assert SizeSum(s.entries, s.keys) == s.entries[key].size + SizeSum(s.entries, []);
  }

  /**
   * Under LRU, evictions never take the most recently used key while it
   * fits on its own: each victim is the least recent key, and once the key
   * is alone the cache is within its limits.
   */
  lemma {:induction false} LruEnforceKeepsLast<V>(s: CacheState<V>, lim: Limits, now: int, key: string)
    requires Consistent(s) && Sane(lim) && lim.policy == Lru && lim.maxSize >= 1
    requires s.accessOrder != [] && s.accessOrder[|s.accessOrder| - 1] == key
    requires s.entries[key].size <= lim.maxMemory
    ensures Enforce(s, lim, now).Some?
    ensures key in Enforce(s, lim, now).value.entries
    ensures Enforce(s, lim, now).value.entries[key] == s.entries[key]
    decreases |s.keys|
  {
    EnforceWithinLimits(s, lim, now);
    if !WithinLimits(s, lim) {
      ShapedCount(s);
      var n := |s.accessOrder|;
      if n == 1 {
        SoleEntryFits(s, lim, key);
        assert false;
      }
      EvictKeepsConsistent(s, lim, now);
      LruEvictKeepsLast(s, lim, now, key);
      LruEnforceKeepsLast(EvictStep(s, lim, now), lim, now, key);
    }
  }

  /** One LRU eviction from a cache of two or more keys leaves the most recent key last and its entry as it was. */
  lemma LruEvictKeepsLast<V>(s: CacheState<V>, lim: Limits, now: int, key: string)
    requires Consistent(s) && lim.policy == Lru
    requires |s.accessOrder| > 1 && s.accessOrder[|s.accessOrder| - 1] == key
    ensures EvictStep(s, lim, now).accessOrder != []
    ensures EvictStep(s, lim, now).accessOrder[|EvictStep(s, lim, now).accessOrder| - 1] == key
    ensures key in EvictStep(s, lim, now).entries && EvictStep(s, lim, now).entries[key] == s.entries[key]
  {
    var n := |s.accessOrder|;
    var victim := s.accessOrder[0];
    assert victim != key by {
      assert s.accessOrder[0] != s.accessOrder[n - 1];
    }
    assert key in s.keys;
    assert Victim(s, lim, now) == victim;
    var r := EvictStep(s, lim, now);
    assert r.accessOrder == Without(s.accessOrder, victim);
    assert r.entries == s.entries - {victim};
    WithoutKeepsLast(s.accessOrder, victim);
  }

  /**
   * Under LRU, storing a new key whose entry fits on its own and has not
   * expired makes it readable at once: the very next `get` returns its value.
   */
  lemma SetThenGetUnderLru<V>(s: CacheState<V>, key: string, e: Entry<V>, lim: Limits, now: int)
    requires Consistent(s) && Sane(lim) && lim.policy == Lru && lim.maxSize >= 1
    requires key !in s.entries && e.size <= lim.maxMemory && !Expired(e, now)
    ensures GetStep(SetStep(s, key, e, lim, now), key, now, Lru).1 == Some(e.value)
  {
    var t := StoreStep(s, key, e);
    StoreKeepsConsistent(s, key, e);
    assert key !in s.accessOrder;
    LruEnforceKeepsLast(t, lim, now, key);
  }

  /** `delete_by_tags`' deletions keep the counters right and remove exactly the doomed keys. */
  lemma {:induction false} DeleteAllKeepsConsistent<V>(s: CacheState<V>, doomed: seq<string>)
    requires Consistent(s)
    ensures Consistent(DeleteAll(s, doomed))
    ensures DeleteAll(s, doomed).entries == s.entries - (set k | k in doomed)
    decreases |doomed|
  {
    if doomed != [] {
      var first := doomed[0];
      var t := DeleteStep(s, first).0;
      DeleteKeepsConsistent(s, first);
      assert t.entries == s.entries - {first};
      DeleteAllKeepsConsistent(t, doomed[1..]);
      var rest := set k | k in doomed[1..];
      assert (set k | k in doomed) == {first} + rest;
      MapMinusTwice(s.entries, first, rest);
    }
  }

  /** Removing one key and then a set is removing both at once. */
  lemma MapMinusTwice<V>(m: map<string, Entry<V>>, first: string, rest: set<string>)
    ensures (m - {first}) - rest == m - ({first} + rest)
  {
    assert ((m - {first}) - rest).Keys == (m - ({first} + rest)).Keys;
  }

  /** Removing a set of present keys from a map removes that many entries. */
  lemma MapMinusCard<V>(m: map<string, Entry<V>>, gone: set<string>)
    requires gone <= m.Keys
    ensures |m - gone| == |m| - |gone|
  {
    assert (m - gone).Keys == m.Keys - gone;
    assert m.Keys == (m.Keys - gone) + gone;
  }

  /**
   * `delete_by_tags` removes exactly the entries carrying one of the tags,
   * keeps every other entry as it was, and returns how many it removed.
   */
  lemma DeleteByTagsSpec<V>(s: CacheState<V>, tags: seq<string>)
    requires Consistent(s)
    ensures var doomed := Filter(s.keys, TaggedIn(s.entries, tags));
      && Consistent(DeleteAll(s, doomed))
      && (forall k :: k in DeleteAll(s, doomed).entries <==> k in s.entries && !Tagged(s.entries[k], tags))
      && (forall k :: k in DeleteAll(s, doomed).entries ==> DeleteAll(s, doomed).entries[k] == s.entries[k])
      && |doomed| == |s.entries| - |DeleteAll(s, doomed).entries|
  {
    var p := TaggedIn(s.entries, tags);
    var doomed := Filter(s.keys, p);
    var gone := set k | k in doomed;
    DeleteAllKeepsConsistent(s, doomed);
    FilterMembers(s.keys, p);
    assert forall k :: k in gone <==> k in s.entries && Tagged(s.entries[k], tags) by {
      forall k ensures k in gone <==> k in s.entries && Tagged(s.entries[k], tags) {
        assert k in s.entries && Tagged(s.entries[k], tags) ==> p(k);
      }
    }
    FilterDistinct(s.keys, p);
    DistinctCard(doomed);
    MapMinusCard(s.entries, gone);
  }

  // ---------------------------------------------------------------------
  // The cache object
  // ---------------------------------------------------------------------

  class MemoryCache<V> {
    const maxSize: int
    const maxMemory: int
    const policy: EvictionPolicy
    /** Stands for `random.choice`: the position it picks, taken modulo the number of keys. */
    const pick: seq<string> -> nat
    var entries: map<string, Entry<V>>
    var keys: seq<string>
    var accessOrder: seq<string>
    var stats: Stats

    function State(): CacheState<V>
      reads this
    {
      CacheState(entries, keys, accessOrder, stats)
    }

    function Bounds(): Limits {
      Limits(maxSize, maxMemory, policy, pick)
    }

    ghost predicate Valid()
      reads this
    {
      maxSize >= 0 && maxMemory >= 0 && Consistent(State())
    }

    constructor(maxSize: int, maxMemory: int, policy: EvictionPolicy, pick: seq<string> -> nat)
      requires maxSize >= 0 && maxMemory >= 0
      ensures Valid() && State() == Empty()
      ensures this.maxSize == maxSize && this.maxMemory == maxMemory && this.policy == policy && this.pick == pick
    {
      this.maxSize := maxSize;
      this.maxMemory := maxMemory;
      this.policy := policy;
      this.pick := pick;
      entries := map[];
      keys := [];
      accessOrder := [];
      stats := NoStats;
    }

    method Get(key: string, now: int) returns (r: Option<V>)
      requires Valid()
      modifies this
      ensures State() == GetStep(old(State()), key, now, policy).0
      ensures r == GetStep(old(State()), key, now, policy).1
      ensures Valid()
    {
      GetKeepsConsistent(State(), key, now, policy);
      if key !in entries {
        stats := stats.(misses := stats.misses + 1);
        return None;
      }
      if Expired(entries[key], now) {
        var _ := Delete(key);
        stats := stats.(misses := stats.misses + 1, evictions := stats.evictions + 1);
        return None;
      }
      var v := Hit(key, now);
      return Some(v);
    }

    /** A `get` that finds a live entry: it is touched and, under LRU, its key becomes the most recent. */
    method Hit(key: string, now: int) returns (v: V)
      requires Valid() && key in entries && !Expired(entries[key], now)
      modifies this
      ensures State() == GetStep(old(State()), key, now, policy).0
      ensures Some(v) == GetStep(old(State()), key, now, policy).1
      ensures Valid()
    {
      GetKeepsConsistent(State(), key, now, policy);
      var entry := entries[key];
      entries := entries[key := Touch(entry, now)];
      if policy == Lru {
        accessOrder := Without(accessOrder, key) + [key];
      }
      stats := stats.(hits := stats.hits + 1);
      return entry.value;
    }

    /** `set` with the entry's size given; always reports success. */
    method Set(key: string, value: V, ttl: Option<int>, tags: seq<string>, size: nat, now: int) returns (ok: bool)
      requires Valid()
      modifies this
      ensures Valid() && ok
      ensures State() == SetStep(old(State()), key, Entry(value, now, now, 0, ttl, size, tags), Bounds(), now)
      ensures WithinLimits(State(), Bounds())
    {
      var entry := Entry(value, now, now, 0, ttl, size, tags);
      ghost var stored := StoreStep(State(), key, entry);
      StoreKeepsConsistent(State(), key, entry);
      if key in entries {
        stats := stats.(totalSize := stats.totalSize - entries[key].size);
      } else {
        stats := stats.(entryCount := stats.entryCount + 1);
        keys := keys + [key];
      }
      entries := entries[key := entry];
      if key !in accessOrder {
        accessOrder := accessOrder + [key];
      }
      stats := stats.(totalSize := stats.totalSize + entry.size);
      assert State() == stored;
      EnforceLimits(now);
      return true;
    }

    method Delete(key: string) returns (found: bool)
      requires Valid()
      modifies this
      ensures State() == DeleteStep(old(State()), key).0
      ensures found == DeleteStep(old(State()), key).1
      ensures Valid()
    {
      ghost var s := State();
      DeleteKeepsConsistent(s, key);
      if key in entries {
        assert key in accessOrder;
        var entry := entries[key];
        entries := entries - {key};
        keys := Without(keys, key);
        if key in accessOrder {
          accessOrder := Without(accessOrder, key);
        }
        stats := stats.(totalSize := stats.totalSize - entry.size, entryCount := stats.entryCount - 1);
        assert accessOrder == Without(s.accessOrder, key) && stats == DeleteStep(s, key).0.stats;
        return true;
      }
      return false;
    }

    /** `clear`: every entry and every counter goes, hits and misses included. */
    method Clear() returns (ok: bool)
      requires Valid()
      modifies this
      ensures Valid() && ok && State() == Empty()
    {
      entries := map[];
      keys := [];
      accessOrder := [];
      stats := NoStats;
      return true;
    }

    /** `exists`: true exactly when a `get` at the same time would hit. */
    method Exists(key: string, now: int) returns (b: bool)
      requires Valid()
      ensures b <==> GetStep(State(), key, now, policy).1.Some?
    {
      if key !in entries {
        return false;
      }
      return !Expired(entries[key], now);
    }

    /** `get_by_tags`: the values of the unexpired entries that carry one of the tags. */
    method GetByTags(tags: seq<string>, now: int) returns (result: map<string, V>)
      requires Valid()
      ensures forall k :: k in result <==> k in entries && !Expired(entries[k], now) && Tagged(entries[k], tags)
      ensures forall k :: k in result ==> result[k] == entries[k].value
    {
      result := map[];
      var i := 0;
      while i < |keys|
        invariant 0 <= i <= |keys|
        invariant forall k :: k in result <==>
          k in keys[..i] && !Expired(entries[k], now) && Tagged(entries[k], tags)
        invariant forall k :: k in result ==> k in entries && result[k] == entries[k].value
      {
        var key := keys[i];
        var entry := entries[key];
        assert keys[..i + 1] == keys[..i] + [key];
        if !Expired(entry, now) && exists t :: t in tags && t in entry.tags {
          result := result[key := entry.value];
        }
        i := i + 1;
      }
      assert keys[..i] == keys;
    }

    /** `delete_by_tags`: collect the tagged keys in order, then delete them one by one. */
    method DeleteByTags(tags: seq<string>) returns (n: nat)
      requires Valid()
      modifies this
      ensures State() == DeleteAll(old(State()), Filter(old(keys), TaggedIn(old(entries), tags)))
      ensures n == |Filter(old(keys), TaggedIn(old(entries), tags))|
      ensures Valid()
    {
      var doomed := TaggedKeys(tags);
      DeleteKeys(doomed);
      return |doomed|;
    }

    /** The first half of `delete_by_tags`: the keys whose entries carry one of `tags`, in insertion order. */
    method TaggedKeys(tags: seq<string>) returns (doomed: seq<string>)
      requires Valid()
      ensures doomed == Filter(keys, TaggedIn(entries, tags))
    {
      var i := 0;
      doomed := [];
      while i < |keys|
        invariant 0 <= i <= |keys|
        invariant doomed == Filter(keys[..i], TaggedIn(entries, tags))
      {
        var key := keys[i];
        assert keys[..i + 1][..i] == keys[..i];
        assert key in entries;
        if exists t :: t in tags && t in entries[key].tags {
          doomed := doomed + [key];
        }
        i := i + 1;
      }
      assert keys[..i] == keys;
    }

    /** The second half of `delete_by_tags`: `delete` on each collected key in turn. */
    method DeleteKeys(doomed: seq<string>)
      requires Valid()
      modifies this
      ensures State() == DeleteAll(old(State()), doomed)
      ensures Valid()
    {
      ghost var start := State();
      var j := 0;
      while j < |doomed|
        invariant 0 <= j <= |doomed|
        invariant Valid()
        invariant DeleteAll(State(), doomed[j..]) == DeleteAll(start, doomed)
      {
        assert doomed[j..][1..] == doomed[j + 1..];
        var _ := Delete(doomed[j]);
        j := j + 1;
      }
    }

    /** `_evict_one`. */
    method EvictOne(now: int)
      requires Valid()
      modifies this
      ensures State() == EvictStep(old(State()), Bounds(), now)
      ensures Valid()
    {
      ShapedCount(State());
      if entries == map[] {
        return;
      }
      EvictKeepsConsistent(State(), Bounds(), now);
      var key := Victim(State(), Bounds(), now);
      var _ := Delete(key);
      stats := stats.(evictions := stats.evictions + 1);
    }

    /** `_enforce_limits`: evict one entry at a time while over either limit. */
    method EnforceLimits(now: int)
      requires Valid()
      modifies this
      ensures Enforce(old(State()), Bounds(), now) == Some(State())
      ensures Valid() && WithinLimits(State(), Bounds())
    {
      while |entries| > maxSize || stats.totalSize > maxMemory
        invariant Valid()
        invariant Enforce(State(), Bounds(), now) == Enforce(old(State()), Bounds(), now)
        decreases |keys|
      {
        ShapedCount(State());
        EvictKeepsConsistent(State(), Bounds(), now);
        EvictOne(now);
      }
    }
  }

  // ---------------------------------------------------------------------
  // The expired read as written
  // ---------------------------------------------------------------------

  /** The scenario below: room for 100 bytes, a 60-byte entry that expires after one tick, then a 50-byte one. */
  const DemoLimits := Limits(10, 100, Lru, ks => 0)
  const DemoA := Entry(1, 0, 0, 0, Some(1), 60, [])
  const DemoB := Entry(2, 2, 2, 0, None, 50, [])

  /**
   * As written, an expired read leaves its entry's size in `total_size`:
   * reading the 60-byte entry after expiry and then storing 50 bytes evicts
   * the new entry at once, although it fits in the now empty cache.
   */
  lemma ExpiredReadLeavesPhantomSize()
    ensures var s1 := CacheState(map["a" := DemoA], ["a"], ["a"], Stats(0, 0, 0, 60, 1));
      var w := GetStepAsWritten(s1, "a", 2, Lru).0;
      && w.entries == map[] && w.stats.totalSize == 60
      && Enforce(StoreStep(w, "b", DemoB), DemoLimits, 2) == Some(CacheState(map[], [], [], Stats(0, 1, 2, 60, 1)))
  {
    var s1 := CacheState(map["a" := DemoA], ["a"], ["a"], Stats(0, 0, 0, 60, 1));
    assert Without(["a"], "a") == [];
    var w := GetStepAsWritten(s1, "a", 2, Lru).0;
    assert w == CacheState(map[], [], [], Stats(0, 1, 1, 60, 1));
    var w2 := StoreStep(w, "b", DemoB);
    assert w2 == CacheState(map["b" := DemoB], ["b"], ["b"], Stats(0, 1, 1, 110, 2));
    assert !WithinLimits(w2, DemoLimits);
    assert Victim(w2, DemoLimits, 2) == "b";
    assert Without(["b"], "b") == [];
    var w3 := EvictStep(w2, DemoLimits, 2);
    assert w3 == CacheState(map[], [], [], Stats(0, 1, 2, 60, 1));
    assert WithinLimits(w3, DemoLimits);
  }

  /** Read through the delete accounting, the same sequence keeps the 50-byte entry. */
  lemma ExpiredReadCorrected()
    ensures var s1 := CacheState(map["a" := DemoA], ["a"], ["a"], Stats(0, 0, 0, 60, 1));
      var c := GetStep(s1, "a", 2, Lru).0;
      && c.entries == map[] && c.stats.totalSize == 0
      && Enforce(StoreStep(c, "b", DemoB), DemoLimits, 2) == Some(CacheState(map["b" := DemoB], ["b"], ["b"], Stats(0, 1, 1, 50, 1)))
  {
    var s1 := CacheState(map["a" := DemoA], ["a"], ["a"], Stats(0, 0, 0, 60, 1));
    assert Without(["a"], "a") == [];
    var c := GetStep(s1, "a", 2, Lru).0;
    assert c == CacheState(map[], [], [], Stats(0, 1, 1, 0, 0));
    var c2 := StoreStep(c, "b", DemoB);
    assert c2 == CacheState(map["b" := DemoB], ["b"], ["b"], Stats(0, 1, 1, 50, 1));
    assert WithinLimits(c2, DemoLimits);
  }
}
