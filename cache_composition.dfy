/**
 * What Python/utils/cache_manager.py builds on top of `MemoryCache`: the
 * recorded-operation batch, the multi-level cache that promotes hits to the
 * faster levels, the registry of named caches, and the node lookup on the
 * consistent-hash ring of the distributed cache.
 */
module CacheComposition {
  import opened Wrappers
  import opened MemoryCaching

  // ---------------------------------------------------------------------
  // CacheBatch
  // ---------------------------------------------------------------------

  /** A recorded operation; the size of a stored value is given with it. */
  datatype BatchOp<V> =
    | GetOp(key: string)
    | SetOp(key: string, value: V, ttl: Option<int>, size: nat)
    | DeleteOp(key: string)

  /** What one operation returns: the value read, or the success flag. */
  datatype OpResult<V> = Fetched(value: Option<V>) | Flag(ok: bool)

  /** One recorded operation applied to a cache; it keeps the counters right. */
  function Apply<V>(s: CacheState<V>, op: BatchOp<V>, lim: Limits, now: int): (r: (CacheState<V>, OpResult<V>))
    requires Consistent(s) && Sane(lim)
    ensures Consistent(r.0)
    ensures r.1.Fetched? <==> op.GetOp?
    ensures op.SetOp? ==> r.1 == Flag(true)
  {
    match op
    case GetOp(k) =>
      GetKeepsConsistent(s, k, now, lim.policy);
      var g := GetStep(s, k, now, lim.policy);
      (g.0, Fetched(g.1))
    case SetOp(k, v, ttl, size) =>
      (SetStep(s, k, Entry(v, now, now, 0, ttl, size, []), lim, now), Flag(true))
    case DeleteOp(k) =>
      DeleteKeepsConsistent(s, k);
      var d := DeleteStep(s, k);
      (d.0, Flag(d.1))
  }

  /**
   * The state and results of feeding `ops`, in order, through `step`: each
   * operation meets the state the ones before it left, and yields one result.
   */
  ghost function Run<S, O, R>(step: (S, O) -> (S, R), s: S, ops: seq<O>): (r: (S, seq<R>))
    ensures |r.1| == |ops|
    decreases |ops|
  {
    if ops == [] then (s, [])
    else
      var prev := Run(step, s, ops[..|ops| - 1]);
      var last := step(prev.0, ops[|ops| - 1]);
      (last.0, prev.1 + [last.1])
  }

  /** Running two sequences back to back is running them as one. */
  lemma {:induction false} RunAppend<S, O, R>(step: (S, O) -> (S, R), s: S, a: seq<O>, b: seq<O>)
    ensures Run(step, s, a + b) == (Run(step, Run(step, s, a).0, b).0, Run(step, s, a).1 + Run(step, Run(step, s, a).0, b).1)
    decreases |b|
  {
    var first := Run(step, s, a);
    if b == [] {
      assert a + b == a && first.1 + [] == first.1;
    } else {
      var init := b[..|b| - 1];
      assert (a + b)[..|a + b| - 1] == a + init && (a + b)[|a + b| - 1] == b[|b| - 1];
      RunAppend(step, s, a, init);
      var mid := Run(step, first.0, init);
      var last := step(mid.0, b[|b| - 1]);
      assert (first.1 + mid.1) + [last.1] == first.1 + (mid.1 + [last.1]);
    }
  }

  /** The `i`-th result is what the `i`-th operation yields on the state the first `i` left. */
  lemma {:induction false} RunResultAt<S, O, R>(step: (S, O) -> (S, R), s: S, ops: seq<O>, i: nat)
    requires i < |ops|
    ensures Run(step, s, ops).1[i] == step(Run(step, s, ops[..i]).0, ops[i]).1
    decreases |ops|
  {
    var init := ops[..|ops| - 1];
    if i < |ops| - 1 {
      RunResultAt(step, s, init, i);
      assert init[..i] == ops[..i] && init[i] == ops[i];
    } else {
      assert ops[..i] == init;
    }
  }

  /**
   * `Apply` as a step of `Run`. A state with wrong counters never arises
   * from a `MemoryCache`; such a state is left alone.
   */
  ghost function BatchStep<V>(lim: Limits, now: int): (CacheState<V>, BatchOp<V>) -> (CacheState<V>, OpResult<V>) {
    (s: CacheState<V>, op: BatchOp<V>) => if Consistent(s) && Sane(lim) then Apply(s, op, lim, now) else (s, Flag(false))
  }

  /** `execute` as a function: the recorded operations applied in order. */
  ghost function Replay<V>(s: CacheState<V>, ops: seq<BatchOp<V>>, lim: Limits, now: int): (r: (CacheState<V>, seq<OpResult<V>>))
    ensures |r.1| == |ops|
  {
    Run(BatchStep(lim, now), s, ops)
  }

  /** Replaying from a consistent state keeps it consistent at every step; the last step is `Apply`. */
  lemma {:induction false} ReplayNext<V>(s: CacheState<V>, ops: seq<BatchOp<V>>, lim: Limits, now: int)
    requires Consistent(s) && Sane(lim)
    ensures Consistent(Replay(s, ops, lim, now).0)
    ensures ops != [] ==>
      var prev := Replay(s, ops[..|ops| - 1], lim, now);
      Consistent(prev.0) && Replay(s, ops, lim, now) == (Apply(prev.0, ops[|ops| - 1], lim, now).0, prev.1 + [Apply(prev.0, ops[|ops| - 1], lim, now).1])
    decreases |ops|
  {
    if ops != [] {
      ReplayNext(s, ops[..|ops| - 1], lim, now);
    }
  }

  /**
   * Each result is what its operation returns on the state the ones before
   * it left; so there is a value for each read and success for each store.
   */
  lemma ReplayResults<V>(s: CacheState<V>, ops: seq<BatchOp<V>>, lim: Limits, now: int, i: nat)
    requires Consistent(s) && Sane(lim) && i < |ops|
    ensures Consistent(Replay(s, ops[..i], lim, now).0)
    ensures Replay(s, ops, lim, now).1[i] == Apply(Replay(s, ops[..i], lim, now).0, ops[i], lim, now).1
    ensures Replay(s, ops, lim, now).1[i].Fetched? <==> ops[i].GetOp?
    ensures ops[i].SetOp? ==> Replay(s, ops, lim, now).1[i] == Flag(true)
  {
    RunResultAt(BatchStep(lim, now), s, ops, i);
    ReplayNext(s, ops[..i], lim, now);
  }

  /** Replaying two recorded runs back to back is replaying them as one batch. */
  lemma ReplayAppend<V>(s: CacheState<V>, a: seq<BatchOp<V>>, b: seq<BatchOp<V>>, lim: Limits, now: int)
    ensures Replay(s, a + b, lim, now) == (Replay(Replay(s, a, lim, now).0, b, lim, now).0,
                                           Replay(s, a, lim, now).1 + Replay(Replay(s, a, lim, now).0, b, lim, now).1)
  {
    RunAppend(BatchStep(lim, now), s, a, b);
  }

  /** `CacheBatch`: operations are recorded, then run in order against one cache. */
  class CacheBatch<V> {
    const cache: MemoryCache<V>
    var operations: seq<BatchOp<V>>

    constructor(cache: MemoryCache<V>)
      ensures this.cache == cache && operations == []
    {
      this.cache := cache;
      operations := [];
    }

    method Get(key: string)
      modifies this`operations
      ensures operations == old(operations) + [GetOp(key)]
    {
      operations := operations + [GetOp(key)];
    }

    method Set(key: string, value: V, ttl: Option<int>, size: nat)
      modifies this`operations
      ensures operations == old(operations) + [SetOp(key, value, ttl, size)]
    {
      operations := operations + [SetOp(key, value, ttl, size)];
    }

    method Delete(key: string)
      modifies this`operations
      ensures operations == old(operations) + [DeleteOp(key)]
    {
      operations := operations + [DeleteOp(key)];
    }

    /** `execute`: replay every recorded operation, collect the results, forget the operations. */
    method Execute(now: int) returns (results: seq<OpResult<V>>)
      requires cache.Valid()
      modifies this`operations, cache
      ensures cache.Valid() && operations == []
      ensures cache.State() == Replay(old(cache.State()), old(operations), cache.Bounds(), now).0
      ensures results == Replay(old(cache.State()), old(operations), cache.Bounds(), now).1
    {
      ghost var start := cache.State();
      var ops := operations;
      var lim := cache.Bounds();
      results := [];
      var i := 0;
      while i < |ops|
        invariant 0 <= i <= |ops|
        invariant cache.Valid() && Sane(lim)
        invariant cache.State() == Replay(start, ops[..i], lim, now).0
        invariant results == Replay(start, ops[..i], lim, now).1
      {
        var x := Perform(ops[i], now);
        assert ops[..i + 1][..i] == ops[..i];
        ReplayNext(start, ops[..i + 1], lim, now);
        results := results + [x];
        i := i + 1;
      }
      assert ops[..i] == ops;
      operations := [];
    }

    /** One recorded operation of `execute`, sent to the cache's own method. */
    method Perform(op: BatchOp<V>, now: int) returns (x: OpResult<V>)
      requires cache.Valid()
      modifies cache
      ensures cache.Valid()
      ensures cache.State() == Apply(old(cache.State()), op, cache.Bounds(), now).0
      ensures x == Apply(old(cache.State()), op, cache.Bounds(), now).1
    {
      match op {
        case GetOp(k) =>
          var v := cache.Get(k, now);
          x := Fetched(v);
        case SetOp(k, v, ttl, size) =>
          var ok := cache.Set(k, v, ttl, [], size, now);
          x := Flag(ok);
        case DeleteOp(k) =>
          var found := cache.Delete(k);
          x := Flag(found);
      }
    }
  }

  // ---------------------------------------------------------------------
  // MultiLevelCache
  // ---------------------------------------------------------------------

  datatype CacheLevel = L1 | L2 | L3 {
    function Rank(): nat {
      match this
      case L1 => 1
      case L2 => 2
      case L3 => 3
    }
  }

  /** The levels in the order `get` visits them: by their value. */
  const LevelOrder: seq<CacheLevel> := [L1, L2, L3]

  /** One level: a memory cache and the limits it was built with. */
  datatype LevelCache<V> = LevelCache(state: CacheState<V>, lim: Limits)

  /** A `get` on the level would hit: the key is there and has not expired. */
  predicate Live<V>(c: LevelCache<V>, key: string, now: int) {
    key in c.state.entries && !Expired(c.state.entries[key], now)
  }

  /**
   * The first configured level, from position `from` of `LevelOrder` on,
   * that holds a live entry for the key: every configured level before it
   * misses.
   */
  function FirstLive<V>(levels: map<CacheLevel, LevelCache<V>>, key: string, now: int, from: nat): (r: Option<CacheLevel>)
    requires from <= |LevelOrder|
    ensures r.Some? ==> r.value in levels && Live(levels[r.value], key, now)
    ensures r.Some? ==> exists i :: from <= i < |LevelOrder| && LevelOrder[i] == r.value
    ensures forall i :: from <= i < |LevelOrder| && LevelOrder[i] in levels && Live(levels[LevelOrder[i]], key, now) ==>
      r.Some? && r.value.Rank() <= LevelOrder[i].Rank()
    decreases |LevelOrder| - from
  {
    if from == |LevelOrder| then None
    else if LevelOrder[from] in levels && Live(levels[LevelOrder[from]], key, now) then Some(LevelOrder[from])
    else FirstLive(levels, key, now, from + 1)
  }

  /** `LevelOrder` lists the levels by increasing value, each once. */
  lemma LevelOrderRanks()
    ensures forall i :: 0 <= i < |LevelOrder| ==> LevelOrder[i].Rank() == i + 1
    ensures forall l: CacheLevel :: l in LevelOrder
  {
    forall l: CacheLevel ensures l in LevelOrder {
      match l {
        case L1 => assert LevelOrder[0] == l;
        case L2 => assert LevelOrder[1] == l;
        case L3 => assert LevelOrder[2] == l;
      }
    }
  }

  /** The entry a promotion stores: the value found, no time to live, no tags. */
  function Promoted<V>(value: V, size: nat, now: int): Entry<V> {
    Entry(value, now, now, 0, None, size, [])
  }

  /** A level as a `MemoryCache` keeps it: right counters, limits it can be built with. */
  ghost predicate LevelOk<V>(c: LevelCache<V>) {
    Consistent(c.state) && Sane(c.lim)
  }

  /** A `get` keeps a level well formed. */
  lemma GetKeepsLevelOk<V>(c: LevelCache<V>, key: string, now: int)
    ensures LevelOk(c) ==> LevelOk(c.(state := GetStep(c.state, key, now, c.lim.policy).0))
  {
    if LevelOk(c) {
      GetKeepsConsistent(c.state, key, now, c.lim.policy);
    }
  }

  /** The level after a `get` of the key, with the limits it had. */
  function ReadLevel<V>(c: LevelCache<V>, key: string, now: int): (r: LevelCache<V>)
    ensures LevelOk(c) ==> LevelOk(r)
    ensures r.lim == c.lim
  {
    GetKeepsLevelOk(c, key, now);
    c.(state := GetStep(c.state, key, now, c.lim.policy).0)
  }

  /** The level after the promotion stores the value found. */
  function PromoteLevel<V>(c: LevelCache<V>, key: string, value: V, size: nat, now: int): (r: LevelCache<V>)
    requires LevelOk(c)
    ensures LevelOk(r) && WithinLimits(r.state, r.lim) && r.lim == c.lim
  {
    c.(state := SetStep(c.state, key, Promoted(value, size, now), c.lim, now))
  }

  /** Every level is a well-formed memory cache. */
  ghost predicate LevelsOk<V>(levels: map<CacheLevel, LevelCache<V>>) {
    forall l :: l in levels ==> LevelOk(levels[l])
  }

  /** The configured levels among the first `n` of `LevelOrder` after a `get` of the key on each. */
  function ReadLevels<V>(levels: map<CacheLevel, LevelCache<V>>, key: string, now: int, n: nat): (r: map<CacheLevel, LevelCache<V>>)
    requires n <= |LevelOrder|
    ensures r.Keys == levels.Keys
  {
    if n == 0 then levels
    else
      var prev := ReadLevels(levels, key, now, n - 1);
      var l := LevelOrder[n - 1];
      if l in prev then prev[l := ReadLevel(prev[l], key, now)] else prev
  }

  /** The configured levels among the first `n` of `LevelOrder`, with `step` applied to each whose value is below `found`'s. */
  ghost function PromoteWith<V>(levels: map<CacheLevel, LevelCache<V>>, step: LevelCache<V> -> LevelCache<V>, found: CacheLevel, n: nat)
    : (r: map<CacheLevel, LevelCache<V>>)
    requires n <= |LevelOrder|
    ensures r.Keys == levels.Keys
  {
    if n == 0 then levels
    else
      var prev := PromoteWith(levels, step, found, n - 1);
      var l := LevelOrder[n - 1];
      if l in prev && l.Rank() < found.Rank() then prev[l := step(prev[l])] else prev
  }

  /** Storing the value found into one level (a level that is not well formed cannot arise from the class and is left as it is). */
  ghost function Promoter<V>(key: string, value: V, size: nat, now: int): LevelCache<V> -> LevelCache<V> {
    c => if LevelOk(c) then PromoteLevel(c, key, value, size, now) else c
  }

  /** The configured levels among the first `n` of `LevelOrder` after storing the value into those below `found`. */
  ghost function PromoteLevels<V>(levels: map<CacheLevel, LevelCache<V>>, key: string, value: V, found: CacheLevel, size: nat, now: int, n: nat)
    : (r: map<CacheLevel, LevelCache<V>>)
    requires n <= |LevelOrder|
    ensures r.Keys == levels.Keys
  {
    PromoteWith(levels, Promoter(key, value, size, now), found, n)
  }

  /** A level's value is its position in `LevelOrder`, counted from one. */
  lemma RankPlace(l: CacheLevel)
    ensures 1 <= l.Rank() <= |LevelOrder| && LevelOrder[l.Rank() - 1] == l
  {
  }

  /** Reading the first `n` levels reads each of those once and leaves the others alone. */
  lemma {:induction false} ReadLevelsAt<V>(levels: map<CacheLevel, LevelCache<V>>, key: string, now: int, n: nat, l: CacheLevel)
    requires n <= |LevelOrder| && l in levels
    ensures ReadLevels(levels, key, now, n)[l] == if l.Rank() <= n then ReadLevel(levels[l], key, now) else levels[l]
  {
    if n > 0 {
      RankPlace(l);
      ReadLevelsAt(levels, key, now, n - 1, l);
    }
  }

  /** The first `n` steps apply `step` to exactly the levels whose value is below `found`'s, once each. */
  lemma {:induction false} PromoteWithAt<V>(levels: map<CacheLevel, LevelCache<V>>, step: LevelCache<V> -> LevelCache<V>, found: CacheLevel, n: nat, l: CacheLevel)
    requires n <= |LevelOrder| && l in levels
    ensures PromoteWith(levels, step, found, n)[l]
      == if l.Rank() <= n && l.Rank() < found.Rank() then step(levels[l]) else levels[l]
  {
    if n > 0 {
      RankPlace(l);
      PromoteWithAt(levels, step, found, n - 1, l);
    }
  }

  /** Promotion changes exactly the levels whose value is below the one the hit came from, once each. */
  lemma PromoteLevelsAt<V>(levels: map<CacheLevel, LevelCache<V>>, key: string, value: V, found: CacheLevel, size: nat, now: int, n: nat, l: CacheLevel)
    requires n <= |LevelOrder| && LevelsOk(levels) && l in levels
    ensures PromoteLevels(levels, key, value, found, size, now, n)[l]
      == if l.Rank() <= n && l.Rank() < found.Rank() then PromoteLevel(levels[l], key, value, size, now) else levels[l]
  {
    PromoteWithAt(levels, Promoter(key, value, size, now), found, n, l);
  }

  /** One more step of `PromoteWith` updates at most the next level of `LevelOrder`, with `step`, and keeps the levels well formed when `step` does. */
  lemma PromoteNext<V>(start: map<CacheLevel, LevelCache<V>>, levels: map<CacheLevel, LevelCache<V>>,
                       step: LevelCache<V> -> LevelCache<V>, found: CacheLevel, i: nat)
    requires i < |LevelOrder| && levels == PromoteWith(start, step, found, i) && LevelsOk(levels)
    requires forall c :: LevelOk(c) ==> LevelOk(step(c))
    ensures LevelOrder[i] in levels && LevelOrder[i].Rank() < found.Rank() ==>
      PromoteWith(start, step, found, i + 1) == levels[LevelOrder[i] := step(levels[LevelOrder[i]])]
    ensures !(LevelOrder[i] in levels && LevelOrder[i].Rank() < found.Rank()) ==>
      PromoteWith(start, step, found, i + 1) == levels
    ensures LevelsOk(PromoteWith(start, step, found, i + 1))
  {
    var l := LevelOrder[i];
    if l in levels && l.Rank() < found.Rank() {
      var next := levels[l := step(levels[l])];
      forall m | m in levels ensures LevelOk(next[m]) {
        if m != l {
          assert next[m] == levels[m];
        }
      }
    }
  }

  /** The promotion step keeps a level well formed. */
  lemma PromoterKeepsOk<V>(key: string, value: V, size: nat, now: int)
    ensures forall c :: LevelOk(c) ==> LevelOk(Promoter(key, value, size, now)(c))
  {
  }

  /**
   * One more step of the reads `get` makes: the level read is the one it
   * started as, it hits exactly when its entry is live, and the hit returns
   * the stored value.
   */
  lemma ReadNext<V>(start: map<CacheLevel, LevelCache<V>>, levels: map<CacheLevel, LevelCache<V>>, key: string, now: int, i: nat)
    requires i < |LevelOrder| && levels == ReadLevels(start, key, now, i) && LevelsOk(levels)
    ensures var l := LevelOrder[i];
      l in levels ==>
        var c := levels[l];
        var v := GetStep(c.state, key, now, c.lim.policy).1;
        && c == start[l]
        && ReadLevels(start, key, now, i + 1) == levels[l := ReadLevel(c, key, now)]
        && LevelsOk(levels[l := ReadLevel(c, key, now)])
        && (v.Some? <==> Live(c, key, now))
        && (v.Some? ==> v.value == c.state.entries[key].value && FirstLive(start, key, now, i) == Some(l))
        && (v.None? ==> FirstLive(start, key, now, i) == FirstLive(start, key, now, i + 1))
    ensures var l := LevelOrder[i];
      l !in levels ==> ReadLevels(start, key, now, i + 1) == levels && FirstLive(start, key, now, i) == FirstLive(start, key, now, i + 1)
  {
    var l := LevelOrder[i];
    if l in levels {
      ReadLevelsAt(start, key, now, i, l);
    }
    LevelOrderRanks();
  }

  /** Reading keeps every level well formed. */
  lemma LevelsStayOk<V>(levels: map<CacheLevel, LevelCache<V>>, key: string, now: int, n: nat)
    requires n <= |LevelOrder| && LevelsOk(levels)
    ensures LevelsOk(ReadLevels(levels, key, now, n))
  {
    forall l | l in levels ensures LevelOk(ReadLevels(levels, key, now, n)[l]) {
      ReadLevelsAt(levels, key, now, n, l);
    }
  }

  /** What the read loop knows after `n` rounds: nothing found before the first live level, or the first live level found with its value. */
  ghost predicate ReadSoFar<V>(start: map<CacheLevel, LevelCache<V>>, key: string, now: int, n: nat, r: Option<V>)
    requires n <= |LevelOrder|
  {
    if r.None? then FirstLive(start, key, now, 0) == FirstLive(start, key, now, n)
    else 1 <= n && FirstLive(start, key, now, 0) == Some(LevelOrder[n - 1]) && LevelOrder[n - 1] in start
         && r.value == start[LevelOrder[n - 1]].state.entries[key].value
  }

  class MultiLevelCache<V> {
    var levels: map<CacheLevel, LevelCache<V>>
    var hits: nat
    var misses: nat

    ghost predicate Valid()
      reads this
    {
      LevelsOk(levels)
    }

    constructor()
      ensures Valid() && levels == map[] && hits == 0 && misses == 0
    {
      levels := map[];
      hits, misses := 0, 0;
    }

    /** `add_level`: the level is set to a fresh cache with the given limits, replacing any before. */
    method AddLevel(level: CacheLevel, lim: Limits)
      requires Valid() && Sane(lim)
      modifies this`levels
      ensures Valid() && levels == old(levels)[level := LevelCache(Empty(), lim)]
    {
      levels := levels[level := LevelCache(Empty(), lim)];
    }

    /**
     * `get`: read the levels in order of their value; the first hit is
     * returned and stored into every level with a smaller value. A miss
     * everywhere counts one miss; a hit counts one hit. `size` is the size
     * of the value found.
     */
    method Get(key: string, now: int, size: nat) returns (r: Option<V>)
      requires Valid()
      modifies this
      ensures Valid()
      ensures r.None? <==> FirstLive(old(levels), key, now, 0).None?
      ensures r.None? ==> misses == old(misses) + 1 && hits == old(hits)
      ensures r.Some? ==> hits == old(hits) + 1 && misses == old(misses)
      ensures r.None? ==> levels == ReadLevels(old(levels), key, now, |LevelOrder|)
      ensures forall f :: FirstLive(old(levels), key, now, 0) == Some(f) ==>
        && r == Some(old(levels)[f].state.entries[key].value)
        && levels == PromoteLevels(ReadLevels(old(levels), key, now, f.Rank()), key, r.value, f, size, now, |LevelOrder|)
    {
      var n;
      r, n := ReadInOrder(key, now);
      if r.Some? {
        LevelOrderRanks();
        PromoteToHigherLevels(key, r.value, LevelOrder[n - 1], size, now);
        hits := hits + 1;
      } else {
        misses := misses + 1;
      }
    }

    /**
     * The loop of `get`: read the levels in order until one hits. `n` is the
     * number of positions of `LevelOrder` visited; on a hit the last of them
     * is the first level holding a live entry.
     */
    method ReadInOrder(key: string, now: int) returns (r: Option<V>, n: nat)
      requires Valid()
      modifies this`levels
      ensures Valid() && n <= |LevelOrder| && levels == ReadLevels(old(levels), key, now, n)
      ensures r.None? <==> FirstLive(old(levels), key, now, 0).None?
      ensures r.None? ==> n == |LevelOrder|
      ensures r.Some? ==> 1 <= n && FirstLive(old(levels), key, now, 0) == Some(LevelOrder[n - 1])
                          && r.value == old(levels)[LevelOrder[n - 1]].state.entries[key].value
    {
      LevelOrderRanks();
      ghost var start := levels;
      r := None;
      n := 0;
      while n < |LevelOrder| && r.None?
        invariant 0 <= n <= |LevelOrder|
        invariant levels == ReadLevels(start, key, now, n)
        invariant LevelsOk(levels)
        invariant ReadSoFar(start, key, now, n, r)
      {
        r := ReadAt(start, n, key, now);
        n := n + 1;
      }
    }

    /** One round of the loop of `get`: read the level at position `i` of `LevelOrder`, if it is configured. */
    method ReadAt(ghost start: map<CacheLevel, LevelCache<V>>, i: nat, key: string, now: int) returns (r: Option<V>)
      requires i < |LevelOrder| && levels == ReadLevels(start, key, now, i) && LevelsOk(levels)
      modifies this`levels
      ensures levels == ReadLevels(start, key, now, i + 1) && LevelsOk(levels)
      ensures r.None? ==> FirstLive(start, key, now, i) == FirstLive(start, key, now, i + 1)
      ensures r.Some? ==> FirstLive(start, key, now, i) == Some(LevelOrder[i]) && LevelOrder[i] in start
                          && r.value == start[LevelOrder[i]].state.entries[key].value
    {
      var level := LevelOrder[i];
      ReadNext(start, levels, key, now, i);
      r := None;
      if level in levels {
        var c := levels[level];
        r := GetStep(c.state, key, now, c.lim.policy).1;
        levels := levels[level := ReadLevel(c, key, now)];
      }
    }

    /** `_promote_to_higher_levels`: store the value into every level whose value is below the one it was found at. */
    method PromoteToHigherLevels(key: string, value: V, found: CacheLevel, size: nat, now: int)
      requires Valid()
      modifies this`levels
      ensures Valid()
      ensures levels == PromoteLevels(old(levels), key, value, found, size, now, |LevelOrder|)
    {
      var i := 0;
      while i < |LevelOrder|
        invariant 0 <= i <= |LevelOrder|
        invariant levels == PromoteWith(old(levels), Promoter(key, value, size, now), found, i)
        invariant LevelsOk(levels)
      {
        PromoteAt(old(levels), i, key, value, found, size, now);
        i := i + 1;
      }
    }

    /** One turn of the promotion loop: the level at position `i` of `LevelOrder` gets the value when it is ranked above `found`. */
    method PromoteAt(ghost start: map<CacheLevel, LevelCache<V>>, i: nat, key: string, value: V, found: CacheLevel, size: nat, now: int)
      requires i < |LevelOrder| && levels == PromoteWith(start, Promoter(key, value, size, now), found, i) && LevelsOk(levels)
      modifies this`levels
      ensures levels == PromoteWith(start, Promoter(key, value, size, now), found, i + 1) && LevelsOk(levels)
    {
      PromoterKeepsOk(key, value, size, now);
      PromoteNext(start, levels, Promoter(key, value, size, now), found, i);
      var level := LevelOrder[i];
      if level in levels && level.Rank() < found.Rank() {
        levels := levels[level := PromoteLevel(levels[level], key, value, size, now)];
      }
    }
  }

  /** A multi-level `get` that misses everywhere has read every level once. */
  lemma MultiMissEffect<V>(levels: map<CacheLevel, LevelCache<V>>, key: string, now: int, l: CacheLevel)
    requires LevelsOk(levels) && FirstLive(levels, key, now, 0).None? && l in levels
    ensures !Live(levels[l], key, now)
    ensures ReadLevels(levels, key, now, |LevelOrder|)[l] == ReadLevel(levels[l], key, now)
  {
    LevelOrderRanks();
    ReadLevelsAt(levels, key, now, |LevelOrder|, l);
  }

  /**
   * The effect of a multi-level `get` that hits at level `f` on each level
   * `l`: levels after `f` are untouched, `f` was read, and every level
   * before `f` missed, was read and then given the value found.
   */
  lemma MultiHitEffect<V>(levels: map<CacheLevel, LevelCache<V>>, key: string, now: int, size: nat, f: CacheLevel, l: CacheLevel)
    requires LevelsOk(levels) && FirstLive(levels, key, now, 0) == Some(f) && l in levels
    ensures l.Rank() < f.Rank() ==> !Live(levels[l], key, now)
    ensures PromoteLevels(ReadLevels(levels, key, now, f.Rank()), key, levels[f].state.entries[key].value, f, size, now, |LevelOrder|)[l]
      == if l.Rank() < f.Rank() then PromoteLevel(ReadLevel(levels[l], key, now), key, levels[f].state.entries[key].value, size, now)
         else if l == f then ReadLevel(levels[l], key, now)
         else levels[l]
  {
    LevelOrderRanks();
    ReadLevelsAt(levels, key, now, f.Rank(), l);
    LevelsStayOk(levels, key, now, f.Rank());
    PromoteLevelsAt(ReadLevels(levels, key, now, f.Rank()), key, levels[f].state.entries[key].value, f, size, now, |LevelOrder|, l);
  }

  /**
   * After a hit under LRU, every faster level holds the value found, as long
   * as it fits on its own in that level: the promoted key is new there (the
   * read just missed), so it is the most recently used one.
   */
  lemma PromotionSticksUnderLru<V>(c: LevelCache<V>, key: string, value: V, size: nat, now: int)
    requires LevelOk(c) && c.lim.policy == Lru && c.lim.maxSize >= 1
    requires !Live(c, key, now) && size <= c.lim.maxMemory
    ensures var p := PromoteLevel(ReadLevel(c, key, now), key, value, size, now);
      GetStep(p.state, key, now, Lru).1 == Some(value)
  {
    SetThenGetUnderLru(ReadLevel(c, key, now).state, key, Promoted(value, size, now), c.lim, now);
  }

  // ---------------------------------------------------------------------
  // CacheManager
  // ---------------------------------------------------------------------

  datatype Backend = MemoryBackend | RedisBackend | MemcachedBackend | FileBackend | HybridBackend

  /** A cache the registry created, told apart from every other by `id`. */
  datatype CacheHandle = CacheHandle(id: nat, backend: Backend)

  datatype CreateError = NotImplemented(backend: Backend)

  /** The name whose cache `delete_cache` refuses to drop. */
  const DefaultName := "default"

  /** `get_cache`: the named cache, or the cache built at construction when there is none by that name. */
  function CacheFor(caches: map<string, CacheHandle>, defaultCache: CacheHandle, name: string): (c: CacheHandle)
    ensures name in caches ==> c == caches[name]
    ensures name !in caches ==> c == defaultCache
  {
    if name in caches then caches[name] else defaultCache
  }

  class CacheManager {
    var caches: map<string, CacheHandle>
    /** `default_cache`: the cache built at construction, kept even when "default" is re-created. */
    const defaultCache: CacheHandle
    var nextId: nat

    ghost predicate Valid()
      reads this
    {
      && DefaultName in caches
      && defaultCache.id < nextId
      && forall n :: n in caches ==> caches[n].id < nextId
    }

    constructor()
      ensures Valid() && caches == map[DefaultName := defaultCache] && defaultCache.backend == MemoryBackend
    {
      defaultCache := CacheHandle(0, MemoryBackend);
      caches := map[DefaultName := CacheHandle(0, MemoryBackend)];
      nextId := 1;
    }

    /** `create_cache`: memory and hybrid caches are built and registered under the name, replacing any before; other backends are refused. */
    method CreateCache(name: string, backend: Backend) returns (r: Result<CacheHandle, CreateError>)
      requires Valid()
      modifies this`caches, this`nextId
      ensures Valid()
      ensures backend !in {MemoryBackend, HybridBackend} ==>
        r == Err(NotImplemented(backend)) && caches == old(caches) && nextId == old(nextId)
      ensures backend in {MemoryBackend, HybridBackend} ==>
        && r.Ok? && r.value.backend == backend
        && (forall n :: n in old(caches) ==> old(caches)[n].id != r.value.id)
        && r.value.id != defaultCache.id
        && caches == old(caches)[name := r.value]
    {
      if backend != MemoryBackend && backend != HybridBackend {
        return Err(NotImplemented(backend));
      }
      var c := CacheHandle(nextId, backend);
      nextId := nextId + 1;
      caches := caches[name := c];
      return Ok(c);
    }

    /** `delete_cache`: drops a registered name other than "default". */
    method DeleteCache(name: string) returns (ok: bool)
      requires Valid()
      modifies this`caches
      ensures Valid()
      ensures ok <==> name in old(caches) && name != DefaultName
      ensures caches == if ok then old(caches) - {name} else old(caches)
      ensures ok ==> CacheFor(caches, defaultCache, name) == defaultCache
      ensures CacheFor(caches, defaultCache, DefaultName) == old(caches)[DefaultName]
    {
      if name in caches && name != DefaultName {
        caches := caches - {name};
        return true;
      }
      return false;
    }
  }

  // ---------------------------------------------------------------------
  // DistributedCache._get_node
  // ---------------------------------------------------------------------

  /** The hash ring as `_build_hash_ring` leaves it: points in increasing order, each with its node. */
  predicate RingSorted(ring: seq<(nat, string)>) {
    forall i, j :: 0 <= i < j < |ring| ==> ring[i].0 < ring[j].0
  }

  /**
   * `_get_node`: the node of the first ring point at or above the key's hash
   * (the smallest such point); past the last point, the node of the smallest
   * point. An empty ring has no node (`min` of nothing raises).
   */
  method GetNode(ring: seq<(nat, string)>, keyHash: nat) returns (r: Option<string>)
    requires RingSorted(ring)
    ensures ring == [] <==> r.None?
    ensures forall i :: 0 <= i < |ring| && keyHash <= ring[i].0 ==>
      exists j :: 0 <= j <= i && keyHash <= ring[j].0 && r == Some(ring[j].1)
        && forall m :: 0 <= m < j ==> ring[m].0 < keyHash
    ensures ring != [] && (forall i :: 0 <= i < |ring| ==> ring[i].0 < keyHash) ==> r == Some(ring[0].1)
  {
    var i := 0;
    while i < |ring|
      invariant 0 <= i <= |ring|
      invariant forall m :: 0 <= m < i ==> ring[m].0 < keyHash
    {
      if keyHash <= ring[i].0 {
        return Some(ring[i].1);
      }
      i := i + 1;
    }
    if ring == [] {
      return None;
    }
    return Some(ring[0].1);
  }
}
