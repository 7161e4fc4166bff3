/**
 * The scheduler state of AsyncTaskManager (Python/utils/async_task_manager.py)
 * without its event loop. Each block the source runs under its queue lock, and
 * each outcome branch of one task execution, is one atomic step here. Task ids
 * are naturals drawn from a counter, and a unit of work is reduced to the
 * outcome its run ends with.
 */
module TaskManager {
  import opened Wrappers

  datatype Priority = Low | Medium | High | Critical {
    /** The enumeration value the queue is sorted on. */
    function Value(): int {
      match this
      case Low => 1
      case Medium => 2
      case High => 3
      case Critical => 4
    }
  }

  datatype Status = Pending | Running | Completed | Failed | Cancelled

  /**
   * How one run of `_execute_queued_task` ends. The first three name what
   * awaiting the unit of work did; a timeout is a `Raised` run, and
   * `Interrupted` is a cancellation delivered while the work was awaited (or
   * during the `task_cancelled` notice). The last two are a cancellation
   * delivered after the work ended: in the `task_completed` notice, or after
   * a raise, in the retry sleep, the queue lock or the `task_failed` notice.
   */
  datatype Outcome = Returned | Interrupted | Raised | ReturnedThenCancelled | RaisedThenCancelled

  /** A pending task: its id, priority and retry bookkeeping. */
  datatype QueuedTask = QueuedTask(id: nat, priority: Priority, retryCount: nat, maxRetries: int)

  datatype TaskResult = TaskResult(id: nat, status: Status)

  datatype SubmitError = QueueFull

  /** The integer counters of `_metrics`. */
  datatype Counters = Counters(totalTasks: nat, completedTasks: nat, failedTasks: nat, cancelledTasks: nat)

  /** The snapshot `get_metrics` returns, without the running average. */
  datatype Metrics = Metrics(counters: Counters, runningTasks: nat, queuedTasks: nat, completedResults: nat)

  function Ids(q: seq<QueuedTask>): seq<nat> {
    seq(|q|, i requires 0 <= i < |q| => q[i].id)
  }

  /** How many runs a task may have: the first one plus its retries. */
  function RunBudget(t: QueuedTask): nat {
    (if t.maxRetries > 0 then t.maxRetries else 0) + 1
  }

  // ---------------------------------------------------------------------
  // Queue order: `list.sort(key=priority.value, reverse=True)` is stable
  // ---------------------------------------------------------------------

  /** Priority values never increase from the front of the queue to its back. */
  predicate SortedByPriority(q: seq<QueuedTask>) {
    forall i, j :: 0 <= i < j < |q| ==> q[i].priority.Value() >= q[j].priority.Value()
  }

  /** The entries of one priority, in queue order. */
  function WithPriority(q: seq<QueuedTask>, p: Priority): seq<QueuedTask>
    decreases |q|
  {
    if q == [] then []
    else (if q[0].priority == p then [q[0]] else []) + WithPriority(q[1..], p)
  }

  /** Every entry of a priority's subsequence is an entry of the queue with that priority. */
  lemma {:induction false} WithPriorityMembers(q: seq<QueuedTask>, p: Priority)
    ensures forall t :: t in WithPriority(q, p) ==> t in q && t.priority == p
    decreases |q|
  {
    if q != [] {
      WithPriorityMembers(q[1..], p);
    }
  }

  lemma WithPriorityCons(x: QueuedTask, rest: seq<QueuedTask>, p: Priority)
    ensures WithPriority([x] + rest, p) == (if x.priority == p then [x] else []) + WithPriority(rest, p)
  {
    assert ([x] + rest)[1..] == rest;
  }

  /** A sorted queue has no entry above its head. */
  lemma SortedHead(q: seq<QueuedTask>)
    requires q != [] && SortedByPriority(q)
    ensures forall t :: t in q ==> t.priority.Value() <= q[0].priority.Value()
  {
    forall t | t in q ensures t.priority.Value() <= q[0].priority.Value() {
      var k :| 0 <= k < |q| && q[k] == t;
    }
  }

  lemma SortedCons(x: QueuedTask, r: seq<QueuedTask>)
    requires SortedByPriority(r)
    requires forall t :: t in r ==> t.priority.Value() <= x.priority.Value()
    ensures SortedByPriority([x] + r)
  {
    var s := [x] + r;
    forall i, j | 0 <= i < j < |s| ensures s[i].priority.Value() >= s[j].priority.Value() {
      assert s[j] == r[j - 1] && r[j - 1] in r;
      if i > 0 {
        assert s[i] == r[i - 1];
      }
    }
  }

  /**
   * The queue with t put in front of the first entry whose priority is not
   * above t's: behind every higher priority, ahead of its equals.
   */
  function InsertByPriority(s: seq<QueuedTask>, t: QueuedTask): (r: seq<QueuedTask>)
    ensures multiset(r) == multiset(s) + multiset{t}
    decreases |s|
  {
    if s == [] then [t]
    else if s[0].priority.Value() <= t.priority.Value() then [t] + s
    else
      assert s == [s[0]] + s[1..];
      [s[0]] + InsertByPriority(s[1..], t)
  }

  /**
   * The queue after `list.sort(key=lambda t: t.priority.value, reverse=True)`.
   * Python's sort is stable, also in reverse; here it is an insertion sort
   * that puts each entry ahead of the equal-priority entries that followed it.
   */
  function SortByPriority(q: seq<QueuedTask>): (r: seq<QueuedTask>)
    ensures multiset(r) == multiset(q)
    decreases |q|
  {
    if q == [] then []
    else
      assert q == [q[0]] + q[1..];
      InsertByPriority(SortByPriority(q[1..]), q[0])
  }

  lemma {:induction false} InsertKeepsSorted(s: seq<QueuedTask>, t: QueuedTask)
    requires SortedByPriority(s)
    ensures SortedByPriority(InsertByPriority(s, t))
    ensures multiset(InsertByPriority(s, t)) == multiset(s) + multiset{t}
    decreases |s|
  {
    if s == [] {
    } else if s[0].priority.Value() <= t.priority.Value() {
      SortedHead(s);
      SortedCons(t, s);
    } else {
      assert s == [s[0]] + s[1..];
      var r := InsertByPriority(s[1..], t);
      InsertKeepsSorted(s[1..], t);
      SortedHead(s);
      forall x | x in r ensures x.priority.Value() <= s[0].priority.Value() {
        assert x in multiset(r);
        if x != t {
          assert x in multiset(s[1..]);
        }
      }
      SortedCons(s[0], r);
    }
  }

  /** Inserting t appends it to its own priority's entries and leaves the others alone. */
  lemma {:induction false} InsertKeepsOrder(s: seq<QueuedTask>, t: QueuedTask, p: Priority)
    requires SortedByPriority(s)
    ensures WithPriority(InsertByPriority(s, t), p) == (if t.priority == p then [t] else []) + WithPriority(s, p)
    decreases |s|
  {
    if s == [] || s[0].priority.Value() <= t.priority.Value() {
      assert InsertByPriority(s, t) == [t] + s;
      WithPriorityCons(t, s, p);
    } else {
      var x, r := s[0], InsertByPriority(s[1..], t);
      assert s == [x] + s[1..];
      assert InsertByPriority(s, t) == [x] + r;
      InsertKeepsOrder(s[1..], t, p);
      WithPriorityCons(x, r, p);
      WithPriorityCons(x, s[1..], p);
      if x.priority == p {
        assert t.priority != p;
        assert WithPriority([x] + r, p) == [x] + WithPriority(s[1..], p);
      } else {
        assert WithPriority([x] + r, p) == WithPriority(r, p);
      }
    }
  }

  /**
   * The sort orders the queue by priority value, highest first, loses and
   * invents no entry, and keeps the entries of each priority in their order.
   */
  lemma {:induction false} SortByPriorityIsStableSort(q: seq<QueuedTask>)
    ensures SortedByPriority(SortByPriority(q))
    ensures multiset(SortByPriority(q)) == multiset(q)
    ensures forall p :: WithPriority(SortByPriority(q), p) == WithPriority(q, p)
    decreases |q|
  {
    if q != [] {
      assert q == [q[0]] + q[1..];
      SortByPriorityIsStableSort(q[1..]);
      InsertKeepsSorted(SortByPriority(q[1..]), q[0]);
      forall p ensures WithPriority(SortByPriority(q), p) == WithPriority(q, p) {
        InsertKeepsOrder(SortByPriority(q[1..]), q[0], p);
        WithPriorityCons(q[0], q[1..], p);
      }
    }
  }

  lemma NonEmptyHasBucket(s: seq<QueuedTask>)
    ensures s != [] ==> s[0] in WithPriority(s, s[0].priority)
  {
    if s != [] {
      WithPriorityCons(s[0], s[1..], s[0].priority);
      assert s == [s[0]] + s[1..];
    }
  }

  lemma HeadNotAbove(a: seq<QueuedTask>, b: seq<QueuedTask>)
    requires a != [] && b != [] && SortedByPriority(b)
    requires WithPriority(a, a[0].priority) == WithPriority(b, a[0].priority)
    ensures a[0].priority.Value() <= b[0].priority.Value()
  {
    NonEmptyHasBucket(a);
    WithPriorityMembers(b, a[0].priority);
    SortedHead(b);
  }

  lemma HeadsAgree(a: seq<QueuedTask>, b: seq<QueuedTask>)
    requires a != [] && b != []
    requires SortedByPriority(a) && SortedByPriority(b)
    requires forall p :: WithPriority(a, p) == WithPriority(b, p)
    ensures a[0] == b[0]
  {
    var x, y := a[0], b[0];
    HeadNotAbove(a, b);
    HeadNotAbove(b, a);
    assert x.priority == y.priority;
    WithPriorityCons(x, a[1..], x.priority);
    WithPriorityCons(y, b[1..], x.priority);
    assert a == [x] + a[1..] && b == [y] + b[1..];
    assert x == WithPriority(a, x.priority)[0] == WithPriority(b, x.priority)[0] == y;
  }

  lemma TailsAgree(a: seq<QueuedTask>, b: seq<QueuedTask>)
    requires a != [] && b != [] && a[0] == b[0]
    requires forall p :: WithPriority(a, p) == WithPriority(b, p)
    ensures forall p :: WithPriority(a[1..], p) == WithPriority(b[1..], p)
  {
    var x := a[0];
    assert a == [x] + a[1..] && b == [x] + b[1..];
    forall p ensures WithPriority(a[1..], p) == WithPriority(b[1..], p) {
      WithPriorityCons(x, a[1..], p);
      WithPriorityCons(x, b[1..], p);
      var n := if x.priority == p then 1 else 0;
      assert WithPriority(a[1..], p) == WithPriority(a, p)[n..];
      assert WithPriority(b[1..], p) == WithPriority(b, p)[n..];
    }
  }

  /** Two sorted queues with the same entries, in the same order within each priority, are equal. */
  lemma {:induction false} SortedSameOrderEqual(a: seq<QueuedTask>, b: seq<QueuedTask>)
    requires SortedByPriority(a) && SortedByPriority(b)
    requires forall p :: WithPriority(a, p) == WithPriority(b, p)
    ensures a == b
    decreases |a| + |b|
  {
    NonEmptyHasBucket(a);
    NonEmptyHasBucket(b);
    if a != [] && b != [] {
      HeadsAgree(a, b);
      TailsAgree(a, b);
      assert SortedByPriority(a[1..]) && SortedByPriority(b[1..]);
      SortedSameOrderEqual(a[1..], b[1..]);
      assert a == [a[0]] + a[1..] && b == [b[0]] + b[1..];
    }
  }

  /**
   * Any queue that is sorted on descending priority and keeps the order within
   * each priority is SortByPriority: no other stable sort exists.
   */
  lemma StableSortIsUnique(q: seq<QueuedTask>, r: seq<QueuedTask>)
    requires SortedByPriority(r)
    requires forall p :: WithPriority(r, p) == WithPriority(q, p)
    ensures r == SortByPriority(q)
  {
    SortByPriorityIsStableSort(q);
    SortedSameOrderEqual(r, SortByPriority(q));
  }

  /**
   * Entry t sits at index k of s, every entry ahead of it has a strictly
   * higher priority and none behind it a higher one.
   */
  predicate PlacedAt(s: seq<QueuedTask>, k: int, t: QueuedTask) {
    && 0 <= k < |s| && s[k] == t
    && (forall i :: 0 <= i < k ==> s[i].priority.Value() > t.priority.Value())
    && (forall i :: k < i < |s| ==> s[i].priority.Value() <= t.priority.Value())
  }

  /** How many entries of rest have a priority strictly above t's. */
  function PlaceIndex(t: QueuedTask, rest: seq<QueuedTask>): nat {
    var c, h, m := |WithPriority(rest, Critical)|, |WithPriority(rest, High)|, |WithPriority(rest, Medium)|;
    match t.priority
    case Critical => 0
    case High => c
    case Medium => c + h
    case Low => c + h + m
  }

  lemma PlaceIndexCons(x: QueuedTask, rest: seq<QueuedTask>, t: QueuedTask)
    ensures PlaceIndex(t, [x] + rest) == PlaceIndex(t, rest) + (if x.priority.Value() > t.priority.Value() then 1 else 0)
  {
    WithPriorityCons(x, rest, Critical);
    WithPriorityCons(x, rest, High);
    WithPriorityCons(x, rest, Medium);
  }

  lemma PlaceIndexSameOrder(t: QueuedTask, a: seq<QueuedTask>, b: seq<QueuedTask>)
    requires forall p :: WithPriority(a, p) == WithPriority(b, p)
    ensures PlaceIndex(t, a) == PlaceIndex(t, b)
  {
    assert WithPriority(a, Critical) == WithPriority(b, Critical);
    assert WithPriority(a, High) == WithPriority(b, High);
    assert WithPriority(a, Medium) == WithPriority(b, Medium);
  }

  lemma {:induction false} NoneAbove(s: seq<QueuedTask>, t: QueuedTask)
    requires forall x :: x in s ==> x.priority.Value() <= t.priority.Value()
    ensures PlaceIndex(t, s) == 0
    decreases |s|
  {
    if s != [] {
      assert s == [s[0]] + s[1..];
      NoneAbove(s[1..], t);
      PlaceIndexCons(s[0], s[1..], t);
    }
  }

  lemma {:induction false} InsertPlaced(s: seq<QueuedTask>, t: QueuedTask)
    requires SortedByPriority(s)
    ensures PlacedAt(InsertByPriority(s, t), PlaceIndex(t, s), t)
    decreases |s|
  {
    if s == [] {
      NoneAbove(s, t);
    } else if s[0].priority.Value() <= t.priority.Value() {
      SortedHead(s);
      NoneAbove(s, t);
      var r := [t] + s;
      forall i | 0 < i < |r| ensures r[i].priority.Value() <= t.priority.Value() {
        assert r[i] == s[i - 1] && s[i - 1] in s;
      }
    } else {
      assert s == [s[0]] + s[1..];
      InsertPlaced(s[1..], t);
      PlaceIndexCons(s[0], s[1..], t);
      var r', r := InsertByPriority(s[1..], t), InsertByPriority(s, t);
      var k := PlaceIndex(t, s[1..]);
      forall i | 0 <= i < k + 1 ensures r[i].priority.Value() > t.priority.Value() {
        if i > 0 {
          assert r[i] == r'[i - 1];
        }
      }
      forall i | k + 1 < i < |r| ensures r[i].priority.Value() <= t.priority.Value() {
        assert r[i] == r'[i - 1];
      }
    }
  }

  /**
   * A task put back at the front of the queue by a retry keeps that place only
   * until the next sort: afterwards exactly the entries of strictly higher
   * priority are ahead of it.
   */
  lemma FrontEntryAfterSort(q: seq<QueuedTask>)
    requires q != []
    ensures PlacedAt(SortByPriority(q), PlaceIndex(q[0], q[1..]), q[0])
  {
    var s := SortByPriority(q[1..]);
    SortByPriorityIsStableSort(q[1..]);
    InsertPlaced(s, q[0]);
    assert SortByPriority(q) == InsertByPriority(s, q[0]);
    PlaceIndexSameOrder(q[0], s, q[1..]);
  }

  /** The queue with the first entry of the given id taken out. */
  function RemoveFirst(q: seq<QueuedTask>, id: nat): seq<QueuedTask>
    decreases |q|
  {
    if q == [] then []
    else if q[0].id == id then q[1..]
    else [q[0]] + RemoveFirst(q[1..], id)
  }

  lemma {:induction false} RemoveFirstAt(q: seq<QueuedTask>, id: nat, i: nat)
    requires i < |q| && q[i].id == id
    requires forall j :: 0 <= j < i ==> q[j].id != id
    ensures RemoveFirst(q, id) == q[..i] + q[i + 1..]
    decreases i
  {
    if i > 0 {
      RemoveFirstAt(q[1..], id, i - 1);
      assert q[..i] == [q[0]] + q[1..][..i - 1];
    }
  }

  // ---------------------------------------------------------------------
  // Invariants of the manager's collections
  // ---------------------------------------------------------------------

  /**
   * A queued task has an issued id that is not running, and has been
   * started exactly `retryCount` times, fewer than its run budget.
   */
  ghost predicate QueuedOk(t: QueuedTask, running: map<nat, QueuedTask>, nextId: nat, runs: map<nat, nat>) {
    && t.id < nextId && t.id !in running
    && t.id in runs && runs[t.id] == t.retryCount && t.retryCount < RunBudget(t)
  }

  predicate DistinctIds(q: seq<QueuedTask>) {
    forall i, j :: 0 <= i < j < |q| ==> q[i].id != q[j].id
  }

  ghost predicate QueueInvariant(q: seq<QueuedTask>, running: map<nat, QueuedTask>, nextId: nat, runs: map<nat, nat>) {
    && (forall i :: 0 <= i < |q| ==> QueuedOk(q[i], running, nextId, runs))
    && DistinctIds(q)
  }

  /**
   * A running task is keyed by its own issued id and has been started once
   * more than it has been retried, within its run budget.
   */
  ghost predicate RunningOk(id: nat, t: QueuedTask, nextId: nat, runs: map<nat, nat>) {
    && id < nextId && t.id == id
    && id in runs && runs[id] == t.retryCount + 1 && runs[id] <= RunBudget(t)
  }

  ghost predicate RunningInvariant(running: map<nat, QueuedTask>, nextId: nat, runs: map<nat, nat>) {
    forall id :: id in running ==> RunningOk(id, running[id], nextId, runs)
  }

  lemma QueuedIdsIssued(q: seq<QueuedTask>, running: map<nat, QueuedTask>, nextId: nat, runs: map<nat, nat>)
    requires QueueInvariant(q, running, nextId, runs)
    ensures forall id :: id in Ids(q) ==> id < nextId && id !in running
  {
    forall id | id in Ids(q) ensures id < nextId && id !in running {
      var i :| 0 <= i < |q| && Ids(q)[i] == id;
      assert QueuedOk(q[i], running, nextId, runs);
    }
  }

  lemma {:induction false} DistinctIdsSingleCopies(q: seq<QueuedTask>, x: QueuedTask)
    requires DistinctIds(q)
    ensures multiset(q)[x] <= 1
    decreases |q|
  {
    if q != [] {
      assert q == [q[0]] + q[1..];
      assert DistinctIds(q[1..]);
      DistinctIdsSingleCopies(q[1..], x);
      if q[0] == x {
        forall k | 0 <= k < |q[1..]| ensures q[1..][k] != x {
          assert q[1..][k] == q[k + 1];
        }
        assert x !in q[1..];
      }
    }
  }

  lemma TwoCopies(s: seq<QueuedTask>, i: nat, j: nat)
    requires i < j < |s| && multiset(s)[s[i]] <= 1
    ensures s[i] != s[j]
  {
    assert s == s[..j] + [s[j]] + s[j + 1..];
    assert s[i] in s[..j];
    assert multiset(s)[s[j]] == multiset(s[..j])[s[j]] + 1 + multiset(s[j + 1..])[s[j]];
  }

  lemma DistinctIdsPermuted(q: seq<QueuedTask>, q': seq<QueuedTask>)
    requires DistinctIds(q) && multiset(q') == multiset(q)
    ensures DistinctIds(q')
  {
    forall i, j | 0 <= i < j < |q'| ensures q'[i].id != q'[j].id {
      DistinctIdsSingleCopies(q, q'[i]);
      TwoCopies(q', i, j);
      assert q'[i] in multiset(q) && q'[j] in multiset(q);
      var a :| 0 <= a < |q| && q[a] == q'[i];
      var b :| 0 <= b < |q| && q[b] == q'[j];
    }
  }

  lemma QueueInvariantPermuted(q: seq<QueuedTask>, q': seq<QueuedTask>, running: map<nat, QueuedTask>, nextId: nat, runs: map<nat, nat>)
    requires QueueInvariant(q, running, nextId, runs)
    requires multiset(q') == multiset(q)
    ensures QueueInvariant(q', running, nextId, runs)
  {
    forall i | 0 <= i < |q'| ensures QueuedOk(q'[i], running, nextId, runs) {
      assert q'[i] in multiset(q);
      var a :| 0 <= a < |q| && q[a] == q'[i];
    }
    DistinctIdsPermuted(q, q');
  }

  lemma QueueInvariantAppend(q: seq<QueuedTask>, t: QueuedTask, running: map<nat, QueuedTask>, nextId: nat, runs: map<nat, nat>)
    requires QueueInvariant(q, running, nextId, runs)
    requires t.id == nextId && t.id !in running && t.retryCount == 0
    ensures QueueInvariant(q + [t], running, nextId + 1, runs[t.id := 0])
  {
    var q' := q + [t];
    forall i | 0 <= i < |q'| ensures QueuedOk(q'[i], running, nextId + 1, runs[t.id := 0]) {
      if i < |q| {
        assert q'[i] == q[i] && QueuedOk(q[i], running, nextId, runs);
      }
    }
    forall i, j | 0 <= i < j < |q'| ensures q'[i].id != q'[j].id {
      assert QueuedOk(q[i], running, nextId, runs);
    }
  }

  lemma EnqueueKeepsInvariant(q: seq<QueuedTask>, t: QueuedTask, running: map<nat, QueuedTask>, nextId: nat, runs: map<nat, nat>)
    requires QueueInvariant(q, running, nextId, runs)
    requires t.id == nextId && t.id !in running && t.retryCount == 0
    ensures QueueInvariant(SortByPriority(q + [t]), running, nextId + 1, runs[t.id := 0])
  {
    QueueInvariantAppend(q, t, running, nextId, runs);
    SortByPriorityIsStableSort(q + [t]);
    QueueInvariantPermuted(q + [t], SortByPriority(q + [t]), running, nextId + 1, runs[t.id := 0]);
  }

  lemma StartHead(q: seq<QueuedTask>, running: map<nat, QueuedTask>, nextId: nat, runs: map<nat, nat>)
    requires q != []
    requires QueueInvariant(q, running, nextId, runs) && RunningInvariant(running, nextId, runs)
    ensures QueueInvariant(q[1..], running[q[0].id := q[0]], nextId, runs[q[0].id := q[0].retryCount + 1])
    ensures RunningInvariant(running[q[0].id := q[0]], nextId, runs[q[0].id := q[0].retryCount + 1])
  {
    var t := q[0];
    assert QueuedOk(t, running, nextId, runs);
    forall i | 0 <= i < |q[1..]|
      ensures QueuedOk(q[1..][i], running[t.id := t], nextId, runs[t.id := t.retryCount + 1])
    {
      assert q[1..][i] == q[i + 1] && QueuedOk(q[i + 1], running, nextId, runs);
    }
    forall i, j | 0 <= i < j < |q[1..]| ensures q[1..][i].id != q[1..][j].id {
      assert q[1..][i] == q[i + 1] && q[1..][j] == q[j + 1];
    }
  }

  lemma Requeue(q: seq<QueuedTask>, running: map<nat, QueuedTask>, id: nat, nextId: nat, runs: map<nat, nat>)
    requires id in running && running[id].retryCount < running[id].maxRetries
    requires QueueInvariant(q, running, nextId, runs) && RunningInvariant(running, nextId, runs)
    ensures var t := running[id];
      QueueInvariant([t.(retryCount := t.retryCount + 1)] + q, running - {id}, nextId, runs)
    ensures RunningInvariant(running - {id}, nextId, runs)
  {
    var t := running[id];
    var q' := [t.(retryCount := t.retryCount + 1)] + q;
    forall i | 0 <= i < |q'| ensures QueuedOk(q'[i], running - {id}, nextId, runs) {
      if i > 0 {
        assert q'[i] == q[i - 1] && QueuedOk(q[i - 1], running, nextId, runs);
      }
    }
    forall i, j | 0 <= i < j < |q'| ensures q'[i].id != q'[j].id {
      assert q'[j] == q[j - 1] && QueuedOk(q[j - 1], running, nextId, runs);
      if i > 0 {
        assert q'[i] == q[i - 1];
      }
    }
  }

  lemma Retire(q: seq<QueuedTask>, running: map<nat, QueuedTask>, id: nat, nextId: nat, runs: map<nat, nat>)
    requires id in running
    requires QueueInvariant(q, running, nextId, runs) && RunningInvariant(running, nextId, runs)
    ensures QueueInvariant(q, running - {id}, nextId, runs)
    ensures RunningInvariant(running - {id}, nextId, runs)
  {
    forall i | 0 <= i < |q| ensures QueuedOk(q[i], running - {id}, nextId, runs) {
      assert QueuedOk(q[i], running, nextId, runs);
    }
  }

  lemma QueueInvariantRemove(q: seq<QueuedTask>, k: nat, running: map<nat, QueuedTask>, nextId: nat, runs: map<nat, nat>)
    requires k < |q| && QueueInvariant(q, running, nextId, runs)
    ensures QueueInvariant(q[..k] + q[k + 1..], running, nextId, runs)
  {
    var q' := q[..k] + q[k + 1..];
    forall i | 0 <= i < |q'| ensures q'[i] == if i < k then q[i] else q[i + 1] {
    }
    forall i | 0 <= i < |q'| ensures QueuedOk(q'[i], running, nextId, runs) {
      if i < k {
        assert QueuedOk(q[i], running, nextId, runs);
      } else {
        assert QueuedOk(q[i + 1], running, nextId, runs);
      }
    }
  }

  /** Every stored result belongs to an issued id and carries that id. */
  ghost predicate ResultsInvariant(results: map<nat, TaskResult>, nextId: nat) {
    forall id :: id in results ==> id < nextId && results[id].id == id
  }

  /** The invariant of a manager's state, kept by every operation. */
  ghost predicate ManagerInvariant(q: seq<QueuedTask>, running: map<nat, QueuedTask>, cancelRequested: set<nat>,
                                   results: map<nat, TaskResult>, nextId: nat, runs: map<nat, nat>) {
    && QueueInvariant(q, running, nextId, runs)
    && RunningInvariant(running, nextId, runs)
    && ResultsInvariant(results, nextId)
    && cancelRequested <= running.Keys
  }

  lemma SubmitKeepsInvariant(q: seq<QueuedTask>, running: map<nat, QueuedTask>, cancelRequested: set<nat>,
                             results: map<nat, TaskResult>, nextId: nat, runs: map<nat, nat>, t: QueuedTask)
    requires ManagerInvariant(q, running, cancelRequested, results, nextId, runs)
    requires t.id == nextId && t.retryCount == 0
    ensures t.id !in Ids(q) && t.id !in running && t.id !in results
    ensures ManagerInvariant(SortByPriority(q + [t]), running, cancelRequested, results, nextId + 1, runs[t.id := 0])
  {
    QueuedIdsIssued(q, running, nextId, runs);
    EnqueueKeepsInvariant(q, t, running, nextId, runs);
  }

  lemma StartKeepsInvariant(q: seq<QueuedTask>, running: map<nat, QueuedTask>, cancelRequested: set<nat>,
                            results: map<nat, TaskResult>, nextId: nat, runs: map<nat, nat>)
    requires ManagerInvariant(q, running, cancelRequested, results, nextId, runs)
    requires q != []
    ensures ManagerInvariant(q[1..], running[q[0].id := q[0]], cancelRequested, results, nextId,
                             runs[q[0].id := q[0].retryCount + 1])
  {
    StartHead(q, running, nextId, runs);
  }

  lemma FinishKeepsInvariant(q: seq<QueuedTask>, running: map<nat, QueuedTask>, cancelRequested: set<nat>,
                             results: map<nat, TaskResult>, nextId: nat, runs: map<nat, nat>,
                             id: nat, result: TaskResult, requeue: bool)
    requires ManagerInvariant(q, running, cancelRequested, results, nextId, runs)
    requires id in running && result.id == id
    requires requeue ==> running[id].retryCount < running[id].maxRetries
    ensures var t := running[id];
      ManagerInvariant(if requeue then [t.(retryCount := t.retryCount + 1)] + q else q,
                       running - {id}, cancelRequested - {id}, results[id := result], nextId, runs)
  {
    if requeue {
      Requeue(q, running, id, nextId, runs);
    } else {
      Retire(q, running, id, nextId, runs);
    }
  }

  lemma CancelQueuedKeepsInvariant(q: seq<QueuedTask>, running: map<nat, QueuedTask>, cancelRequested: set<nat>,
                                   results: map<nat, TaskResult>, nextId: nat, runs: map<nat, nat>, k: nat)
    requires ManagerInvariant(q, running, cancelRequested, results, nextId, runs)
    requires k < |q|
    ensures ManagerInvariant(q[..k] + q[k + 1..], running, cancelRequested,
                             results[q[k].id := TaskResult(q[k].id, Cancelled)], nextId, runs)
  {
    assert QueuedOk(q[k], running, nextId, runs);
    QueueInvariantRemove(q, k, running, nextId, runs);
  }

  lemma MarkCancelledKeepsInvariant(q: seq<QueuedTask>, running: map<nat, QueuedTask>, cancelRequested: set<nat>,
                                    results: map<nat, TaskResult>, nextId: nat, runs: map<nat, nat>, k: nat)
    requires ManagerInvariant(q, running, cancelRequested, results, nextId, runs)
    requires k < |q|
    ensures ManagerInvariant(q, running, cancelRequested,
                             results[q[k].id := TaskResult(q[k].id, Cancelled)], nextId, runs)
  {
    assert QueuedOk(q[k], running, nextId, runs);
  }

  lemma CardSubset<T>(a: set<T>, b: set<T>)
    requires a <= b
    ensures |a| <= |b|
    decreases |b|
  {
    if a != {} {
      var x :| x in a;
      CardSubset(a - {x}, b - {x});
    }
  }

  lemma CardProperSubset<T>(a: set<T>, b: set<T>)
    requires a <= b && a != b
    ensures |a| < |b|
  {
    var x :| x in b && x !in a;
    CardSubset(a, b - {x});
  }

  // ---------------------------------------------------------------------
  // How one run ends
  // ---------------------------------------------------------------------

  /** The status `_execute_queued_task` stores for a run that ended this way. */
  function FinalStatus(o: Outcome): Status {
    match o
    case Returned => Completed
    case Interrupted => Cancelled
    case Raised => Failed
    case ReturnedThenCancelled => Cancelled
    case RaisedThenCancelled => Failed
  }

  /** Whether the unit of work itself returned, whatever happened afterwards. */
  predicate WorkReturned(o: Outcome) {
    o == Returned || o == ReturnedThenCancelled
  }

  predicate RetriesLeft(t: QueuedTask) {
    t.retryCount < t.maxRetries
  }

  /**
   * A run that raised goes back to the queue while its retries last, unless
   * a cancellation reaches it before it is put back.
   */
  predicate Retries(t: QueuedTask, o: Outcome) {
    o == Raised && RetriesLeft(t)
  }

  /** The task as it is put back at the front of the queue for a retry. */
  function Retried(t: QueuedTask): QueuedTask {
    t.(retryCount := t.retryCount + 1)
  }

  /** The counters after a run of t ended with outcome o. */
  function Counted(c: Counters, t: QueuedTask, o: Outcome): Counters {
    match o
    case Returned => c.(completedTasks := c.completedTasks + 1)
    case Interrupted => c.(cancelledTasks := c.cancelledTasks + 1)
    case Raised => if RetriesLeft(t) then c else c.(failedTasks := c.failedTasks + 1)
    case ReturnedThenCancelled => c.(completedTasks := c.completedTasks + 1, cancelledTasks := c.cancelledTasks + 1)
    case RaisedThenCancelled => if RetriesLeft(t) then c else c.(failedTasks := c.failedTasks + 1)
  }

  function Settled(c: Counters): nat {
    c.completedTasks + c.failedTasks + c.cancelledTasks
  }

  /**
   * What one run adds to the counters. `completed_tasks` rises exactly when
   * the work returned, `cancelled_tasks` exactly when the run ends CANCELLED,
   * and `failed_tasks` exactly when it ends FAILED with no retries left. So
   * a run adds one in all, except that a FAILED run with retries left adds
   * nothing (whether it is re-queued or cancelled in its retry delay) and a
   * run cancelled in its completion notice adds two. Submissions are not
   * affected.
   */
  lemma RunCounted(c: Counters, t: QueuedTask, o: Outcome)
    ensures Counted(c, t, o).totalTasks == c.totalTasks
    ensures Counted(c, t, o).completedTasks == c.completedTasks + (if WorkReturned(o) then 1 else 0)
    ensures Counted(c, t, o).cancelledTasks == c.cancelledTasks + (if FinalStatus(o) == Cancelled then 1 else 0)
    ensures Counted(c, t, o).failedTasks == c.failedTasks + (if FinalStatus(o) == Failed && !RetriesLeft(t) then 1 else 0)
    ensures Settled(Counted(c, t, o)) == Settled(c) +
      (if o == ReturnedThenCancelled then 2 else if FinalStatus(o) == Failed && RetriesLeft(t) then 0 else 1)
  {
  }

  /**
   * The outcome a run reaches as the source is written, given the outcome the
   * work would have had on a fresh coroutine: a retry awaits the coroutine
   * object stored in the queued task a second time, which raises at once, so
   * no retried run sees its work return.
   */
  function ReawaitedOutcome(t: QueuedTask, o: Outcome): Outcome {
    if t.retryCount == 0 then o
    else match o
      case Returned => Raised
      case ReturnedThenCancelled => RaisedThenCancelled
      case _ => o
  }

  /**
   * As written, a retried run never ends COMPLETED and never adds to
   * `completed_tasks`, and a task whose first run raised therefore ends
   * FAILED or CANCELLED.
   */
  lemma RetriedNeverCompletes(c: Counters, t: QueuedTask, o: Outcome)
    requires t.retryCount > 0
    ensures FinalStatus(ReawaitedOutcome(t, o)) in {Failed, Cancelled}
    ensures Counted(c, t, ReawaitedOutcome(t, o)).completedTasks == c.completedTasks
  {
  }

  /** The stored results after every task of q got a CANCELLED result, front to back. */
  function MarkCancelled(results: map<nat, TaskResult>, q: seq<QueuedTask>): map<nat, TaskResult>
    decreases |q|
  {
    if q == [] then results
    else MarkCancelled(results, q[..|q| - 1])[q[|q| - 1].id := TaskResult(q[|q| - 1].id, Cancelled)]
  }

  /** Exactly the queued ids gain a CANCELLED result; every other result stays. */
  lemma {:induction false} MarkCancelledResults(results: map<nat, TaskResult>, q: seq<QueuedTask>)
    ensures MarkCancelled(results, q).Keys == results.Keys + (set t | t in q :: t.id)
    ensures forall id :: id in Ids(q) ==> MarkCancelled(results, q)[id] == TaskResult(id, Cancelled)
    ensures forall id :: id in results && id !in Ids(q) ==> MarkCancelled(results, q)[id] == results[id]
    decreases |q|
  {
    if q != [] {
      var q', t := q[..|q| - 1], q[|q| - 1];
      assert q == q' + [t];
      MarkCancelledResults(results, q');
      assert Ids(q) == Ids(q') + [t.id];
      assert (set u | u in q :: u.id) == (set u | u in q' :: u.id) + {t.id};
    }
  }

  // ---------------------------------------------------------------------
  // The manager
  // ---------------------------------------------------------------------

  class AsyncTaskManager {
    const maxConcurrentTasks: int
    const maxQueueSize: int

    /** `_task_queue`: pending tasks, front first. */
    var queue: seq<QueuedTask>
    /** `_running_tasks`: the running set, each id with the task it runs. */
    var running: map<nat, QueuedTask>
    /** Running tasks whose asyncio task has been asked to cancel. */
    var cancelRequested: set<nat>
    /** `_task_results` and `_task_history`. */
    var results: map<nat, TaskResult>
    var history: seq<TaskResult>
    /** The integer part of `_metrics`. */
    var metrics: Counters
    /** Stands in for `uuid4`: the next fresh id. */
    var nextId: nat
    /** How many times each task has been started. */
    ghost var runs: map<nat, nat>

    ghost predicate Valid()
      reads this
    {
      ManagerInvariant(queue, running, cancelRequested, results, nextId, runs)
    }

    constructor (maxConcurrentTasks: int, maxQueueSize: int)
      ensures Valid()
      ensures this.maxConcurrentTasks == maxConcurrentTasks && this.maxQueueSize == maxQueueSize
      ensures queue == [] && running == map[] && cancelRequested == {} && results == map[] && history == []
      ensures metrics == Counters(0, 0, 0, 0)
    {
      this.maxConcurrentTasks := maxConcurrentTasks;
      this.maxQueueSize := maxQueueSize;
      queue := [];
      running := map[];
      cancelRequested := {};
      results := map[];
      history := [];
      metrics := Counters(0, 0, 0, 0);
      nextId := 0;
      runs := map[];
    }

    /**
     * `submit_task`: refuse when the queue is at capacity; otherwise append
     * the new task, re-sort the whole queue and count it.
     */
    method SubmitTask(priority: Priority, maxRetries: int) returns (r: Result<nat, SubmitError>)
      requires Valid()
      modifies this
      ensures Valid()
      ensures |old(queue)| >= maxQueueSize ==>
        r == Err(QueueFull) && queue == old(queue) && metrics == old(metrics) && nextId == old(nextId)
      ensures |old(queue)| < maxQueueSize ==>
        && r == Ok(old(nextId))
        && queue == SortByPriority(old(queue) + [QueuedTask(old(nextId), priority, 0, maxRetries)])
        && metrics == old(metrics).(totalTasks := old(metrics).totalTasks + 1)
        && nextId == old(nextId) + 1
      ensures r.Ok? ==> r.value !in Ids(old(queue)) && r.value !in old(running) && r.value !in old(results)
      ensures running == old(running) && cancelRequested == old(cancelRequested)
      ensures results == old(results) && history == old(history)
    {
      if |queue| >= maxQueueSize {
        return Err(QueueFull);
      }
      var task := QueuedTask(nextId, priority, 0, maxRetries);
      SubmitKeepsInvariant(queue, running, cancelRequested, results, nextId, runs, task);
      queue := SortByPriority(queue + [task]);
      runs := runs[task.id := 0];
      r := Ok(nextId);
      nextId := nextId + 1;
      metrics := metrics.(totalTasks := metrics.totalTasks + 1);
    }

    /**
     * `_process_queue`: nothing happens when the running set is at the cap or
     * the queue is empty; otherwise the head of the queue starts running,
     * which keeps the running set within the cap.
     */
    method ProcessQueue() returns (started: Option<nat>)
      requires Valid()
      modifies this
      ensures Valid()
      ensures (|old(running)| >= maxConcurrentTasks || old(queue) == []) ==>
        started == None && queue == old(queue) && running == old(running)
      ensures (|old(running)| < maxConcurrentTasks && old(queue) != []) ==>
        && started == Some(old(queue)[0].id)
        && queue == old(queue)[1..]
        && running == old(running)[old(queue)[0].id := old(queue)[0]]
        && |running| == |old(running)| + 1 <= maxConcurrentTasks
      ensures cancelRequested == old(cancelRequested) && results == old(results) && history == old(history)
      ensures metrics == old(metrics) && nextId == old(nextId)
    {
      if |running| >= maxConcurrentTasks {
        return None;
      }
      if queue == [] {
        return None;
      }
      var task := queue[0];
      StartKeepsInvariant(queue, running, cancelRequested, results, nextId, runs);
      queue := queue[1..];
      running := running[task.id := task];
      runs := runs[task.id := task.retryCount + 1];
      started := Some(task.id);
    }

    /**
     * The end of `_execute_queued_task` for a running task, given how its run
     * ended: the branch it took, then the `finally` block, which stores the
     * result, appends it to the history and drops the task from the running
     * set on every path, the retry path included. Where a requested
     * cancellation is delivered decides the outcome, so the outcome is an
     * input; the request itself is cleared here.
     */
    method FinishTask(id: nat, outcome: Outcome) returns (result: TaskResult)
      requires Valid() && id in running
      modifies this
      ensures Valid()
      ensures var task := old(running)[id];
        && result == TaskResult(id, FinalStatus(outcome))
        && queue == (if Retries(task, outcome) then [Retried(task)] + old(queue) else old(queue))
        && metrics == Counted(old(metrics), task, outcome)
      ensures results == old(results)[id := result] && history == old(history) + [result]
      ensures running == old(running) - {id} && cancelRequested == old(cancelRequested) - {id}
      ensures nextId == old(nextId)
    {
      var task := running[id];
      match outcome {
        case Returned =>
          result := TaskResult(id, Completed);
          metrics := metrics.(completedTasks := metrics.completedTasks + 1);
        case Interrupted =>
          result := TaskResult(id, Cancelled);
          metrics := metrics.(cancelledTasks := metrics.cancelledTasks + 1);
        case ReturnedThenCancelled =>
          // counted as completed before the notice, then as cancelled
          result := TaskResult(id, Cancelled);
          metrics := metrics.(completedTasks := metrics.completedTasks + 1);
          metrics := metrics.(cancelledTasks := metrics.cancelledTasks + 1);
        case Raised =>
          result := TaskResult(id, Failed);
          if !RetriesLeft(task) {
            metrics := metrics.(failedTasks := metrics.failedTasks + 1);
          }
        case RaisedThenCancelled =>
          // with retries left the cancellation stops the retry before it is queued
          result := TaskResult(id, Failed);
          if !RetriesLeft(task) {
            metrics := metrics.(failedTasks := metrics.failedTasks + 1);
          }
      }
      var requeue := Retries(task, outcome);
      FinishKeepsInvariant(queue, running, cancelRequested, results, nextId, runs, id, result, requeue);
      if requeue {
        queue := [Retried(task)] + queue;
      }
      // the finally block
      results := results[id := result];
      history := history + [result];
      running := running - {id};
      cancelRequested := cancelRequested - {id};
    }

    /**
     * `cancel_task`: a running task is asked to cancel; a queued one is taken
     * out of the queue and gets a CANCELLED result at once; an unknown id
     * changes nothing.
     */
    method CancelTask(id: nat) returns (found: bool)
      requires Valid()
      modifies this
      ensures Valid()
      ensures found <==> id in old(running) || id in Ids(old(queue))
      ensures id in old(running) ==>
        cancelRequested == old(cancelRequested) + {id} && queue == old(queue)
        && results == old(results) && metrics == old(metrics)
      ensures id !in old(running) && id in Ids(old(queue)) ==>
        && queue == RemoveFirst(old(queue), id)
        && results == old(results)[id := TaskResult(id, Cancelled)]
        && metrics == old(metrics).(cancelledTasks := old(metrics).cancelledTasks + 1)
        && cancelRequested == old(cancelRequested)
      ensures !found ==>
        queue == old(queue) && results == old(results) && metrics == old(metrics)
        && cancelRequested == old(cancelRequested)
      ensures running == old(running) && history == old(history)
      ensures nextId == old(nextId) && runs == old(runs)
    {
      if id in running {
        cancelRequested := cancelRequested + {id};
        return true;
      }
      var i := 0;
      while i < |queue|
        invariant 0 <= i <= |queue|
        invariant forall j :: 0 <= j < i ==> queue[j].id != id
      {
        if queue[i].id == id {
          RemoveFirstAt(queue, id, i);
          CancelQueuedKeepsInvariant(queue, running, cancelRequested, results, nextId, runs, i);
          assert Ids(queue)[i] == id;
          queue := queue[..i] + queue[i + 1..];
          results := results[id := TaskResult(id, Cancelled)];
          metrics := metrics.(cancelledTasks := metrics.cancelledTasks + 1);
          return true;
        }
        i := i + 1;
      }
      assert forall j :: 0 <= j < |queue| ==> Ids(queue)[j] != id;
      return false;
    }

    /**
     * `cancel_all_tasks`: every running task is asked to cancel, every queued
     * task gets a CANCELLED result and is counted, and the queue is emptied.
     */
    method CancelAllTasks()
      requires Valid()
      modifies this
      ensures Valid()
      ensures queue == []
      ensures cancelRequested == old(cancelRequested) + old(running).Keys
      ensures results == MarkCancelled(old(results), old(queue))
      ensures metrics == old(metrics).(cancelledTasks := old(metrics).cancelledTasks + |old(queue)|)
      ensures running == old(running) && history == old(history) && nextId == old(nextId)
    {
      var toCancel := running.Keys;
      while toCancel != {}
        invariant Valid()
        invariant toCancel <= running.Keys
        invariant cancelRequested == old(cancelRequested) + (old(running).Keys - toCancel)
        invariant queue == old(queue) && results == old(results) && metrics == old(metrics)
        invariant running == old(running) && history == old(history)
        invariant nextId == old(nextId) && runs == old(runs)
        decreases toCancel
      {
        var id :| id in toCancel;
        var _ := CancelTask(id);
        toCancel := toCancel - {id};
      }
      var i := 0;
      while i < |queue|
        invariant 0 <= i <= |queue|
        invariant ManagerInvariant(queue, running, cancelRequested, results, nextId, runs)
        invariant results == MarkCancelled(old(results), queue[..i])
        invariant metrics == old(metrics).(cancelledTasks := old(metrics).cancelledTasks + i)
        invariant queue == old(queue) && running == old(running) && history == old(history)
        invariant cancelRequested == old(cancelRequested) + old(running).Keys
        invariant nextId == old(nextId)
      {
        MarkCancelledKeepsInvariant(queue, running, cancelRequested, results, nextId, runs, i);
        assert queue[..i + 1][..i] == queue[..i];
        results := results[queue[i].id := TaskResult(queue[i].id, Cancelled)];
        metrics := metrics.(cancelledTasks := metrics.cancelledTasks + 1);
        i := i + 1;
      }
      assert queue[..i] == queue;
      queue := [];
    }

    /**
     * `get_task_status`: RUNNING for a running id, else the stored result's
     * status, else PENDING for a queued id, else None. A task queued again
     * for a retry therefore reports the FAILED result of its last run.
     */
    method GetTaskStatus(id: nat) returns (s: Option<Status>)
      ensures id in running ==> s == Some(Running)
      ensures id !in running && id in results ==> s == Some(results[id].status)
      ensures id !in running && id !in results ==>
        (s == Some(Pending) <==> id in Ids(queue)) && (s == None <==> id !in Ids(queue))
    {
      if id in running {
        return Some(Running);
      }
      if id in results {
        return Some(results[id].status);
      }
      var i := 0;
      while i < |queue|
        invariant 0 <= i <= |queue|
        invariant forall j :: 0 <= j < i ==> queue[j].id != id
      {
        if queue[i].id == id {
          assert Ids(queue)[i] == id;
          return Some(Pending);
        }
        i := i + 1;
      }
      assert forall j :: 0 <= j < |queue| ==> Ids(queue)[j] != id;
      return None;
    }

    /** `get_metrics`: the counters plus the sizes of the running set and the queue. */
    function GetMetrics(): (m: Metrics)
      reads this
      ensures m.counters == metrics && m.runningTasks == |running| && m.queuedTasks == |queue|
      ensures m.completedResults <= |results|
      ensures m.completedResults == |results| <==> forall id :: id in results ==> results[id].status == Completed
    {
      var completed := set id | id in results && results[id].status == Completed;
      CardSubset(completed, results.Keys);
      var m := Metrics(metrics, |running|, |queue|, |completed|);
      if completed == results.Keys then m else CardProperSubset(completed, results.Keys); m
    }

    /** No running task has been started more often than its run budget allows. */
    lemma RunsWithinBudget(id: nat)
      requires Valid() && id in running
      ensures id in runs && runs[id] <= RunBudget(running[id])
    {
      assert RunningOk(id, running[id], nextId, runs);
    }
  }
}
