/**
 * The coordinating operations of AsyncTaskManager
 * (Python/utils/async_task_manager.py) that run on top of the scheduler:
 * `execute_task_group`, `execute_batch` and `execute_with_retry`. What a
 * task's run does is abstracted: each awaited task comes with what waiting
 * for it produced, and each attempt of a retried call with whether it
 * succeeded.
 */
module TaskCoordination {
  import opened Wrappers
  import opened TaskManager

  datatype GroupFailurePolicy = ContinueOnFailure | FailFast

  /** What `wait_for_task` produced for one task: its stored result, or an exception. */
  datatype Wait = Stored(status: Status) | WaitRaised

  /** A submitted task of a group, with what waiting for it produced. */
  datatype Awaited = Awaited(id: nat, wait: Wait)

  /** The result the group records for one awaited task; an exception becomes a FAILED result. */
  function Observed(a: Awaited): TaskResult {
    match a.wait
    case Stored(status) => TaskResult(a.id, status)
    case WaitRaised => TaskResult(a.id, Failed)
  }

  /** Whether the group stops right after this task. */
  predicate Stops(a: Awaited, policy: GroupFailurePolicy) {
    policy == FailFast && Observed(a).status == Failed
  }

  /** How many tasks the group records: up to and including the first one that stops it. */
  function RecordedCount(tasks: seq<Awaited>, policy: GroupFailurePolicy): (n: nat)
    ensures n <= |tasks|
    decreases |tasks|
  {
    if tasks == [] then 0
    else if Stops(tasks[0], policy) then 1
    else 1 + RecordedCount(tasks[1..], policy)
  }

  /**
   * The group records every task under CONTINUE_ON_FAILURE; under FAIL_FAST
   * it records the tasks before the first failure, that failure, and no more.
   */
  lemma {:induction false} RecordedCountIsFirstStop(tasks: seq<Awaited>, policy: GroupFailurePolicy)
    ensures policy == ContinueOnFailure ==> RecordedCount(tasks, policy) == |tasks|
    ensures forall j :: 0 <= j < RecordedCount(tasks, policy) - 1 ==> !Stops(tasks[j], policy)
    ensures RecordedCount(tasks, policy) < |tasks| ==>
      RecordedCount(tasks, policy) > 0 && Stops(tasks[RecordedCount(tasks, policy) - 1], policy)
    ensures (forall j :: 0 <= j < |tasks| ==> !Stops(tasks[j], policy)) ==> RecordedCount(tasks, policy) == |tasks|
    decreases |tasks|
  {
    if tasks != [] && !Stops(tasks[0], policy) {
      RecordedCountIsFirstStop(tasks[1..], policy);
      var n := RecordedCount(tasks, policy);
      forall j | 0 <= j < n - 1 ensures !Stops(tasks[j], policy) {
        if j > 0 {
          assert tasks[j] == tasks[1..][j - 1];
        }
      }
      if n < |tasks| {
        assert tasks[n - 1] == tasks[1..][n - 2];
      }
      if forall j :: 0 <= j < |tasks| ==> !Stops(tasks[j], policy) {
        forall j | 0 <= j < |tasks[1..]| ensures !Stops(tasks[1..][j], policy) {
          assert tasks[1..][j] == tasks[j + 1];
        }
      }
    }
  }

  /** How the submission loop of `execute_task_group` ended, with the ids it submitted. */
  datatype GroupSubmission = AllSubmitted(ids: seq<nat>) | QueueFullAfter(ids: seq<nat>)

  /** The tasks a group submits: each id with its priority, no retries yet and none allowed. */
  function GroupTasks(ids: seq<nat>, priorities: seq<Priority>): (ts: seq<QueuedTask>)
    requires |ids| <= |priorities|
    ensures |ts| == |ids|
  {
    seq(|ids|, j requires 0 <= j < |ids| => QueuedTask(ids[j], priorities[j], 0, 0))
  }

  lemma GroupTasksSnoc(ids: seq<nat>, id: nat, priorities: seq<Priority>)
    requires |ids| < |priorities|
    ensures GroupTasks(ids + [id], priorities) == GroupTasks(ids, priorities) + [QueuedTask(id, priorities[|ids|], 0, 0)]
  {
  }

  /** The part of a manager's state that submissions change or must leave alone. */
  datatype Snapshot = Snapshot(nextId: nat, queued: multiset<QueuedTask>, queueLength: nat, metrics: Counters,
                               running: map<nat, QueuedTask>, cancelRequested: set<nat>,
                               results: map<nat, TaskResult>, history: seq<TaskResult>)

  function SnapshotOf(m: AsyncTaskManager): (s: Snapshot)
    reads m
    ensures s.queued == multiset(m.queue) && s.queueLength == |m.queue|
  {
    Snapshot(m.nextId, multiset(m.queue), |m.queue|, m.metrics, m.running, m.cancelRequested, m.results, m.history)
  }

  /**
   * State s follows s0 by the submissions of `added`: the queue holds exactly
   * the old tasks and the added ones, with one fresh id and one `total_tasks`
   * per added task, and nothing else changed.
   */
  predicate Follows(s: Snapshot, added: seq<QueuedTask>, s0: Snapshot) {
    && s.nextId == s0.nextId + |added|
    && s.queued == s0.queued + multiset(added)
    && s.queueLength == s0.queueLength + |added|
    && s.metrics == s0.metrics.(totalTasks := s0.metrics.totalTasks + |added|)
    && s.running == s0.running && s.cancelRequested == s0.cancelRequested
    && s.results == s0.results && s.history == s0.history
  }

  /** Submitting a then b is submitting a + b. */
  lemma FollowsTrans(s2: Snapshot, b: seq<QueuedTask>, s1: Snapshot, a: seq<QueuedTask>, s0: Snapshot)
    requires Follows(s1, a, s0) && Follows(s2, b, s1)
    ensures Follows(s2, a + b, s0)
  {
    assert multiset(a + b) == multiset(a) + multiset(b);
  }

  /**
   * One submission of the group's loop: refused exactly at a full queue;
   * otherwise the task with the next id joins the queue.
   */
  method SubmitNext(m: AsyncTaskManager, priority: Priority) returns (r: Result<nat, SubmitError>)
    requires m.Valid()
    modifies m
    ensures m.Valid()
    ensures r.Err? <==> |old(m.queue)| >= m.maxQueueSize
    ensures r.Ok? ==> r.value == old(m.nextId)
    ensures Follows(SnapshotOf(m), if r.Ok? then [QueuedTask(r.value, priority, 0, 0)] else [], old(SnapshotOf(m)))
  {
    ghost var before := m.queue;
    r := m.SubmitTask(priority, 0);
    if r.Ok? {
      assert |multiset(m.queue)| == |multiset(before + [QueuedTask(r.value, priority, 0, 0)])|;
    }
  }

  /**
   * The loop state of the group's submissions, as state s reached from s0:
   * the ids so far are consecutive fresh ids, each accepted submission found
   * room in the queue, a refusal met a full queue, and s follows s0 by
   * exactly the submitted tasks.
   */
  predicate SubmittedSoFar(s: Snapshot, maxQueueSize: int, priorities: seq<Priority>, ids: seq<nat>, refused: bool, s0: Snapshot) {
    && |ids| <= |priorities|
    && (forall j :: 0 <= j < |ids| ==> ids[j] == s0.nextId + j)
    && (|ids| > 0 ==> s0.queueLength + |ids| <= maxQueueSize)
    && (refused ==> |ids| < |priorities| && s0.queueLength + |ids| >= maxQueueSize)
    && Follows(s, GroupTasks(ids, priorities), s0)
  }

  /** One round of the group's submission loop keeps its loop state. */
  lemma RoundStep(s0: Snapshot, s1: Snapshot, s2: Snapshot, maxQueueSize: int, priorities: seq<Priority>,
                  ids: seq<nat>, submitted: Result<nat, SubmitError>)
    requires |ids| < |priorities| && SubmittedSoFar(s1, maxQueueSize, priorities, ids, false, s0)
    requires submitted.Err? <==> s1.queueLength >= maxQueueSize
    requires submitted.Ok? ==> submitted.value == s1.nextId
    requires Follows(s2, if submitted.Ok? then [QueuedTask(submitted.value, priorities[|ids|], 0, 0)] else [], s1)
    ensures SubmittedSoFar(s2, maxQueueSize, priorities, if submitted.Ok? then ids + [submitted.value] else ids,
                           submitted.Err?, s0)
  {
    if submitted.Err? {
      FollowsTrans(s2, [], s1, GroupTasks(ids, priorities), s0);
      assert GroupTasks(ids, priorities) + [] == GroupTasks(ids, priorities);
    } else {
      FollowsTrans(s2, [QueuedTask(submitted.value, priorities[|ids|], 0, 0)], s1, GroupTasks(ids, priorities), s0);
      GroupTasksSnoc(ids, submitted.value, priorities);
    }
  }

  /**
   * The submission loop of `execute_task_group`: submit the tasks in order,
   * each with no retries. A full queue raises out of the group at the first
   * refused submission, and the tasks submitted before it stay queued.
   */
  method SubmitGroup(m: AsyncTaskManager, priorities: seq<Priority>) returns (r: GroupSubmission)
    requires m.Valid()
    modifies m
    ensures m.Valid()
    ensures r.AllSubmitted? ==> |r.ids| == |priorities|
    ensures r.QueueFullAfter? <==> |priorities| > 0 && |old(m.queue)| + |priorities| > m.maxQueueSize
    ensures r.QueueFullAfter? ==>
      && |r.ids| == (if m.maxQueueSize > |old(m.queue)| then m.maxQueueSize - |old(m.queue)| else 0)
      && |m.queue| >= m.maxQueueSize
    ensures |r.ids| <= |priorities|
    ensures forall j :: 0 <= j < |r.ids| ==> r.ids[j] == old(m.nextId) + j
    ensures Follows(SnapshotOf(m), GroupTasks(r.ids, priorities), old(SnapshotOf(m)))
  {
    ghost var s0 := SnapshotOf(m);
    var ids: seq<nat> := [];
    var refused := false;
    while |ids| < |priorities| && !refused
      invariant m.Valid() && SubmittedSoFar(SnapshotOf(m), m.maxQueueSize, priorities, ids, refused, s0)
      decreases |priorities| - |ids|, if refused then 0 else 1
    {
      ghost var s1 := SnapshotOf(m);
      var submitted := SubmitNext(m, priorities[|ids|]);
      RoundStep(s0, s1, SnapshotOf(m), m.maxQueueSize, priorities, ids, submitted);
      if submitted.Err? {
        refused := true;
      } else {
        ids := ids + [submitted.value];
      }
    }
    r := if refused then QueueFullAfter(ids) else AllSubmitted(ids);
  }

  /**
   * `execute_task_group` after `SubmitGroup` submitted every task: wait for each task in order
   * and record its result. Under FAIL_FAST a FAILED result stops the loop and
   * the tasks after it are cancelled; an exception while waiting stops the
   * loop without cancelling anything.
   */
  method ExecuteTaskGroup(tasks: seq<Awaited>, policy: GroupFailurePolicy)
    returns (results: seq<TaskResult>, cancelled: seq<nat>)
    ensures |results| == RecordedCount(tasks, policy)
    ensures forall j :: 0 <= j < |results| ==> results[j] == Observed(tasks[j])
    ensures var n := |results|;
      cancelled == if n > 0 && Stops(tasks[n - 1], policy) && tasks[n - 1].wait.Stored?
                   then AwaitedIds(tasks[n..]) else []
  {
    results := [];
    cancelled := [];
    var i := 0;
    while i < |tasks|
      invariant 0 <= i <= |tasks| && |results| == i
      invariant forall j :: 0 <= j < i ==> results[j] == Observed(tasks[j])
      invariant RecordedCount(tasks, policy) == i + RecordedCount(tasks[i..], policy)
      invariant cancelled == [] && (i > 0 ==> !Stops(tasks[i - 1], policy))
    {
      var result := Observed(tasks[i]);
      results := results + [result];
      assert tasks[i..][1..] == tasks[i + 1..];
      if policy == FailFast && result.status == Failed {
        if tasks[i].wait.Stored? {
          cancelled := AwaitedIds(tasks[i + 1..]);
        }
        return;
      }
      i := i + 1;
    }
  }

  function AwaitedIds(tasks: seq<Awaited>): seq<nat> {
    seq(|tasks|, j requires 0 <= j < |tasks| => tasks[j].id)
  }

  // ---------------------------------------------------------------------
  // execute_batch
  // ---------------------------------------------------------------------

  /**
   * Why `execute_batch` raised: `range` with step 0, or a chunk whose group
   * met a full queue while submitting (the RuntimeError of `submit_task`).
   */
  datatype BatchError = ZeroBatchSize | ChunkRefused(chunk: nat)

  /**
   * The slices `items[i:i + size]` for `i` in `range(0, len(items), size)`,
   * for a positive size.
   */
  function Chunks<T>(items: seq<T>, size: nat): (r: seq<seq<T>>)
    requires size > 0
    ensures forall k :: 0 <= k < |r| ==> 0 < |r[k]| <= size
    decreases |items|
  {
    if items == [] then []
    else if |items| <= size then [items]
    else [items[..size]] + Chunks(items[size..], size)
  }

  function Flatten<T>(chunks: seq<seq<T>>): seq<T>
    decreases |chunks|
  {
    if chunks == [] then [] else chunks[0] + Flatten(chunks[1..])
  }

  /**
   * The chunks are consecutive: they concatenate back to the items, none is
   * empty, none is longer than the batch size, and all but the last are full.
   */
  lemma {:induction false} ChunksPartition<T>(items: seq<T>, size: nat)
    requires size > 0
    ensures Flatten(Chunks(items, size)) == items
    ensures forall k :: 0 <= k < |Chunks(items, size)| ==> 0 < |Chunks(items, size)[k]| <= size
    ensures forall k :: 0 <= k < |Chunks(items, size)| - 1 ==> |Chunks(items, size)[k]| == size
    decreases |items|
  {
    var c := Chunks(items, size);
    if items == [] {
    } else if |items| <= size {
      assert Flatten(c) == items + Flatten([]);
    } else {
      var rest := Chunks(items[size..], size);
      ChunksPartition(items[size..], size);
      assert c == [items[..size]] + rest;
      assert c[1..] == rest;
      assert Flatten(c) == items[..size] + items[size..];
      forall k | 0 <= k < |c| ensures 0 < |c[k]| <= size {
        if k > 0 {
          assert c[k] == rest[k - 1];
        }
      }
      forall k | 0 <= k < |c| - 1 ensures |c[k]| == size {
        if k > 0 {
          assert c[k] == rest[k - 1];
        }
      }
    }
  }

  /** One step of the `range`: the next slice is the first chunk of what remains. */
  lemma ChunksStep<T>(items: seq<T>, i: nat, size: nat)
    requires size > 0 && i < |items|
    ensures var end := if i + size < |items| then i + size else |items|;
      Chunks(items[i..], size) == [items[i..end]] + (if end < |items| then Chunks(items[end..], size) else [])
  {
    var rest := items[i..];
    if i + size < |items| {
      assert rest[..size] == items[i..i + size];
      assert rest[size..] == items[i + size..];
    } else {
      assert rest == items[i..|items|];
    }
  }

  /**
   * `execute_batch`: run each chunk as a CONTINUE_ON_FAILURE group and
   * concatenate the groups' results. A batch size of zero is the ValueError
   * of `range` with step 0; a negative one makes the range empty.
   * `fits(k)` says whether every submission of chunk k is accepted, which
   * depends on how far the worker has drained the queue by then (see
   * `SubmitGroup`); the first chunk that does not fit raises out of the
   * batch, and the results of the earlier chunks are lost with it.
   */
  method ExecuteBatch(items: seq<Awaited>, batchSize: int, fits: nat -> bool)
    returns (r: Result<seq<TaskResult>, BatchError>, ghost batches: seq<seq<Awaited>>)
    ensures batchSize == 0 <==> r == Err(ZeroBatchSize)
    ensures batchSize < 0 ==> r == Ok([])
    ensures batchSize > 0 ==>
      (r.Ok? <==> forall k :: 0 <= k < |Chunks(items, batchSize)| ==> fits(k))
    ensures batchSize > 0 && r.Ok? ==> r.value == ObservedAll(items) && batches == Chunks(items, batchSize)
    ensures batchSize > 0 && r.Err? ==>
      && |batches| < |Chunks(items, batchSize)|
      && batches == Chunks(items, batchSize)[..|batches|]
      && r.error == ChunkRefused(|batches|) && !fits(|batches|)
  {
    batches := [];
    if batchSize == 0 {
      r := Err(ZeroBatchSize);
      return;
    }
    if batchSize < 0 {
      r := Ok([]);
      return;
    }
    var results: seq<TaskResult> := [];
    var i := 0;
    var chunk := 0;
    assert items[0..] == items;
    while i < |items|
      invariant 0 <= i && chunk == |batches|
      invariant forall k :: 0 <= k < chunk ==> fits(k)
      invariant BatchedUpTo(items, batchSize, i, batches, results)
      decreases |items| - i
    {
      var end := if i + batchSize < |items| then i + batchSize else |items|;
      var batch := items[i..end];
      if !fits(chunk) {
        RefusedChunkIsNext(items, batchSize, i, batches, results);
        r := Err(ChunkRefused(chunk));
        return;
      }
      var batchResults, _ := ExecuteTaskGroup(batch, ContinueOnFailure);
      GroupRecordsAll(batch, batchResults);
      BatchStep(items, batchSize, i, batches, results);
      results := results + batchResults;
      batches := batches + [batch];
      chunk := chunk + 1;
      i := i + batchSize;
    }
    assert items[..|items|] == items;
    r := Ok(results);
  }

  /**
   * The loop state of `execute_batch` after the chunks that start before i:
   * the results of those items, and the chunks run so far as a prefix of
   * all chunks.
   */
  ghost predicate BatchedUpTo(items: seq<Awaited>, size: int, i: nat, batches: seq<seq<Awaited>>, results: seq<TaskResult>)
    requires size > 0
  {
    && results == ObservedAll(items[..if i < |items| then i else |items|])
    && (i < |items| ==> batches + Chunks(items[i..], size) == Chunks(items, size))
    && (i >= |items| ==> batches == Chunks(items, size))
  }

  /** The chunk starting at i is the next of all chunks, after the ones already run. */
  lemma RefusedChunkIsNext(items: seq<Awaited>, size: int, i: nat, batches: seq<seq<Awaited>>, results: seq<TaskResult>)
    requires size > 0 && i < |items| && BatchedUpTo(items, size, i, batches, results)
    ensures |batches| < |Chunks(items, size)| && Chunks(items, size)[..|batches|] == batches
  {
    ChunksStep(items, i, size);
    assert Chunks(items, size)[..|batches|] == (batches + Chunks(items[i..], size))[..|batches|];
  }

  /** Running the chunk starting at i, with all its results recorded, moves the loop state on by one chunk. */
  lemma BatchStep(items: seq<Awaited>, size: int, i: nat, batches: seq<seq<Awaited>>, results: seq<TaskResult>)
    requires size > 0 && i < |items| && BatchedUpTo(items, size, i, batches, results)
    ensures var end := if i + size < |items| then i + size else |items|;
      BatchedUpTo(items, size, i + size, batches + [items[i..end]], results + ObservedAll(items[i..end]))
  {
    var end := if i + size < |items| then i + size else |items|;
    ChunksStep(items, i, size);
    ObservedAllSplit(items[..end], i);
    assert items[..end][..i] == items[..i] && items[..end][i..] == items[i..end];
    if end < |items| {
      assert end == i + size;
    } else {
      assert items[..end] == items[..|items|];
    }
  }

  /** The results a group records when every task of it is recorded. */
  function ObservedAll(tasks: seq<Awaited>): (results: seq<TaskResult>)
    ensures |results| == |tasks|
  {
    seq(|tasks|, j requires 0 <= j < |tasks| => Observed(tasks[j]))
  }

  lemma ObservedAllSplit(tasks: seq<Awaited>, i: nat)
    requires i <= |tasks|
    ensures ObservedAll(tasks) == ObservedAll(tasks[..i]) + ObservedAll(tasks[i..])
  {
  }

  /** Under CONTINUE_ON_FAILURE the group's results are exactly the observed results of all its tasks. */
  lemma GroupRecordsAll(tasks: seq<Awaited>, results: seq<TaskResult>)
    requires |results| == RecordedCount(tasks, ContinueOnFailure)
    requires forall j :: 0 <= j < |results| ==> results[j] == Observed(tasks[j])
    ensures results == ObservedAll(tasks)
  {
    RecordedCountIsFirstStop(tasks, ContinueOnFailure);
  }

  // ---------------------------------------------------------------------
  // execute_with_retry
  // ---------------------------------------------------------------------

  /**
   * How `execute_with_retry` ends. `delays` are the sleeps between attempts;
   * `NoAttempt` is a negative `max_retries`, where the loop never runs and
   * `raise None` raises a TypeError.
   */
  datatype RetryOutcome =
    | Succeeded(attempt: nat, delays: seq<nat>)
    | GaveUp(attempts: nat, delays: seq<nat>)
    | NoAttempt

  function Power(b: nat, k: nat): nat {
    if k == 0 then 1 else b * Power(b, k - 1)
  }

  /** The first attempt below `limit` that succeeds, if there is one. */
  function FirstSuccess(succeeds: nat -> bool, from: nat, limit: nat): (k: Option<nat>)
    ensures k.Some? ==> from <= k.value < limit && succeeds(k.value)
    ensures k.Some? ==> forall j :: from <= j < k.value ==> !succeeds(j)
    ensures k.None? ==> forall j :: from <= j < limit ==> !succeeds(j)
    decreases limit - from
  {
    if from >= limit then None
    else if succeeds(from) then Some(from)
    else FirstSuccess(succeeds, from + 1, limit)
  }

  /** The first `n` sleeps: the delay multiplied by the backoff factor once per earlier sleep. */
  function Delays(retryDelay: nat, backoff: nat, n: nat): (ds: seq<nat>)
    ensures |ds| == n
  {
    seq(n, j requires 0 <= j < n => retryDelay * Power(backoff, j))
  }

  /** One more sleep appends the next delay, which is the last one times the backoff factor. */
  lemma DelaysNext(retryDelay: nat, backoff: nat, n: nat)
    ensures Delays(retryDelay, backoff, n + 1) == Delays(retryDelay, backoff, n) + [retryDelay * Power(backoff, n)]
    ensures retryDelay * Power(backoff, n) * backoff == retryDelay * Power(backoff, n + 1)
  {
    assert Power(backoff, n + 1) == backoff * Power(backoff, n);
  }

  /**
   * `execute_with_retry` with attempt `k` succeeding iff `succeeds(k)`: up to
   * `max_retries + 1` attempts, stopping at the first success, with a sleep
   * after every failed attempt but the last, the delay multiplied by the
   * backoff factor after each sleep.
   */
  method ExecuteWithRetry(succeeds: nat -> bool, maxRetries: int, retryDelay: nat, backoff: nat)
    returns (r: RetryOutcome)
    ensures maxRetries < 0 <==> r.NoAttempt?
    ensures maxRetries >= 0 && FirstSuccess(succeeds, 0, maxRetries + 1).Some? ==>
      r == Succeeded(FirstSuccess(succeeds, 0, maxRetries + 1).value, Delays(retryDelay, backoff, FirstSuccess(succeeds, 0, maxRetries + 1).value))
    ensures maxRetries >= 0 && FirstSuccess(succeeds, 0, maxRetries + 1).None? ==>
      r == GaveUp(maxRetries + 1, Delays(retryDelay, backoff, maxRetries))
  {
    if maxRetries < 0 {
      return NoAttempt;
    }
    var delays: seq<nat> := [];
    var currentDelay := retryDelay;
    var attempt := 0;
    while attempt < maxRetries + 1
      invariant 0 <= attempt <= maxRetries + 1
      invariant forall j :: 0 <= j < attempt ==> !succeeds(j)
      invariant attempt <= maxRetries ==> delays == Delays(retryDelay, backoff, attempt)
      invariant attempt > maxRetries ==> delays == Delays(retryDelay, backoff, maxRetries)
      invariant attempt <= maxRetries ==> currentDelay == retryDelay * Power(backoff, attempt)
    {
      if succeeds(attempt) {
        return Succeeded(attempt, delays);
      }
      if attempt < maxRetries {
        DelaysNext(retryDelay, backoff, attempt);
        delays := delays + [currentDelay];
        currentDelay := currentDelay * backoff;
      }
      attempt := attempt + 1;
    }
    return GaveUp(maxRetries + 1, delays);
  }
}
