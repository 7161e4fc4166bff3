# swift-python-hybrid utilities in Dafny

This project models four components of the Python utilities in `Python/utils` and proves properties about them. Each component is sequential bookkeeping that sits behind locks, an event loop, file formats or drivers. Each modelled operation is one atomic step: every block the source runs under a lock, and also the awaits without a lock inside an operation (such as the retry sleep and the task callback at the end of a run), are collapsed into that step (see Left out).

- **Task scheduler** (`async_task_manager.py`):
  - The model keeps the state of `AsyncTaskManager`: the pending queue, the running tasks, the stored results, the history and the integer metrics. The class is `TaskManager.AsyncTaskManager`.
  - Operations: submitting with the capacity check and the stable priority sort, the scheduling step, the ways a run ends (including where a cancellation reaches it), cancelling one task or all of them, and the status and metrics queries. Each is a method proved against pure functions on the queue. One invariant holds throughout: ids are fresh, and no task runs more often than its retry budget allows.
  - The coordinating calls `execute_task_group`, `execute_batch` and `execute_with_retry` are modelled over abstract outcomes (`TaskCoordination`).
- **Nested configuration** (`config_manager.py`):
  - A configuration is a recursive `Node`: a scalar leaf, or a dictionary of nodes.
  - Dotted-key get, set and delete, and the deep merge, are modelled on that datatype (`ConfigTree`).
  - Schema validation with defaults is in `ConfigValidation`.
  - The bounded LRU+TTL `ConfigCache` is in `ConfigCaching`.
  - Profiles, format detection by file suffix, and parsing of environment values are in `ConfigManagement`.
- **In-memory cache** (`cache_manager.py`):
  - `MemoryCache` keeps its entries in insertion order, an access-order list for LRU, and counters for hits, misses, evictions, total size and entry count. Storing evicts, one entry at a time and by policy, until both limits hold (`MemoryCaching`). The class reads an expired entry with the same accounting as `delete`, which corrects the source (see Findings); the source's own `get` is modelled beside it.
  - `CacheComposition` builds on it with the `CacheBatch` replay, `MultiLevelCache` lookup and promotion, the `CacheManager` registry, and the consistent-hash ring lookup of `DistributedCache`.
- **Database routing** (`database_manager.py`): round-robin read and write selection in `DatabaseRouter`, connection-string building in `DatabaseConfig`, the health-status rule, and the TTL query-result cache of `QueryExecutor` (`DatabaseRouting`).

`Wrappers` (Option and Result), `Sequences` (distinctness, removal of one element, filtering, first minimum) and `Text` (lower-casing, splitting and joining on a separator, decimal integer printing and parsing) are shared helpers.

## Model

| member | source | states |
|---|---|---|
| TaskManager.SortByPriorityIsStableSort | Python/utils/async_task_manager.py:151-153 | The sorted queue is ordered by priority value from highest to lowest. It is a permutation of the unsorted queue, and within each priority the arrival order is kept, as Python's stable `sort(reverse=True)` keeps it. |
| TaskManager.StableSortIsUnique | Python/utils/async_task_manager.py:151-153 | Any queue that is sorted by priority and keeps the per-priority arrival order of q is exactly `SortByPriority(q)`, so the model's sort is the only stable sort. |
| TaskManager.SortByPriority | Python/utils/async_task_manager.py:151-153 | The sorted queue holds exactly the tasks of the unsorted one, as a multiset. |
| TaskManager.InsertByPriority | Python/utils/async_task_manager.py:151-153 | Inserting adds exactly the new task to the multiset of queued tasks. |
| TaskManager.InsertKeepsSorted | Python/utils/async_task_manager.py:151-153 | Inserting a task into a sorted queue keeps the queue sorted. The result holds exactly the old tasks plus the new one. |
| TaskManager.InsertKeepsOrder | Python/utils/async_task_manager.py:151-153 | Inserting puts the new task ahead of the tasks of its own priority. The order within every other priority is unchanged. |
| TaskManager.FrontEntryAfterSort | Python/utils/async_task_manager.py:424 | A retried task put back at the front is moved by the next sort to just after every task of higher priority, ahead of all tasks of equal priority. |
| TaskManager.RemoveFirstAt | Python/utils/async_task_manager.py:192-194 | Cancelling a queued id deletes exactly the first entry with that id and keeps the others in order. |
| TaskManager.SubmitKeepsInvariant | Python/utils/async_task_manager.py:127-158 | A freshly numbered task is not queued, not running and has no result. Submitting it keeps the manager invariant: distinct issued ids, and runs within each task's budget. |
| TaskManager.StartKeepsInvariant | Python/utils/async_task_manager.py:363-375 | Starting the head task keeps the manager invariant and counts one more run of that task. |
| TaskManager.FinishKeepsInvariant | Python/utils/async_task_manager.py:377-445 | Storing a run's result, with or without re-queueing the task, keeps the manager invariant. |
| TaskManager.CancelQueuedKeepsInvariant | Python/utils/async_task_manager.py:186-204 | Removing a queued task and storing its CANCELLED result keeps the manager invariant. |
| TaskManager.MarkCancelledKeepsInvariant | Python/utils/async_task_manager.py:206-220 | Storing a CANCELLED result for a task that is still queued keeps the manager invariant. |
| TaskManager.RunCounted | Python/utils/async_task_manager.py:387-432 | `completed_tasks` rises exactly when the work returned, `cancelled_tasks` exactly when the run ends CANCELLED, and `failed_tasks` exactly when it ends FAILED with no retries left; `total_tasks` never changes here. So a run adds one in all, except that a FAILED run with retries left adds nothing (re-queued, or cancelled in its retry delay) and a run cancelled in its `task_completed` notice adds two. |
| TaskManager.RetriedNeverCompletes | Python/utils/async_task_manager.py:387-394 | As written, a retried run awaits the task's already-awaited coroutine again, so it ends FAILED or CANCELLED and never adds to `completed_tasks` (see Findings). |
| TaskManager.MarkCancelledResults | Python/utils/async_task_manager.py:210-218 | After the cancel-all loop, exactly the queued ids have gained a CANCELLED result. Every other stored result is unchanged. |
| TaskManager.AsyncTaskManager.constructor | Python/utils/async_task_manager.py:66-103 | A new manager has an empty queue, no running tasks, no results, no history and zero counters. |
| TaskManager.AsyncTaskManager.SubmitTask | Python/utils/async_task_manager.py:127-158 | At or over `max_queue_size`, the submit is refused and nothing changes. Otherwise a fresh id is returned, the queue becomes the stable priority sort of the old queue plus the new task, and `total_tasks` rises by one. |
| TaskManager.AsyncTaskManager.ProcessQueue | Python/utils/async_task_manager.py:363-375 | At the concurrency cap, or with an empty queue, nothing happens. Otherwise exactly the head is removed and becomes running, and the running count stays within the cap. |
| TaskManager.AsyncTaskManager.FinishTask | Python/utils/async_task_manager.py:387-445 | The stored status follows how the run ended: COMPLETED when the work returned, CANCELLED when a cancellation reached the awaited work or the `task_completed` notice, FAILED when the work raised, also when a cancellation then reached the retry sleep or lock. Only a FAILED run with retries left and no such cancellation is re-queued at the front, with its retry count raised. The counters change as `RunCounted` states. Every path stores the result under the id, appends it to the history, removes the id from the running set and clears its cancel request. |
| TaskManager.AsyncTaskManager.CancelTask | Python/utils/async_task_manager.py:186-204 | Returns true exactly for a running or queued id. A running task gets a cancel request. For a queued id, that entry is removed, a CANCELLED result is stored and `cancelled_tasks` rises by one. An unknown id changes nothing. |
| TaskManager.AsyncTaskManager.CancelAllTasks | Python/utils/async_task_manager.py:206-220 | Every running task gets a cancel request. Every queued id gets a CANCELLED result, `cancelled_tasks` rises by the queue length, and the queue ends empty. |
| TaskManager.AsyncTaskManager.GetTaskStatus | Python/utils/async_task_manager.py:334-343 | RUNNING for a running id, else the stored status. Otherwise PENDING exactly when the id is queued, and none when the id is unknown. |
| TaskManager.AsyncTaskManager.GetMetrics | Python/utils/async_task_manager.py:345-352 | Reports the counters, the running and queued counts, and how many stored results are COMPLETED. That number equals the result count exactly when all of them are. |
| TaskManager.AsyncTaskManager.RunsWithinBudget | Python/utils/async_task_manager.py:419-432 | A running task has been started at most `max_retries + 1` times. |
| TaskCoordination.RecordedCountIsFirstStop | Python/utils/async_task_manager.py:236-258 | Under CONTINUE_ON_FAILURE every task is recorded. Under FAIL_FAST the group stops right after the first FAILED result, and not before. |
| TaskCoordination.SubmitNext | Python/utils/async_task_manager.py:230-232 | One submission of the group, refused exactly when the queue is at `max_queue_size`. Otherwise it returns the next id, and the queue holds exactly its old tasks plus `QueuedTask(id, priority, 0, 0)`, with one more `total_tasks`. The running set, cancel requests, results and history are unchanged. |
| TaskCoordination.SubmitGroup | Python/utils/async_task_manager.py:222-232 | The group's tasks are submitted in order with consecutive fresh ids. The queue ends holding exactly its old tasks plus one `QueuedTask(id, priority, 0, 0)` per submitted id, with `total_tasks` raised by their number and nothing else changed. A submission is refused exactly when the group does not fit: it is non-empty and the old queue length plus the group's size exceeds `max_queue_size`. Then the group stops with the queue full, after submitting exactly as many tasks as there was room for, and those stay queued and counted. |
| TaskCoordination.ExecuteTaskGroup | Python/utils/async_task_manager.py:234-258 | After every submission succeeded: the results are the observed results of the tasks, in order, up to the stop point. The remaining ids are cancelled only when a stored FAILED result stopped the group. |
| TaskCoordination.GroupRecordsAll | Python/utils/async_task_manager.py:236-258 | Under CONTINUE_ON_FAILURE a group yields one result per task, in task order. |
| TaskCoordination.Chunks | Python/utils/async_task_manager.py:298-299 | Every slice is non-empty and holds at most `batch_size` items. |
| TaskCoordination.ChunksPartition | Python/utils/async_task_manager.py:298-299 | The chunks concatenate back to the items. Each chunk is non-empty and holds at most `batch_size` items, and every chunk except the last holds exactly `batch_size`. |
| TaskCoordination.ExecuteBatch | Python/utils/async_task_manager.py:289-304 | A `batch_size` of 0 is the error `range` raises, and a negative one yields no results. Otherwise the batch succeeds exactly when every chunk's submissions fit. Then the batches are the chunks and the results follow item order. If a chunk does not fit, the batch raises at the first such chunk, after running exactly the chunks before it, and returns none of their results. |
| TaskCoordination.FirstSuccess | Python/utils/async_task_manager.py:271-274 | The first attempt below the limit that succeeds, or none when every attempt fails. |
| TaskCoordination.DelaysNext | Python/utils/async_task_manager.py:282-283 | Each sleep is the previous one multiplied by the backoff factor. |
| TaskCoordination.ExecuteWithRetry | Python/utils/async_task_manager.py:260-287 | A negative `max_retries` makes no attempt. Otherwise the result is the first successful attempt, after one sleep per failed attempt. When all `max_retries + 1` attempts fail, it gives up after `max_retries` sleeps. |
| ConfigTree.GetNestedValue | Python/utils/config_manager.py:716-726 | Returns the value at the full dotted path when every segment is a dictionary key. Returns the default when a segment is missing or a leaf is reached early. |
| ConfigTree.Lookup | Python/utils/config_manager.py:716-726 | A path that is found passes through a dictionary at every proper prefix, as the loop's `isinstance(current, dict)` test demands. |
| ConfigTree.Assign | Python/utils/config_manager.py:728-737 | A successful set adds at most the first segment to the top-level keys, and every other top-level key keeps its value. |
| ConfigTree.Remove | Python/utils/config_manager.py:739-753 | A successful delete needs the first segment present. It removes that top-level key only for a one-segment path, and keeps every other top-level key's value. |
| ConfigTree.NestLookup | Python/utils/config_manager.py:728-737 | A chain of new dictionaries built for a path holds the value at that path. |
| ConfigTree.LookupAfterAssign | Python/utils/config_manager.py:728-737 | After a successful set of a dotted key, a get of the same key returns the value just set. |
| ConfigTree.AssignFrame | Python/utils/config_manager.py:728-737 | A set leaves the value at every path that parts ways with the key unchanged. |
| ConfigTree.AssignFailsIff | Python/utils/config_manager.py:728-737 | A set fails exactly when a proper prefix of the key holds a leaf, where Python's item assignment on a non-dictionary raises. |
| ConfigTree.RemoveSpec | Python/utils/config_manager.py:739-753 | Delete succeeds exactly when the full path exists. Afterwards the path is gone, and every path that parts ways with it is unchanged. |
| ConfigTree.Merge | Python/utils/config_manager.py:388-393 | The merged keys are the base keys plus the update keys, and keys only in the base keep their values. |
| ConfigTree.MergeKeepsUpdateLeaves | Python/utils/config_manager.py:388-393 | Every leaf of the update is present after the merge with the update's value. |
| ConfigTree.MergeKeepsBase | Python/utils/config_manager.py:388-393 | A base value that the update does not reach, either at its path or through a leaf above it, survives the merge. |
| ConfigTree.MergeIdempotent | Python/utils/config_manager.py:388-393 | Merging a configuration into itself changes nothing. |
| ConfigValidation.Validate | Python/utils/config_manager.py:249-279 | The loop returns exactly the specified outcome: the validated copy, the collected errors, or the failure of a default write. |
| ConfigValidation.ErrorsSpec | Python/utils/config_manager.py:253-273 | Each rule records at most one error. There are no errors exactly when no rule fails. |
| ConfigValidation.ValidateOkMeansClean | Python/utils/config_manager.py:249-279 | A successful validation means no rule failed. Every required field was either present or filled from its default. |
| ConfigValidation.ValidateFailsOnError | Python/utils/config_manager.py:275-277 | Any failing rule makes the whole call raise, with exactly the rules' errors when no default write failed. |
| ConfigValidation.DefaultIsFilled | Python/utils/config_manager.py:257-260 | A missing required field with a non-None default holds that default in the result, unless a later default is written over its path. |
| ConfigValidation.DefaultSurvives | Python/utils/config_manager.py:257-260 | Defaults written at paths that part ways with a path leave the value there alone. |
| ConfigCaching.ConfigCache.constructor | Python/utils/config_manager.py:325-330 | A new cache is empty. |
| ConfigCaching.ConfigCache.EntryCountBounded | Python/utils/config_manager.py:344-352 | The entry count never exceeds `max_size`, or one entry when `max_size` is not positive. |
| ConfigCaching.ConfigCache.LruKeyIsLeastRecent | Python/utils/config_manager.py:364-370 | The evicted key is cached and has the smallest access time. Every key inserted before it was accessed strictly later, as `min` returns the first minimum. |
| ConfigCaching.ConfigCache.EvictLru | Python/utils/config_manager.py:364-370 | An empty cache is left alone. Otherwise exactly the least recently accessed key leaves both dictionaries and the insertion order, which otherwise keeps its order. The new state is `Evicted` of the old. |
| ConfigCaching.ConfigCache.Get | Python/utils/config_manager.py:332-342 | A miss changes nothing, insertion order included. A fresh entry is returned, its access time becomes now and the order is kept. An entry aged at least `ttl` is dropped from both dictionaries and from the order, and reads as a miss. The new state is `AfterGet` of the old. |
| ConfigCaching.ConfigCache.Set | Python/utils/config_manager.py:344-352 | The cache keeps its invariant, and its new state (both dictionaries and the insertion order) is `AfterSet` of the old, whose meaning the three `AfterSet` lemmas state. |
| ConfigCaching.ConfigCache.Store | Python/utils/config_manager.py:350-352 | With room for the key, the value is stored stamped with now, its access time is now, and a new key goes last in insertion order while a present one keeps its place. |
| ConfigCaching.ConfigCache.Invalidate | Python/utils/config_manager.py:354-357 | Exactly the key leaves both dictionaries and the insertion order, and the rest keeps its order. |
| ConfigCaching.ConfigCache.Clear | Python/utils/config_manager.py:359-362 | Both dictionaries and the insertion order end empty. |
| ConfigCaching.AfterSetKeeps | Python/utils/config_manager.py:344-352 | `set` keeps the cache invariant (at most `max_size` entries, one access time and one order position per key). The key holds the value stamped with now, and every other surviving entry and access time is as it was. |
| ConfigCaching.AfterSetBelowLimit | Python/utils/config_manager.py:344-352 | Below `max_size` entries nothing is evicted. The key is added or replaced, and a new key goes last in insertion order. |
| ConfigCaching.AfterSetAtLimit | Python/utils/config_manager.py:344-352 | At `max_size` entries or more, exactly the least recently accessed key is evicted first, even when the key being set is cached. The survivors keep their order, and the key goes last unless it survived. |
| ConfigCaching.EvictedKeeps | Python/utils/config_manager.py:364-370 | An eviction keeps the invariant, frees one place in a non-empty cache and leaves every surviving entry as it was. |
| ConfigManagement.DetectFormat | Python/utils/config_manager.py:669-681 | A format other than JSON comes only from a non-empty suffix of the file name, and is the table's entry for that suffix lower-cased. |
| ConfigManagement.ParseEnvValue | Python/utils/config_manager.py:205-214 | Never None. An int is read only from text without a dot that `int()` accepts, with that value. Text with a dot that is not a bool is kept as float-or-text. Anything else is the unchanged string. |
| ConfigManagement.DetectFormatIgnoresCase | Python/utils/config_manager.py:669-681 | The detected format does not depend on the letter case of the path. |
| ConfigManagement.DetectKnownSuffix | Python/utils/config_manager.py:669-681 | A file named by a stem and a suffix of the table, in any letter case, is detected as that suffix's format, alone or in any directory. |
| ConfigManagement.DetectUnknownSuffix | Python/utils/config_manager.py:669-681 | A suffix that is not in the table, in any letter case, falls back to JSON, alone or in any directory. |
| ConfigManagement.DetectNoSuffix | Python/utils/config_manager.py:669-681 | A name without a suffix, such as "Makefile" or ".env" whose only dot comes first, falls back to JSON, alone or in any directory. |
| ConfigManagement.FileNameIgnoresTrailing | Python/utils/config_manager.py:669-670 | A trailing "/" or "/." does not change the file name whose suffix is read, as `Path` drops both when it parses the path. |
| ConfigManagement.NameInDirectory | Python/utils/config_manager.py:669-670 | A proper path component is its own file name, alone or after any directory and a "/". |
| ConfigManagement.FileNameOfLower | Python/utils/config_manager.py:669-670 | Lower-casing a path lower-cases its file name. |
| ConfigManagement.ParseEnvBool | Python/utils/config_manager.py:205-207 | `str(b)` of a bool parses back to that bool. |
| ConfigManagement.ParseEnvBoolIff | Python/utils/config_manager.py:205-207 | A value parses as a bool exactly when it is "true" or "false" in any letter case, and then it is true exactly for "true". |
| ConfigManagement.ParseEnvInt | Python/utils/config_manager.py:205-214 | The decimal text of an integer parses back to that integer. |
| ConfigManagement.ConfigManager.constructor | Python/utils/config_manager.py:406-434 | The manager starts with the profile "default" active, holding what the environment loader read, and an empty cache. |
| ConfigManagement.ConfigManager.CreateProfile | Python/utils/config_manager.py:601-609 | An existing name is refused and nothing changes. Otherwise exactly the new profile is added. |
| ConfigManagement.ConfigManager.SwitchProfile | Python/utils/config_manager.py:590-599 | A missing name is refused and nothing changes. Otherwise that profile becomes active and the cache is emptied. |
| ConfigManagement.ConfigManager.DeleteProfile | Python/utils/config_manager.py:611-623 | "default" and unknown names are refused. Otherwise exactly that profile goes; when it was active, "default" becomes active and the cache is emptied. |
| ConfigManagement.ConfigManager.Get | Python/utils/config_manager.py:524-539 | A fresh cached value other than None is returned as it is. An unknown profile yields the default. Otherwise the dotted get of the profile (or the default) is returned and cached under "profile.key", stamped with now. In every case the cache's own `get` runs first: its state, access times and insertion order included, is `AfterGet` of the old, followed on the last path by `AfterSet`. |
| ConfigManagement.ConfigManager.Set | Python/utils/config_manager.py:541-555 | An unknown profile is created empty. The profile becomes the dotted set of the old one, and the cache drops "profile.key" from both dictionaries and the insertion order. A failed set leaves the cache state, order included, unchanged. |
| ConfigManagement.ConfigManager.Delete | Python/utils/config_manager.py:557-572 | Returns true exactly when the profile exists and the path is there. The key is then removed from the profile, and "profile.key" from both cache dictionaries and the insertion order. Otherwise nothing changes, the cache state included. |
| MemoryCaching.ShapedCount | Python/utils/cache_manager.py:114-116 | The entry dictionary, the key order and the access order have one element per entry. |
| MemoryCaching.StoreKeepsConsistent | Python/utils/cache_manager.py:161-169 | The bookkeeping of `set` keeps `entry_count` equal to the number of entries and `total_size` equal to the sum of their sizes. |
| MemoryCaching.DeleteKeepsConsistent | Python/utils/cache_manager.py:176-186 | `delete` keeps the counters equal to the count and size sum of the entries. |
| MemoryCaching.StoreStep | Python/utils/cache_manager.py:149-169 | The stored entry is under the key, every other entry is unchanged, and a key already present keeps its place in insertion order. |
| MemoryCaching.DeleteStep | Python/utils/cache_manager.py:176-186 | Reports true exactly when the key was present. Exactly that entry is removed, and a missing key changes nothing. |
| MemoryCaching.GetStep | Python/utils/cache_manager.py:122-147 | A value is returned exactly when the key is present and not expired, and it is the stored value. An expired entry is removed. |
| MemoryCaching.GetStepAsWritten | Python/utils/cache_manager.py:122-147 | The source's `get`: the same result and the same entries as the corrected `GetStep`, but an expired read leaves `total_size` and `entry_count` unchanged. |
| MemoryCaching.Victim | Python/utils/cache_manager.py:235-256 | The key `_evict_one` picks is an entry of the cache. |
| MemoryCaching.EvictStep | Python/utils/cache_manager.py:235-258 | Nothing on an empty cache. Otherwise exactly the victim is removed and one eviction is counted. |
| MemoryCaching.Enforce | Python/utils/cache_manager.py:230-233 | When the loop ends, the cache is within both limits and holds a subset of the keys it started with. |
| MemoryCaching.GetKeepsConsistent | Python/utils/cache_manager.py:122-147 | The model's corrected `get`, whose expired read uses the accounting of `delete` (see Findings), keeps the counters equal to the count and size sum of the entries. |
| MemoryCaching.LruHitMovesToEnd | Python/utils/cache_manager.py:144-145 | A hit under LRU moves the key to the most recent end, so with two or more entries it is not the next victim. |
| MemoryCaching.VictimSpec | Python/utils/cache_manager.py:239-256 | The victim is an entry. Under LRU it is the first key in access order; under LFU it has the smallest access count, and under FIFO the earliest creation time. Under TTL it is expired whenever some entry is. |
| MemoryCaching.TtlVictimIsFirstExpired | Python/utils/cache_manager.py:247-251 | Under TTL the victim is the first expired key in insertion order. |
| MemoryCaching.EvictKeepsConsistent | Python/utils/cache_manager.py:235-258 | One eviction removes exactly the victim, keeps the counters consistent and counts one eviction. |
| MemoryCaching.EnforceWithinLimits | Python/utils/cache_manager.py:230-233 | From a consistent state the eviction loop ends within both limits, with one counted eviction per removed entry. Every surviving entry is unchanged. |
| MemoryCaching.SetStep | Python/utils/cache_manager.py:149-174 | After `set` the cache is consistent and within both limits. Every entry is the new one or an old one unchanged. |
| MemoryCaching.NegativeLimitNeverSettles | Python/utils/cache_manager.py:109-117 | As written, a negative `max_size` or `max_memory` is accepted, and then the eviction loop never ends from any consistent state. |
| MemoryCaching.SoleEntryFits | Python/utils/cache_manager.py:230-233 | A cache holding only an entry that fits in `max_memory` is within the limits when `max_size` is at least one. |
| MemoryCaching.LruEvictKeepsLast | Python/utils/cache_manager.py:239-240 | Under LRU, an eviction from two or more entries never takes the most recently used key. |
| MemoryCaching.LruEnforceKeepsLast | Python/utils/cache_manager.py:230-240 | Under LRU the eviction loop keeps the most recently used entry when that entry fits on its own. |
| MemoryCaching.SetThenGetUnderLru | Python/utils/cache_manager.py:122-174 | Under LRU, a new key that fits is read back by the next `get` with the value just set. |
| MemoryCaching.DeleteAllKeepsConsistent | Python/utils/cache_manager.py:222-223 | Deleting a list of keys keeps the counters consistent and removes exactly those keys. |
| MemoryCaching.DeleteByTagsSpec | Python/utils/cache_manager.py:214-224 | Exactly the entries whose tags meet the given tags are removed, the others are unchanged, and the count returned is the number removed. |
| MemoryCaching.MemoryCache.constructor | Python/utils/cache_manager.py:109-117 | A new cache is empty with zero counters. |
| MemoryCaching.MemoryCache.Get | Python/utils/cache_manager.py:122-147 | The corrected `get` (see Findings). A miss counts a miss. An expired entry is deleted with the accounting of `delete` and counts a miss and an eviction. A hit touches the entry, moves it to the most recent end under LRU, counts a hit and returns the value. |
| MemoryCaching.MemoryCache.Set | Python/utils/cache_manager.py:149-174 | The new state is the store followed by the eviction loop: consistent and within both limits. |
| MemoryCaching.MemoryCache.Delete | Python/utils/cache_manager.py:176-186 | Returns whether the key was present. A present key is removed from every structure, its size is subtracted and `entry_count` drops by one. |
| MemoryCaching.MemoryCache.Clear | Python/utils/cache_manager.py:188-193 | The cache ends empty with fresh counters. |
| MemoryCaching.MemoryCache.Exists | Python/utils/cache_manager.py:195-199 | True exactly when a `get` would hit. |
| MemoryCaching.MemoryCache.GetByTags | Python/utils/cache_manager.py:206-212 | Exactly the unexpired entries carrying one of the tags, with their values. |
| MemoryCaching.MemoryCache.TaggedKeys | Python/utils/cache_manager.py:216-220 | The keys carrying one of the tags, in insertion order. |
| MemoryCaching.MemoryCache.DeleteKeys | Python/utils/cache_manager.py:222-223 | Deletes the listed keys one after another. |
| MemoryCaching.MemoryCache.DeleteByTags | Python/utils/cache_manager.py:214-224 | Deletes the tagged keys and returns how many there were. |
| MemoryCaching.MemoryCache.EvictOne | Python/utils/cache_manager.py:235-258 | Nothing on an empty cache; otherwise one eviction of the victim. |
| MemoryCaching.MemoryCache.EnforceLimits | Python/utils/cache_manager.py:230-233 | The loop ends, and the cache is then within both limits. |
| MemoryCaching.ExpiredReadLeavesPhantomSize | Python/utils/cache_manager.py:132-138 | As written, an expired read keeps its size in `total_size`. Storing 50 bytes into the now empty cache, with room for 100, evicts the new entry at once. |
| MemoryCaching.ExpiredReadCorrected | Python/utils/cache_manager.py:132-138 | With the delete accounting, the same sequence keeps the 50-byte entry. |
| CacheComposition.Apply | Python/utils/cache_manager.py:510-518 | One recorded operation keeps the cache consistent. It yields a fetched value exactly for a get, and true for a set. |
| CacheComposition.RunAppend | Python/utils/cache_manager.py:510-518 | Replaying two operation lists one after the other is replaying their concatenation. |
| CacheComposition.RunResultAt | Python/utils/cache_manager.py:510-518 | The i-th result of a replay is what the i-th operation yields on the state the earlier operations left. |
| CacheComposition.Replay | Python/utils/cache_manager.py:507-520 | Replaying yields one result per recorded operation. |
| CacheComposition.ReplayResults | Python/utils/cache_manager.py:507-520 | A batch returns one result per operation, in order: a fetched value exactly for each get, and true for each set. |
| CacheComposition.ReplayAppend | Python/utils/cache_manager.py:507-520 | Executing a batch in two parts equals executing it at once. |
| CacheComposition.CacheBatch.constructor | Python/utils/cache_manager.py:491-493 | A new batch has no operations. |
| CacheComposition.CacheBatch.Get | Python/utils/cache_manager.py:495-497 | Appends a get to the operation list. |
| CacheComposition.CacheBatch.Set | Python/utils/cache_manager.py:499-501 | Appends a set to the operation list. |
| CacheComposition.CacheBatch.Delete | Python/utils/cache_manager.py:503-505 | Appends a delete to the operation list. |
| CacheComposition.CacheBatch.Execute | Python/utils/cache_manager.py:507-520 | The cache ends in the replayed state, the results are the replayed results, and the operation list ends empty. |
| CacheComposition.CacheBatch.Perform | Python/utils/cache_manager.py:510-518 | One operation applied to the cache in place. |
| CacheComposition.FirstLive | Python/utils/cache_manager.py:293-297 | The first level in L1, L2, L3 order whose cache holds a live entry for the key, or none. |
| CacheComposition.LevelOrderRanks | Python/utils/cache_manager.py:293 | L1, L2, L3 is the order of the levels' values and covers every level. |
| CacheComposition.ReadLevelsAt | Python/utils/cache_manager.py:293-296 | Reading levels up to a rank reads each of them once and leaves the others unchanged. |
| CacheComposition.PromoteLevelsAt | Python/utils/cache_manager.py:328-331 | Promotion sets the value in exactly the levels above the one it was found in. |
| CacheComposition.PromoteWithAt | Python/utils/cache_manager.py:328-331 | The promotion loop, for any per-level step, applies the step once to exactly the levels ranked above the one found, up to the point reached. |
| CacheComposition.PromoteNext | Python/utils/cache_manager.py:329-331 | One more round of the promotion loop updates at most the next level in order, and keeps every level well formed. |
| CacheComposition.PromoterKeepsOk | Python/utils/cache_manager.py:331 | Storing the promoted value keeps a level's cache consistent. |
| CacheComposition.LevelsStayOk | Python/utils/cache_manager.py:293-296 | Reading levels keeps every level's cache consistent. |
| CacheComposition.MultiLevelCache.constructor | Python/utils/cache_manager.py:285-287 | A new multi-level cache has no levels and zero counters. |
| CacheComposition.MultiLevelCache.AddLevel | Python/utils/cache_manager.py:289-290 | Installs a fresh cache at the level. |
| CacheComposition.MultiLevelCache.Get | Python/utils/cache_manager.py:292-302 | A miss at every level counts a miss. Otherwise it returns the value from the first level with a live entry, promotes it to every level above, and counts a hit. |
| CacheComposition.MultiLevelCache.ReadInOrder | Python/utils/cache_manager.py:293-299 | Reads the levels in order and stops at the first live one. |
| CacheComposition.MultiLevelCache.ReadAt | Python/utils/cache_manager.py:293-297 | One round of the read loop reads the next level in order. It hits exactly when that level is the first with a live entry, and then returns that entry's value. |
| CacheComposition.MultiLevelCache.PromoteAt | Python/utils/cache_manager.py:329-331 | One round of the promotion loop, in place. |
| CacheComposition.MultiLevelCache.PromoteToHigherLevels | Python/utils/cache_manager.py:328-331 | Sets the value in every level ranked above the level it was found in. |
| CacheComposition.MultiMissEffect | Python/utils/cache_manager.py:292-302 | On a miss no level held a live entry, and each level saw exactly one read. |
| CacheComposition.MultiHitEffect | Python/utils/cache_manager.py:292-302 | On a hit at level f, the levels above f missed and received the value. Level f saw one read, and the levels below f are untouched. |
| CacheComposition.PromotionSticksUnderLru | Python/utils/cache_manager.py:328-331 | Under LRU, a promoted value that fits is what the next read of that level returns. |
| CacheComposition.CacheFor | Python/utils/cache_manager.py:365-366 | `get_cache` returns the named cache, or the default cache for an unknown name. |
| CacheComposition.CacheManager.constructor | Python/utils/cache_manager.py:344-349 | The registry starts with a memory cache named "default". |
| CacheComposition.CacheManager.CreateCache | Python/utils/cache_manager.py:351-363 | Memory and hybrid backends register a new, distinct cache under the name; other backends are refused and nothing changes. |
| CacheComposition.CacheManager.DeleteCache | Python/utils/cache_manager.py:368-372 | Refuses "default" and unknown names. Otherwise exactly that name is removed and then resolves to the default cache. |
| CacheComposition.GetNode | Python/utils/cache_manager.py:536-541 | The node of the first ring hash at or above the key's hash, wrapping to the smallest hash. None only for an empty ring. |
| DatabaseRouting.ConnectionString | Python/utils/database_manager.py:71-83 | Supported types yield a string starting with their scheme and "://". Redis and MongoDB are refused. |
| DatabaseRouting.DifferentTypesDifferentStrings | Python/utils/database_manager.py:71-83 | Different supported types never produce the same connection string. |
| DatabaseRouting.SqliteStringNamesTheFile | Python/utils/database_manager.py:76-77 | Two SQLite strings are equal exactly when the database names are. |
| DatabaseRouting.HealthStatus | Python/utils/database_manager.py:563 | "healthy" exactly when there are no connection errors, "degraded" otherwise. |
| DatabaseRouting.CacheLookup | Python/utils/database_manager.py:438-446 | A result is served exactly when it is cached and younger than the TTL. A stale or missing entry is removed and reads as none. |
| DatabaseRouting.StoredResultServedWhileFresh | Python/utils/database_manager.py:438-450 | A result just stored is served while younger than the TTL. |
| DatabaseRouting.StaleStaysGone | Python/utils/database_manager.py:441-445 | Once a stale entry has been looked up, it is never served again. |
| DatabaseRouting.LookupLeavesOthers | Python/utils/database_manager.py:438-446 | A lookup leaves every other key's entry unchanged. |
| DatabaseRouting.QueryCache.constructor | Python/utils/database_manager.py:337-341 | The query cache starts empty with the five-minute TTL. |
| DatabaseRouting.QueryCache.GetCachedResult | Python/utils/database_manager.py:438-446 | Performs the lookup on the cache in place. |
| DatabaseRouting.QueryCache.CacheResult | Python/utils/database_manager.py:448-450 | Stores the result under the key. |
| DatabaseRouting.QueryCache.ClearCache | Python/utils/database_manager.py:452-454 | The cache ends empty. |
| DatabaseRouting.Advance | Python/utils/database_manager.py:767 | The next index is the following one, wrapping to 0 after the last. |
| DatabaseRouting.PicksAt | Python/utils/database_manager.py:761-768 | The j-th of consecutive selections is the index j places after the start, modulo the list length. |
| DatabaseRouting.RoundRobinVisitsAll | Python/utils/database_manager.py:761-768 | n consecutive selections on a list of length n visit every element exactly once. |
| DatabaseRouting.DatabaseRouter.constructor | Python/utils/database_manager.py:746-751 | Empty read and write lists, both indices at 0. |
| DatabaseRouting.DatabaseRouter.AddReadDatabase | Python/utils/database_manager.py:753-755 | Appends to the read list and leaves the index alone. |
| DatabaseRouting.DatabaseRouter.AddWriteDatabase | Python/utils/database_manager.py:757-759 | Appends to the write list and leaves the index alone. |
| DatabaseRouting.DatabaseRouter.GetReadDatabase | Python/utils/database_manager.py:761-768 | An empty read list is an error. Otherwise it returns the element at the current index and advances the index cyclically; writes are untouched. |
| DatabaseRouting.DatabaseRouter.GetWriteDatabase | Python/utils/database_manager.py:770-777 | The same rule on the write list, independently of reads. |

## Left out

- The asyncio machinery is not modelled: the event loop, the semaphore, `wait_for` timeouts, the queue worker's sleep loop, `wait_for_task` polling and the thread and process pools. Each modelled operation is one atomic step. That covers its lock-protected blocks and also the awaits without a lock inside it, such as the retry sleep and the task callback in `_execute_queued_task`; other coroutines interleaving at those awaits is not modelled. A timeout is a run that raised.
- `uuid4` ids are naturals from a counter. A unit of work is reduced to the outcome of its run, or to a success predicate per attempt for `execute_with_retry`. The coroutine object a queued task holds is not modelled; `TaskManager.ReawaitedOutcome` states what awaiting it a second time does to a retry (see Findings), and the manager's own runs take the outcome as given.
- Change callbacks and `_notify_callbacks` are not modelled, except as places where a cancellation can be delivered: a cancellation delivered in the `task_completed` notice is the outcome `ReturnedThenCancelled`, one in the `task_cancelled` notice is `Interrupted`, and one in the `task_failed` notice is `RaisedThenCancelled`.
- TaskManager.AsyncTaskManager.FinishTask: a cancellation delivered before the `try` (before the task's first step or in the `task_started` notice) or in the task's own `callback` inside the `finally` leaves the id in `_running_tasks` for good and the semaphore held. The model has no outcome for these: every modelled run ends with the id removed from the running set.
- TaskManager.AsyncTaskManager.FinishTask: a cancellation requested through `cancel_task` is recorded, but where it is delivered is chosen by the event loop, so the run's outcome is an input. A work that swallows the cancellation and returns or raises is covered by the same input.
- Floating point is left out:
  - the running averages of execution, access and query time, and `hit_rate`;
  - float parsing in `_parse_value`, where text with a dot becomes an opaque `FloatOrText` value;
  - retry delays and backoff, which are naturals.
- Time is a parameter `now`, and timestamps are integers.
- An entry's pickled size is a parameter of `MemoryCache.Set`.
- `random.choice` eviction uses a `pick` oracle passed in with the limits.
- The md5 hashing of keys and `_build_hash_ring` are not modelled. `GetNode` takes the key's hash and the ring, sorted by hash.
- Config I/O is not modelled: the JSON/YAML/TOML/INI loaders and savers, encryption, the file watcher, checksums and `os.environ` reading. The manager's constructor takes the configuration the environment loader read.
- `ConfigManager.has`, `get_profile`, `list_profiles`, `set_validator` and `reload_config`, and `ConfigProfile.update` and `merge`, are not modelled. They are thin wrappers outside the modelled operations.
- The singleton `__new__` patterns of `ConfigManager`, `CacheManager` and `DatabaseManager` are not modelled; each model class is constructed directly.
- ConfigTree.Assign, ConfigTree.Remove and ConfigTree.Merge: the in-place dictionary updates of `_set_nested_value`, `_delete_nested_value` and `_deep_merge` are functions on the `Node` value. Aliasing between nested dictionaries is not modelled.
- ConfigValidation.Validate: `config.copy()` in `validate` is shallow, so a default written under an existing nested dictionary also changes the caller's dictionary. The model copies by value and does not capture this. The same aliasing lets a later rule see a default an earlier rule wrote under an existing nested dictionary: take `db` present without `port` and two rules on `db.port`, the first required with a default and the second required without one. Python's first rule writes the port into the shared `db`, so its second rule finds it and the call succeeds. The model's second rule reads the caller's unchanged `db`, reports the port missing, and the call fails.
- A schema validator is a total predicate here; a validator that raises is not modelled.
- Text is ASCII: `Lower` folds only 'A' to 'Z', and `ParseInt` strips only ASCII whitespace and reads only ASCII digits (with a sign and single underscores). Python's Unicode-aware `str.lower()` and `int()` also fold other scripts' capitals, accept other scripts' digits and strip Unicode spaces; that is not modelled.
- ConfigManagement.FileName takes the last '/'-separated component that is neither empty nor ".", so "conf.yaml/" and "conf.yaml/." name "conf.yaml" as `Path` does. Other normalisations of `Path` (a Windows-style path, "..") are not modelled.
- MemoryCaching.MemoryCache.constructor requires limits that are not negative, and so do CacheComposition.MultiLevelCache.AddLevel and `SetStep`. The source accepts a negative limit, and then its first `set` never returns (see Findings). The model does not describe the class after such a constructor.
- MemoryCaching.MemoryCache.Get: a stored value of None reads as a miss in callers such as `MultiLevelCache.get`. The model's values are of a type parameter and have no None.
- The background cleanup thread of `MemoryCache`, `get_stats` with its memory recount, and the `CacheWarmer` and `CacheMonitor` helpers are not modelled.
- `MultiLevelCache.set`, `delete`, `clear`, `exists` and `get_stats` are not modelled. CacheComposition.MultiLevelCache holds its level caches as `LevelCache` values, so two levels sharing one cache object is not modelled.
- CacheComposition.Replay is a ghost fold. Its step refuses an inconsistent state, which the cache's own invariant rules out.
- CacheComposition.CacheManager.CreateCache: the Redis, Memcached and file backends raise NotImplementedError, and that raise is the modelled result. A cache is a handle with an id, not a live `MemoryCache`.
- Database drivers are not modelled: `ConnectionPool`, `DatabaseConnection`, `TransactionManager`, migrations, backups, `DatabaseMonitor` and the health-check threads. `health_check` is modelled only through its status rule on the error count.
- TaskCoordination.SubmitGroup: the RuntimeError that a full queue raises out of `execute_task_group` is the result `QueueFullAfter`. The tasks submitted before it stay queued and will run, and nothing in the group waits for them.
- TaskCoordination.ExecuteBatch: whether a chunk's submissions fit is an input `fits`, and the chunks are not run through the manager. Whether a chunk fits depends on how far the worker has drained the queue while the earlier chunks were awaited, and the model does not interleave the worker with the batch. The tasks that the refused chunk submitted before the raise are described by `SubmitGroup`, not here.
- Executing queries through the router (`execute_read_query`, `execute_write_query`) is not modelled.

## Findings

| source | as written | input that shows it | evidently intended | confidence | as-written member | corrected member |
|---|---|---|---|---|---|---|
| Python/utils/cache_manager.py:132-138 | `get` on an expired entry deletes it from `_cache` and `_access_order`, but does not lower `total_size` or `entry_count`. | Limits of 10 entries and 100 bytes, LRU. Store a 60-byte entry with a TTL of 1 at time 0, `get` it at time 2, then store a 50-byte entry. `total_size` reads 110, so the new entry is evicted at once from an otherwise empty cache. | The expired entry is removed with the same accounting as `delete`, so the counters always equal the count and size sum of the entries. | not executed | MemoryCaching.ExpiredReadLeavesPhantomSize | MemoryCaching.GetKeepsConsistent |
| Python/utils/cache_manager.py:109-117 | `MemoryCache` accepts any `max_size` and `max_memory`, and `_enforce_limits` (lines 230-233) loops while `len(self._cache) > self.max_size`, evicting through `_evict_one`, which does nothing on an empty cache. | `MemoryCache(max_size=-1)`, then any `set`: the entry count is never below 0, so the loop evicts down to the empty cache and then spins forever. | Limits are not negative, so the loop ends within both limits. | not executed | MemoryCaching.NegativeLimitNeverSettles | MemoryCaching.SetStep |
| Python/utils/async_task_manager.py:387-394 | A retry (lines 419-424) puts the same `QueuedTask` back in the queue, and the next run awaits its `coro` field (line 56) again. That coroutine object was already awaited by the first run. | `submit_task(flaky(), max_retries=1)`, where the work of `flaky` fails on its first attempt and would succeed on a second. The first run raises and is re-queued. The retry awaits the spent coroutine, which raises RuntimeError at once, so the task ends FAILED with `failed_tasks` raised by one. | Each retry runs the unit of work afresh, so a retry whose work returns ends COMPLETED. | not executed | TaskManager.RetriedNeverCompletes | TaskManager.AsyncTaskManager.FinishTask |
