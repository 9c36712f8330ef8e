# Download progress bookkeeping of `download.py`

This project models the progress bookkeeping of the twitch-dl segment
downloader (`download.py`). A `Downloader` session fetches a list of
segment files with at most `worker_count` downloads in flight. Each
download reports four events, always in the order
`on_init → on_start → on_progress* → on_end`, and the handlers fold them
into the session state:

- `on_init` binds the new `Task` to the lowest free display slot ("pid",
  one row of the progress view), found by `get_free_pid`;
- `on_start` records the segment's declared size and recomputes the
  running-average estimate of the session's total size
  (`chunk_count * vod_size / vod_count`) and the overall percentage;
- `on_progress` adds one chunk to the task's and the session's byte
  counters and recomputes both truncated percentages;
- `on_end` frees the task's slot.

`run` refuses source and target lists of different lengths before anything
is scheduled, and `download_all` numbers the jobs by their position.

Files:

- `wrappers.dfy`: `Option` and `Result`.
- `slots.dfy` (module `Slots`): the lowest-free-slot search, and facts about
  maps from task ids to distinct slots.
- `metrics.dfy` (module `Metrics`): truncating percentages, the
  running-average estimate, sums of sizes.
- `events.dfy` (module `Events`): the lifecycle events and the totals a log
  of events determines (bytes per task and in all, sizes announced, ids
  seen).
- `download.dfy` (module `Download`): the `Task` and `Downloader` classes
  and their handlers, the length check of `run`, the job numbering of
  `download_all`.
- `scenario.dfy` (module `Scenario`): `on_end` followed by `on_init`.

`Task` and `Downloader` are classes whose methods update their fields in
place, as the Python code does. `get_free_pid`, the length check and the
job numbering are pure functions. The `Downloader` carries a ghost log of
every event it has handled. Its invariant `Valid()` ties the counters to
that log:

- `bytes_downloaded` is the total of all chunks;
- `vod_count` and `vod_size` are the number and total of the declared sizes;
- once set, the estimate is `chunk_count` times the total of the declared
  sizes over their number, truncated, and the overall percentage is the
  truncated share of it downloaded;
- each active task's `downloaded` is the total of its own chunks;
- active tasks hold pairwise distinct slots below `worker_count`.

Python's `int(100 * a / b)` and `int(c * s / n)` on non-negative integers
are modelled as floor division of natural numbers. The Python list
`occupied_pids` is modelled as the set of occupied slots, which is enough
because the code only asks whether a slot is in it.

Conditions the Python code leaves to its callers, or that raise there, are
preconditions of the handlers:

- each task is initialised once and started once, before its chunks arrive;
- fewer than `worker_count` tasks are active when `on_init` fires (the
  semaphore of `download_one`);
- `run` has set `chunk_count` before any `on_start`;
- no division by a zero size or a zero estimate.

## Model

| member | source | states |
|---|---|---|
| Slots.Range | download.py:103 | `range(worker_count)`: exactly the slots `0 <= p < worker_count`, `worker_count` of them |
| Slots.FreeSlotFrom | download.py:103 | the generator scan: the first slot at or above `from` that no task holds, with every slot skipped occupied; `None` only when all remaining slots are occupied |
| Slots.LowestFreeSlot | download.py:101-104 | `get_free_pid` on a set of occupied slots: the result is below `worker_count`, not occupied, and every lower slot is occupied; it is `None` (StopIteration) exactly when every slot in `[0, worker_count)` is occupied |
| Slots.FreeSlotExists | download.py:101-104 | with fewer occupied slots than workers, a free slot is always found (StopIteration cannot happen) |
| Slots.FreedSlotIsReused | download.py:101-104 | once slot `k` is freed and every lower slot is still held, the next search returns `k` |
| Slots.AtMostWorkerCount | download.py:101-104 | tasks holding pairwise distinct slots in `[0, worker_count)` number at most `worker_count` |
| Slots.InjectiveValuesSize | download.py:102 | with distinct slots, the set of occupied slots has as many elements as there are active tasks |
| Slots.ValuesOfInsert | download.py:98 | binding a new task id adds exactly its slot to the occupied slots |
| Slots.InjectiveInsert | download.py:96-98 | binding a new task to a slot nobody holds keeps the slots distinct |
| Slots.ValuesOfRemove | download.py:130 | deleting a task frees exactly its slot, and the remaining slots stay distinct |
| Metrics.Percent | download.py:45 | `int(100 * done / total)`: the result is the floor of the exact ratio, `p * total <= 100 * done < (p + 1) * total` (the same formula at lines 113 and 120) |
| Metrics.Estimate | download.py:112 | `int(chunk_count * vod_size / vod_count)`: the result is the floor of the exact quotient, `e * vod_count <= chunk_count * vod_size < (e + 1) * vod_count` |
| Metrics.PercentBounds | download.py:45 | the truncated percentage is the floor of the exact ratio; it is at most 100 while `done <= total`, below 100 while `done < total`, and exactly 100 when `done == total` |
| Metrics.PercentMonotone | download.py:120 | for the same total (the estimate between two `on_start` calls), more bytes never show a smaller truncated percentage |
| Metrics.SumBounds | download.py:111 | the sum of `n` sizes lies between `n` times the smallest and `n` times the largest |
| Metrics.EstimateWithinSizes | download.py:112 | the running-average estimate lies between `chunk_count` times the smallest and `chunk_count` times the largest size announced so far |
| Metrics.EstimateOfUniformSizes | download.py:112 | when all announced sizes are equal, the estimate is exactly `chunk_count` times that size |
| Events.Append | download.py:110-119 | one more event changes each log total by that event's own share only |
| Events.TaskBytesAppend | download.py:44 | one more event adds its chunk to its own task's total and to no other task's |
| Events.ChunkBytesIsSumOfTasks | download.py:119 | every chunk belongs to exactly one task: the session total is the sum of the per-task totals, finished tasks included |
| Events.NoChunksNoBytes | download.py:38 | a task that has reported no chunk has downloaded nothing |
| Events.TaskBytesWithinTotal | download.py:44 | no task has more bytes than the session as a whole |
| Download.Task.constructor | download.py:32-39 | a new task has the given id, slot and file name, no size, nothing downloaded and progress 0 |
| Download.Task.ReportChunk | download.py:43-45 | `report_chunk`: `downloaded` grows by exactly the chunk, the size stays, `progress` is the truncated percentage of the size |
| Download.Task.ProgressWithinHundred | download.py:45 | a task's percentage stays at most 100 while no more than its size has arrived, and is 100 exactly when all of it has |
| Download.CheckLengths | download.py:82-85 | `run` succeeds exactly when there are as many sources as targets, with the segment count as value; otherwise the error carries both (different) counts |
| Download.Jobs | download.py:187-188 | `enumerate(zip(sources, targets))`: as many jobs as the shorter list has elements, and job `i` carries id `i` with the `i`-th source and target |
| Download.JobIdsArePositions | download.py:187-188 | for accepted lists there is one job per pair, its id is its position, ids are pairwise distinct and are exactly `[0, chunk_count)` |
| Download.InitKeepsAccounts | download.py:94-98 | `on_init` leaves every session counter as it is and makes the task active |
| Download.StartKeepsAccounts | download.py:110-111 | `on_start` adds one sample to `vod_count` and its size to `vod_size`, and nothing to `bytes_downloaded` |
| Download.ProgressKeepsAccounts | download.py:119 | `on_progress` adds exactly the chunk to `bytes_downloaded` and nothing to the size statistics |
| Download.EndKeepsAccounts | download.py:130 | `on_end` leaves every counter as it is and makes the task inactive |
| Download.InitKeepsTasks | download.py:96-98 | the new, empty task joins the table and every other task stays consistent with the log |
| Download.InsertKeepsSlots | download.py:96-98 | a new task on a slot nobody holds keeps the slots distinct and adds exactly its slot to the occupied ones |
| Download.Downloader.constructor | download.py:53-64 | a new session: no segment count, no estimate, all counters 0, no active task, and the invariant holds |
| Download.Downloader.Run | download.py:81-85 | the length check runs before any download event; on success `chunk_count` is the number of sources, on failure nothing changes |
| Download.Downloader.OccupiedPids | download.py:102 | `occupied_pids`: every active task's slot is in the set, and every slot in it belongs to some active task |
| Download.Downloader.EstimateIsRunningAverage | download.py:112 | at every point between handlers a set estimate is `chunk_count` times the total of all sizes announced so far over their number, truncated |
| Download.Downloader.ActiveWithinBudget | download.py:101-104 | at most `worker_count` tasks are active, and they occupy as many distinct slots as there are tasks |
| Download.Downloader.GetFreePid | download.py:101-104 | with fewer than `worker_count` active tasks: the lowest slot no active task holds, below `worker_count` |
| Download.Downloader.OnInit | download.py:94-98 | exactly one new entry `Task(task_id, pid, filename)` with no size, nothing downloaded and progress 0, where `pid` is the lowest free slot; the occupied slots gain exactly `pid`; every other task and every counter stays; the invariant holds |
| Download.Downloader.OnStart | download.py:106-113 | the task's size is set while its bytes and percentage stay as they were, `vod_count` grows by 1 and `vod_size` by the size, the estimate is `floor(chunk_count * vod_size / vod_count)` (the running average of all sizes announced), and `progress == floor(100 * bytes_downloaded / estimated_total)` |
| Download.Downloader.OnProgress | download.py:115-120 | the task's and the session's byte counts grow by exactly the chunk; both percentages are the truncated shares of the task size and of the estimate; the invariant holds |
| Download.Downloader.OnEnd | download.py:127-130 | the task leaves the table, the occupied slots lose exactly its slot, and the counters stay |
| Download.Downloader.ProgressWithinHundred | download.py:120 | the overall percentage stays at most 100 while the bytes stay within the estimate, and is 100 exactly when they meet it |
| Download.Downloader.TaskWithinSession | download.py:117-119 | no active task has downloaded more than the whole session |
| Download.Downloader.BytesAreSumOfTasks | download.py:115-119 | `bytes_downloaded` is the sum of what every task ever initialised has downloaded, including tasks `on_end` has removed |
| Scenario.EndThenInit | download.py:94-130 | after `on_end` frees slot `k`, with every lower slot held, the next `on_init` gets `k` again and the occupied slots are as before |

## Left out

- Network and file I/O: `download_one`, `download_all`, `Downloader.download`, the HTTP client, file writes, the semaphore and `asyncio.gather` are not modelled. Their effect on the bookkeeping is the event order and the bound on active tasks, which are preconditions of the handlers.
- The `__main__` block (Twitch API calls, playlist parsing) is not modelled.
- Wall-clock and floating-point quantities are not modelled: `start_time`, `Task.speed`, `avg_speed` (which subtracts the elapsed time) and `estimated_remaining_time`. Two of these divisions can also fail, and neither failure is modelled: the division by the elapsed time for `Task.speed` in `report_chunk`, when no time has passed, and the division by `avg_speed` in `on_progress`.
- Rendering is not modelled: `set_task_progress`, `update_header`, the prompt_toolkit application and its widgets. The slot invariant (`pid < worker_count`) is what keeps the `progress_bars[task.pid]` index in range.
- `os.path.basename` of the target is not modelled; the file name is an opaque string.
- `active_tasks` is a class attribute in the Python code, shared by every `Downloader` instance; here it is a field of each instance.
- Python evaluates `100 * a / b` and `c * s / n` in floating point before `int()`; the model uses exact floor division, which agrees while the operands stay below 2^53.
- A missing content-length header makes `int(None)` raise in `download_one`, so the code has no task of unknown size; the model follows the code, and every started task has a size.
- Before the first `on_start` the overall percentage is the class attribute value 0 and the estimate is unset; the model keeps exactly that state.
- An exception in the middle of a stream skips `on_end`, so that slot is never freed; the model has no error path for it.
- Download.Downloader.OnInit: requires a task id never initialised before (the Python code would silently overwrite the entry); `download_all` numbers ids by position, so each id is initialised once.
- Download.Downloader.OnStart: requires a task not yet started, a segment count set by `run` and a non-zero estimate; in Python the last two raise, and the first cannot happen in `download_one`.
- Download.Downloader.OnProgress: requires a started task with a non-zero size; in Python an unknown or zero size raises in `report_chunk`.
- Download.Downloader.OnEnd: requires an active task; in Python an unknown id raises `KeyError`.
- Download.Downloader.Run: requires that no download event has been handled yet, as `run` sets `chunk_count` before it schedules the downloads; a second `run` on a session already under way (which would change `chunk_count` under an existing estimate) is not modelled.
- Download.Downloader.Run: models only the length check and the assignment of `chunk_count`; scheduling the download and running the UI are not modelled.
