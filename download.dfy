/** The download progress bookkeeping of `download.py`: one `Task` per
    segment being fetched, and the `Downloader` whose event handlers fold
    each task's lifecycle events into the session counters and bind each
    active task to a display slot. */
module Download {
  import opened Wrappers
  import opened Slots
  import opened Metrics
  import opened Events

  /** One segment download (a row of the progress display). */
  class Task {
    const id: int
    const pid: nat
    const filename: string
    var size: Option<nat>
    var downloaded: nat
    var progress: nat

    /** Before `on_start` nothing is downloaded; afterwards `progress` is the
        truncated percentage of the declared size. */
    ghost predicate Valid()
      reads this
    {
      && (size.None? ==> downloaded == 0)
      && progress == (if size.Some? && size.value > 0 then Percent(downloaded, size.value) else 0)
    }

    constructor (id: int, pid: nat, filename: string)
      ensures Valid()
      ensures this.id == id && this.pid == pid && this.filename == filename
      ensures size == None && downloaded == 0 && progress == 0
    {
      this.id, this.pid, this.filename := id, pid, filename;
      size, downloaded, progress := None, 0, 0;
    }

    /** The percentage never passes 100 while no more than the declared
        size has arrived, and reaches 100 exactly when all of it has. */
    lemma ProgressWithinHundred()
      requires Valid()
      requires size.Some? && size.value > 0 && downloaded <= size.value
      ensures progress <= 100
      ensures progress == 100 <==> downloaded == size.value
    {
      PercentBounds(downloaded, size.value);
    }

    /** `report_chunk`: count one more chunk and recompute the percentage.
        The size must be known and non-zero, or the division fails. */
    method ReportChunk(chunkSize: nat)
      requires size.Some? && size.value > 0
      modifies this
      ensures Valid()
      ensures size == old(size)
      ensures downloaded == old(downloaded) + chunkSize
      ensures progress == Percent(downloaded, size.value)
    {
      downloaded := downloaded + chunkSize;
      progress := Percent(downloaded, size.value);
    }
  }

  /** The error `run` raises before anything is scheduled. */
  datatype RunError = LengthMismatch(sources: nat, targets: nat)

  /** The check at the top of `run`: as many sources as targets, or an error
      naming both counts.  On success the value is the session's segment
      count. */
  function CheckLengths(sources: seq<string>, targets: seq<string>): (r: Result<nat, RunError>)
    ensures r.Ok? <==> |sources| == |targets|
    ensures r.Ok? ==> r.value == |sources| == |targets|
    ensures r.Err? ==> r.error.sources != r.error.targets
    ensures r.Err? ==> r.error == LengthMismatch(|sources|, |targets|)
  {
    if |sources| != |targets| then Err(LengthMismatch(|sources|, |targets|)) else Ok(|sources|)
  }

  /** One `(task_id, source, target)` triple scheduled by `download_all`. */
  datatype Job = Job(id: int, source: string, target: string)

  /** `enumerate(zip(sources, targets))`: the pairs in order, numbered from
      0, cut to the shorter list as `zip` does. */
  function Jobs(sources: seq<string>, targets: seq<string>): (jobs: seq<Job>)
    ensures |jobs| <= |sources| && |jobs| <= |targets|
    ensures |jobs| == |sources| || |jobs| == |targets|
    ensures forall i :: 0 <= i < |jobs| ==>
      jobs[i].id == i && jobs[i].source == sources[i] && jobs[i].target == targets[i]
  {
    var n := if |sources| <= |targets| then |sources| else |targets|;
    seq(n, i requires 0 <= i < n => Job(i, sources[i], targets[i]))
  }

  /** For lists `run` accepted, every pair becomes one job whose id is its
      position: the ids are pairwise distinct and are exactly
      `[0, chunk_count)`. */
  lemma JobIdsArePositions(sources: seq<string>, targets: seq<string>)
    requires CheckLengths(sources, targets).Ok?
    ensures |Jobs(sources, targets)| == CheckLengths(sources, targets).value
    ensures forall i :: 0 <= i < |sources| ==>
      Jobs(sources, targets)[i] == Job(i, sources[i], targets[i])
    ensures forall i, j :: 0 <= i < j < |sources| ==>
      Jobs(sources, targets)[i].id != Jobs(sources, targets)[j].id
    ensures (set j | j in Jobs(sources, targets) :: j.id) == Range(|sources|)
  {
    var jobs := Jobs(sources, targets);
    var ids := set j | j in jobs :: j.id;
    forall p | p in Range(|sources|)
      ensures p in ids
    {
      assert jobs[p] in jobs;
    }
    forall j | j in jobs
      ensures j.id in Range(|sources|)
    {
    }
  }

  /** The session counters `bytesDownloaded`, `vodCount` and `vodSize` are
      the totals of the events in `log`, and only initialised tasks are
      active (`active`) or have reported chunks. */
  ghost predicate LogAccounts(log: seq<Event>, bytesDownloaded: nat, vodCount: nat, vodSize: nat, active: set<int>)
  {
    && bytesDownloaded == ChunkBytes(log)
    && vodCount == |StartSizes(log)|
    && vodSize == Sum(StartSizes(log))
    && active <= InitIds(log)
    && ProgressIds(log) <= InitIds(log)
  }

  /** `on_init` of a new task: the counters stay, the task becomes active. */
  lemma InitKeepsAccounts(log: seq<Event>, bytesDownloaded: nat, vodCount: nat, vodSize: nat,
                          active: set<int>, id: int, filename: string)
    requires LogAccounts(log, bytesDownloaded, vodCount, vodSize, active)
    ensures LogAccounts(log + [Init(id, filename)], bytesDownloaded, vodCount, vodSize, active + {id})
  {
    Append(log, Init(id, filename));
  }

  /** `on_start`: one more size sample, `size` more bytes in the average. */
  lemma StartKeepsAccounts(log: seq<Event>, bytesDownloaded: nat, vodCount: nat, vodSize: nat,
                           active: set<int>, id: int, size: nat)
    requires LogAccounts(log, bytesDownloaded, vodCount, vodSize, active)
    ensures LogAccounts(log + [Start(id, size)], bytesDownloaded, vodCount + 1, vodSize + size, active)
  {
    Append(log, Start(id, size));
  }

  /** `on_progress` of an initialised task: `chunk` more bytes in all. */
  lemma ProgressKeepsAccounts(log: seq<Event>, bytesDownloaded: nat, vodCount: nat, vodSize: nat,
                              active: set<int>, id: int, chunk: nat)
    requires LogAccounts(log, bytesDownloaded, vodCount, vodSize, active)
    requires id in active
    ensures LogAccounts(log + [Progress(id, chunk)], bytesDownloaded + chunk, vodCount, vodSize, active)
  {
    Append(log, Progress(id, chunk));
  }

  /** `on_end`: the counters stay, the task is no longer active. */
  lemma EndKeepsAccounts(log: seq<Event>, bytesDownloaded: nat, vodCount: nat, vodSize: nat,
                         active: set<int>, id: int)
    requires LogAccounts(log, bytesDownloaded, vodCount, vodSize, active)
    ensures LogAccounts(log + [End(id)], bytesDownloaded, vodCount, vodSize, active - {id})
  {
    Append(log, End(id));
  }

  /** The overall estimate is unset until some task has reported its size;
      from then on it is the running-average estimate of the segment count
      and the sizes reported so far, it is positive, and `progress` is the
      truncated share of it downloaded. */
  ghost predicate EstimateConsistent(estimatedTotal: Option<nat>, chunkCount: Option<nat>, vodCount: nat, vodSize: nat,
                                     bytesDownloaded: nat, progress: nat)
  {
    && (estimatedTotal.None? ==> vodCount == 0 && bytesDownloaded == 0 && progress == 0)
    && (estimatedTotal.Some? ==>
          && chunkCount.Some? && vodCount > 0
          && estimatedTotal.value == Estimate(chunkCount.value, vodSize, vodCount)
          && estimatedTotal.value > 0
          && progress == Percent(bytesDownloaded, estimatedTotal.value))
  }

  /** A task filed under `id` in a session with `workerCount` slots: it
      holds a slot below `workerCount`, is consistent, and has downloaded
      what `log` reports for it; once it knows its size the session has an
      estimate (`started`). */
  ghost predicate TaskConsistent(task: Task, id: int, workerCount: nat, log: seq<Event>, started: bool)
    reads task
  {
    && task.id == id
    && task.pid < workerCount
    && task.Valid()
    && task.downloaded == TaskBytes(log, id)
    && (task.size.Some? ==> started)
  }

  ghost predicate TasksConsistent(tasks: map<int, Task>, workerCount: nat, log: seq<Event>, started: bool)
    reads tasks.Values
  {
    forall id :: id in tasks ==> TaskConsistent(tasks[id], id, workerCount, log, started)
  }

  /** `on_init` of a task that has reported no chunk: the new task, empty,
      joins the table and every other task stays consistent. */
  lemma InitKeepsTasks(tasks: map<int, Task>, workerCount: nat, log: seq<Event>, started: bool,
                       task: Task, filename: string)
    requires TasksConsistent(tasks, workerCount, log, started)
    requires task.id !in ProgressIds(log)
    requires task.pid < workerCount && task.Valid() && task.size.None?
    ensures TasksConsistent(tasks[task.id := task], workerCount, log + [Init(task.id, filename)], started)
  {
    var tasks', log' := tasks[task.id := task], log + [Init(task.id, filename)];
    NoChunksNoBytes(log, task.id);
    forall id | id in tasks'
      ensures TaskConsistent(tasks'[id], id, workerCount, log', started)
    {
      TaskBytesAppend(log, Init(task.id, filename), id);
    }
  }

  /** The slot held by each task of a table; a slot never changes. */
  function PidsOf(tasks: map<int, Task>): map<int, int>
  {
    map id | id in tasks :: tasks[id].pid
  }

  lemma PidsOfInsert(tasks: map<int, Task>, id: int, task: Task)
    ensures PidsOf(tasks[id := task]) == PidsOf(tasks)[id := task.pid]
  {
  }

  /** The slot of a task in the table is occupied. */
  lemma SlotIsOccupied(tasks: map<int, Task>, id: int)
    requires id in tasks
    ensures tasks[id].pid in PidsOf(tasks).Values
  {
    assert PidsOf(tasks)[id] == tasks[id].pid;
  }

  /** The occupied slots are exactly the slots of the tasks in the table. */
  lemma OccupiedSlots(tasks: map<int, Task>)
    ensures forall id :: id in tasks ==> tasks[id].pid in PidsOf(tasks).Values
    ensures forall p :: p in PidsOf(tasks).Values ==> exists id :: id in tasks && tasks[id].pid == p
  {
    forall id | id in tasks
      ensures tasks[id].pid in PidsOf(tasks).Values
    {
      SlotIsOccupied(tasks, id);
    }
    forall p | p in PidsOf(tasks).Values
      ensures exists id :: id in tasks && tasks[id].pid == p
    {
      ValueHasKey(PidsOf(tasks), p);
    }
  }

  /** A new task on a slot nobody holds: the slots stay distinct and gain
      exactly the new one. */
  lemma InsertKeepsSlots(tasks: map<int, Task>, task: Task)
    requires Injective(PidsOf(tasks))
    requires task.id !in tasks && task.pid !in PidsOf(tasks).Values
    ensures Injective(PidsOf(tasks[task.id := task]))
    ensures PidsOf(tasks[task.id := task]).Values == PidsOf(tasks).Values + {task.pid}
  {
    PidsOfInsert(tasks, task.id, task);
    ValuesOfInsert(PidsOf(tasks), task.id, task.pid);
    InjectiveInsert(PidsOf(tasks), task.id, task.pid);
  }

  lemma PidsOfRemove(tasks: map<int, Task>, id: int)
    ensures PidsOf(tasks - {id}) == PidsOf(tasks) - {id}
  {
  }

  /** The session state of `Downloader`. */
  class Downloader {
    const workerCount: nat
    var chunkCount: Option<nat>
    var vodCount: nat
    var vodSize: nat
    var bytesDownloaded: nat
    var estimatedTotal: Option<nat>
    var progress: nat
    var activeTasks: map<int, Task>
    /** Every event the handlers have consumed, in order. */
    ghost var Log: seq<Event>

    /** The slot each active task holds. */
    function Pids(): map<int, int>
      reads this`activeTasks
    {
      PidsOf(activeTasks)
    }

    /** The slots held by active tasks (`occupied_pids`). */
    function OccupiedPids(): (occupied: set<int>)
      reads this`activeTasks
      ensures forall id :: id in activeTasks ==> activeTasks[id].pid in occupied
      ensures forall p :: p in occupied ==> exists id :: id in activeTasks && activeTasks[id].pid == p
    {
      OccupiedSlots(activeTasks);
      Pids().Values
    }

    ghost predicate Valid()
      reads this, activeTasks.Values
    {
      TasksValid() && Injective(Pids()) && CountersValid() && EstimateValid()
    }

    /** Each active task is filed under its own id, holds a slot below
        `workerCount`, is consistent, and has downloaded what the log
        reports for it; a task that knows its size was started, so the
        estimate exists. */
    ghost predicate TasksValid()
      reads this`activeTasks, this`Log, this`estimatedTotal, activeTasks.Values
    {
      TasksConsistent(activeTasks, workerCount, Log, estimatedTotal.Some?)
    }

    /** The session counters are the totals of the events consumed so far,
        and only initialised tasks are active or have reported chunks. */
    ghost predicate CountersValid()
      reads this`bytesDownloaded, this`vodCount, this`vodSize, this`activeTasks, this`Log
    {
      LogAccounts(Log, bytesDownloaded, vodCount, vodSize, activeTasks.Keys)
    }

    /** The estimate is unset until the first `on_start`; from then on it is
        the running-average estimate, positive, and `progress` is the
        truncated share of it downloaded. */
    ghost predicate EstimateValid()
      reads this`estimatedTotal, this`chunkCount, this`vodCount, this`vodSize, this`bytesDownloaded, this`progress
    {
      EstimateConsistent(estimatedTotal, chunkCount, vodCount, vodSize, bytesDownloaded, progress)
    }

    constructor (workerCount: nat)
      ensures Valid()
      ensures this.workerCount == workerCount
      ensures chunkCount == None && estimatedTotal == None
      ensures vodCount == 0 && vodSize == 0 && bytesDownloaded == 0 && progress == 0
      ensures activeTasks == map[] && Log == []
    {
      this.workerCount := workerCount;
      chunkCount, estimatedTotal := None, None;
      vodCount, vodSize, bytesDownloaded, progress := 0, 0, 0, 0;
      activeTasks, Log := map[], [];
    }

    /** `run`: refuse mismatched lists before anything is scheduled,
        otherwise record the number of segments.  `run` comes before every
        download event. */
    method Run(sources: seq<string>, targets: seq<string>) returns (r: Result<nat, RunError>)
      requires Valid()
      requires Log == []
      modifies this`chunkCount
      ensures Valid()
      ensures r == CheckLengths(sources, targets)
      ensures r.Ok? ==> chunkCount == Some(|sources|)
      ensures r.Err? ==> chunkCount == old(chunkCount)
    {
      r := CheckLengths(sources, targets);
      if r.Ok? {
        chunkCount := Some(r.value);
      }
    }

    /** At most `workerCount` tasks are ever active: their slots are
        distinct and below `workerCount`. */
    lemma ActiveWithinBudget()
      requires Valid()
      ensures |activeTasks| <= workerCount
      ensures |OccupiedPids()| == |activeTasks|
    {
      assert Pids().Keys == activeTasks.Keys;
      AtMostWorkerCount(Pids(), workerCount);
      InjectiveValuesSize(Pids());
    }

    /** The overall percentage never passes 100 while the bytes received
        stay within the estimate, and reaches 100 exactly when they meet it. */
    lemma ProgressWithinHundred()
      requires Valid()
      requires estimatedTotal.Some? && bytesDownloaded <= estimatedTotal.value
      ensures progress <= 100
      ensures progress == 100 <==> bytesDownloaded == estimatedTotal.value
    {
      PercentBounds(bytesDownloaded, estimatedTotal.value);
    }

    /** No active task has downloaded more than the session as a whole. */
    lemma TaskWithinSession(id: int)
      requires Valid()
      requires id in activeTasks
      ensures activeTasks[id].downloaded <= bytesDownloaded
    {
      TaskBytesWithinTotal(Log, id);
    }

    /** Between handlers, a set estimate is always the running-average
        estimate of the sizes reported so far: the segment count times
        their total over their number, truncated. */
    lemma EstimateIsRunningAverage()
      requires Valid()
      requires estimatedTotal.Some?
      ensures chunkCount.Some?
      ensures estimatedTotal.value == Estimate(chunkCount.value, Sum(StartSizes(Log)), |StartSizes(Log)|)
    {
    }

    /** The byte counter is the sum of what every task ever initialised has
        downloaded, including the tasks `on_end` has since removed. */
    lemma BytesAreSumOfTasks()
      requires Valid()
      ensures bytesDownloaded == SumTaskBytes(Log, InitIds(Log))
    {
      ChunkBytesIsSumOfTasks(Log, InitIds(Log));
    }

    /** `get_free_pid`: the lowest slot no active task holds.  While fewer
        than `workerCount` tasks are active there is one. */
    function GetFreePid(): (pid: nat)
      requires Valid()
      requires |activeTasks| < workerCount
      reads this, activeTasks.Values
      ensures LowestFreeSlot(OccupiedPids(), workerCount) == Some(pid)
      ensures pid < workerCount && pid !in OccupiedPids()
      ensures forall q :: 0 <= q < pid ==> q in OccupiedPids()
    {
      ActiveWithinBudget();
      FreeSlotExists(OccupiedPids(), workerCount);
      LowestFreeSlot(OccupiedPids(), workerCount).value
    }

    /** `on_init`: bind a new task to the lowest free slot.  The semaphore
        around each download admits it only while fewer than `workerCount`
        tasks are active, and each task id is initialised once. */
    method OnInit(taskId: int, filename: string)
      requires Valid()
      requires taskId !in InitIds(Log)
      requires |activeTasks| < workerCount
      modifies this`activeTasks, this`Log
      ensures Valid()
      ensures taskId in activeTasks && fresh(activeTasks[taskId])
      ensures activeTasks == old(activeTasks)[taskId := activeTasks[taskId]]
      ensures LowestFreeSlot(old(OccupiedPids()), workerCount) == Some(activeTasks[taskId].pid)
      ensures OccupiedPids() == old(OccupiedPids()) + {activeTasks[taskId].pid}
      ensures activeTasks[taskId].id == taskId && activeTasks[taskId].filename == filename
      ensures activeTasks[taskId].size == None
      ensures activeTasks[taskId].downloaded == 0 && activeTasks[taskId].progress == 0
      ensures Log == old(Log) + [Init(taskId, filename)]
    {
      var pid := GetFreePid();
      var task := new Task(taskId, pid, filename);
      InitKeepsTasks(activeTasks, workerCount, Log, estimatedTotal.Some?, task, filename);
      InsertKeepsSlots(activeTasks, task);
      assert EstimateValid();
      activeTasks, Log := activeTasks[taskId := task], Log + [Init(taskId, filename)];
      assert EstimateValid();
      InitKeepsAccounts(old(Log), bytesDownloaded, vodCount, vodSize, old(activeTasks.Keys), taskId, filename);
    }

    /** `on_start`: the task learns its size, the running average gains a
        sample, and the total estimate and overall percentage are
        recomputed.  Each task starts once, after `run`; a zero estimate
        would make the percentage divide by zero. */
    method OnStart(taskId: int, size: nat)
      requires Valid()
      requires taskId in activeTasks && activeTasks[taskId].size.None?
      requires chunkCount.Some?
      requires Estimate(chunkCount.value, vodSize + size, vodCount + 1) > 0
      modifies this`vodCount, this`vodSize, this`estimatedTotal, this`progress, this`Log
      modifies activeTasks[taskId]
      ensures Valid()
      ensures activeTasks[taskId].size == Some(size)
      ensures activeTasks[taskId].downloaded == old(activeTasks[taskId].downloaded)
      ensures activeTasks[taskId].progress == old(activeTasks[taskId].progress)
      ensures vodCount == old(vodCount) + 1 && vodSize == old(vodSize) + size
      ensures estimatedTotal == Some(Estimate(chunkCount.value, vodSize, vodCount))
      ensures estimatedTotal == Some(Estimate(chunkCount.value, Sum(StartSizes(Log)), |StartSizes(Log)|))
      ensures progress == Percent(bytesDownloaded, estimatedTotal.value)
      ensures Log == old(Log) + [Start(taskId, size)]
    {
      var task := activeTasks[taskId];
      task.size := Some(size);
      vodCount := vodCount + 1;
      vodSize := vodSize + size;
      estimatedTotal := Some(Estimate(chunkCount.value, vodSize, vodCount));
      progress := Percent(bytesDownloaded, estimatedTotal.value);
      Log := Log + [Start(taskId, size)];
      StartKeepsAccounts(old(Log), old(bytesDownloaded), old(vodCount), old(vodSize), activeTasks.Keys, taskId, size);
    }

    /** `on_progress`: one chunk of `chunkSize` bytes of a started task
        raises that task's and the session's byte counts by exactly that
        much and recomputes both percentages. */
    method OnProgress(taskId: int, chunkSize: nat)
      requires Valid()
      requires taskId in activeTasks
      requires activeTasks[taskId].size.Some? && activeTasks[taskId].size.value > 0
      modifies this`bytesDownloaded, this`progress, this`Log
      modifies activeTasks[taskId]
      ensures Valid()
      ensures activeTasks == old(activeTasks)
      ensures activeTasks[taskId].size == old(activeTasks[taskId].size)
      ensures activeTasks[taskId].downloaded == old(activeTasks[taskId].downloaded) + chunkSize
      ensures activeTasks[taskId].progress
           == Percent(activeTasks[taskId].downloaded, activeTasks[taskId].size.value)
      ensures bytesDownloaded == old(bytesDownloaded) + chunkSize
      ensures estimatedTotal.Some? && progress == Percent(bytesDownloaded, estimatedTotal.value)
      ensures Log == old(Log) + [Progress(taskId, chunkSize)]
    {
      var task := activeTasks[taskId];
      task.ReportChunk(chunkSize);
      bytesDownloaded := bytesDownloaded + chunkSize;
      progress := Percent(bytesDownloaded, estimatedTotal.value);
      Log := Log + [Progress(taskId, chunkSize)];
      ProgressKeepsAccounts(old(Log), old(bytesDownloaded), vodCount, vodSize, activeTasks.Keys, taskId, chunkSize);
      forall id | id in activeTasks
        ensures activeTasks[id].downloaded == TaskBytes(Log, id)
      {
        if id != taskId {
          assert activeTasks[id].id != task.id;
        }
      }
    }

    /** `on_end`: the task leaves the active set and its slot becomes free;
        what it downloaded stays counted. */
    method OnEnd(taskId: int)
      requires Valid()
      requires taskId in activeTasks
      modifies this`activeTasks, this`Log
      ensures Valid()
      ensures activeTasks == old(activeTasks) - {taskId}
      ensures OccupiedPids() == old(OccupiedPids()) - {old(activeTasks[taskId].pid)}
      ensures Log == old(Log) + [End(taskId)]
    {
      ghost var pids := Pids();
      activeTasks := activeTasks - {taskId};
      Log := Log + [End(taskId)];
      EndKeepsAccounts(old(Log), bytesDownloaded, vodCount, vodSize, old(activeTasks.Keys), taskId);
      PidsOfRemove(old(activeTasks), taskId);
      ValuesOfRemove(pids, taskId);
    }
  }
}
