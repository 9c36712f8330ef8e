/** The lifecycle events one segment download reports to the progress
    bookkeeping, in the order they are delivered, and the totals a log of
    such events determines. */
module Events {
  import opened Slots
  import opened Metrics

  /** One callback of a segment download: `on_init`, `on_start`,
      `on_progress` or `on_end`, with its task id and payload. */
  datatype Event =
    | Init(id: int, filename: string)
    | Start(id: int, size: nat)
    | Progress(id: int, chunk: nat)
    | End(id: int)

  /** The bytes of every chunk reported in `log`, whatever its task. */
  function ChunkBytes(log: seq<Event>): nat
  {
    if log == [] then 0
    else ChunkBytes(log[..|log| - 1]) + (if log[|log| - 1].Progress? then log[|log| - 1].chunk else 0)
  }

  /** The bytes of the chunks reported in `log` for task `id`. */
  function TaskBytes(log: seq<Event>, id: int): nat
  {
    if log == [] then 0
    else
      var e := log[|log| - 1];
      TaskBytes(log[..|log| - 1], id) + (if e.Progress? && e.id == id then e.chunk else 0)
  }

  /** The sizes announced by the `Start` events of `log`, in order. */
  function StartSizes(log: seq<Event>): seq<nat>
  {
    if log == [] then []
    else StartSizes(log[..|log| - 1]) + (if log[|log| - 1].Start? then [log[|log| - 1].size] else [])
  }

  /** The ids of the tasks `log` initialised. */
  function InitIds(log: seq<Event>): set<int>
  {
    if log == [] then {}
    else InitIds(log[..|log| - 1]) + (if log[|log| - 1].Init? then {log[|log| - 1].id} else {})
  }

  /** The ids of the tasks `log` reports chunks for. */
  function ProgressIds(log: seq<Event>): set<int>
  {
    if log == [] then {}
    else ProgressIds(log[..|log| - 1]) + (if log[|log| - 1].Progress? then {log[|log| - 1].id} else {})
  }

  /** Appending one event to the log changes each total by that event's
      share alone. */
  lemma Append(log: seq<Event>, e: Event)
    ensures ChunkBytes(log + [e]) == ChunkBytes(log) + (if e.Progress? then e.chunk else 0)
    ensures e.Start? ==> StartSizes(log + [e]) == StartSizes(log) + [e.size]
    ensures e.Start? ==> Sum(StartSizes(log + [e])) == Sum(StartSizes(log)) + e.size
    ensures !e.Start? ==> StartSizes(log + [e]) == StartSizes(log)
    ensures InitIds(log + [e]) == InitIds(log) + (if e.Init? then {e.id} else {})
    ensures ProgressIds(log + [e]) == ProgressIds(log) + (if e.Progress? then {e.id} else {})
  {
    assert (log + [e])[..|log|] == log;
    if e.Start? {
      SumAppend(StartSizes(log), e.size);
    } else {
      assert StartSizes(log) + [] == StartSizes(log);
    }
  }

  /** Appending one event adds its chunk, if any, to its own task only. */
  lemma TaskBytesAppend(log: seq<Event>, e: Event, id: int)
    ensures TaskBytes(log + [e], id) == TaskBytes(log, id) + (if e.Progress? && e.id == id then e.chunk else 0)
  {
    assert (log + [e])[..|log|] == log;
  }

  /** The total of `TaskBytes` over a set of task ids. */
  ghost function SumTaskBytes(log: seq<Event>, ids: set<int>): nat
    decreases ids
  {
    if ids == {} then 0
    else
      var id := Pick(ids);
      TaskBytes(log, id) + SumTaskBytes(log, ids - {id})
  }

  /** Some element of a non-empty set of ids. */
  ghost function Pick(ids: set<int>): (id: int)
    requires ids != {}
    ensures id in ids
  {
    HasElement(ids);
    var id :| id in ids; id
  }

  lemma {:induction false} SumTaskBytesAppend(log: seq<Event>, e: Event, ids: set<int>)
    ensures SumTaskBytes(log + [e], ids)
         == SumTaskBytes(log, ids) + (if e.Progress? && e.id in ids then e.chunk else 0)
    decreases ids
  {
    if ids != {} {
      var id := Pick(ids);
      TaskBytesAppend(log, e, id);
      SumTaskBytesAppend(log, e, ids - {id});
    }
  }

  /** Every chunk belongs to exactly one task: the session's byte total is
      the sum of the per-task totals over any set of ids that holds every
      task that reported a chunk, finished tasks included. */
  lemma {:induction false} ChunkBytesIsSumOfTasks(log: seq<Event>, ids: set<int>)
    requires ProgressIds(log) <= ids
    ensures ChunkBytes(log) == SumTaskBytes(log, ids)
  {
    if log == [] {
      ZeroSum(log, ids);
    } else {
      var prefix, e := log[..|log| - 1], log[|log| - 1];
      assert log == prefix + [e];
      Append(prefix, e);
      ChunkBytesIsSumOfTasks(prefix, ids);
      SumTaskBytesAppend(prefix, e, ids);
    }
  }

  lemma {:induction false} ZeroSum(log: seq<Event>, ids: set<int>)
    requires log == []
    ensures SumTaskBytes(log, ids) == 0
    decreases ids
  {
    if ids != {} {
      var id := Pick(ids);
      ZeroSum(log, ids - {id});
    }
  }

  /** A task that reported no chunk has downloaded nothing. */
  lemma {:induction false} NoChunksNoBytes(log: seq<Event>, id: int)
    requires id !in ProgressIds(log)
    ensures TaskBytes(log, id) == 0
  {
    if log != [] {
      NoChunksNoBytes(log[..|log| - 1], id);
    }
  }

  /** No task has more bytes than the session as a whole. */
  lemma {:induction false} TaskBytesWithinTotal(log: seq<Event>, id: int)
    ensures TaskBytes(log, id) <= ChunkBytes(log)
  {
    if log != [] {
      TaskBytesWithinTotal(log[..|log| - 1], id);
    }
  }
}
