/** TaskSystem of core/task_system.py: the ordered queue of pending catalog
    changes. Each task is identified by the display name and the platform of
    its game; the queue holds at most one task per identity. */
module TaskSystem {
  import opened Wrappers
  import opened MetadataFormat

  datatype TaskType = Add | Remove | Update

  datatype TaskStatus = Pending | Success | Failed | Running

  /** A queued change: its kind, the game it applies to, its status and the
      error text of a failed run. */
  datatype Task = Task(kind: TaskType, game: Game, status: TaskStatus, error: string)

  /** The identity tasks are deduplicated on: (display name, platform). */
  datatype TaskKey = TaskKey(name: string, platform: string)

  function KeyOf(g: Game): TaskKey {
    TaskKey(g.game, g.platform)
  }

  /** No two tasks share an identity. */
  ghost predicate UniqueTasks(ts: seq<Task>) {
    forall i, j :: 0 <= i < j < |ts| ==> KeyOf(ts[i].game) != KeyOf(ts[j].game)
  }

  /** The position of the first task with identity k. */
  function FindTask(ts: seq<Task>, k: TaskKey): (r: Option<nat>)
    ensures r.Some? ==> r.value < |ts| && KeyOf(ts[r.value].game) == k
    ensures r.Some? ==> forall j :: 0 <= j < r.value ==> KeyOf(ts[j].game) != k
    ensures r.None? ==> forall j :: 0 <= j < |ts| ==> KeyOf(ts[j].game) != k
  {
    if ts == [] then None
    else if KeyOf(ts[0].game) == k then Some(0)
    else match FindTask(ts[1..], k)
      case None => None
      case Some(i) => Some(i + 1)
  }

  /** The queue after add_task(kind, g): the first task with g's identity gets
      the new kind, status Pending and no error, keeping its place and its
      original game; when there is none a fresh Pending task is appended. */
  function Staged(ts: seq<Task>, kind: TaskType, g: Game): (r: seq<Task>)
    ensures FindTask(ts, KeyOf(g)).Some? ==>
      var i := FindTask(ts, KeyOf(g)).value;
      |r| == |ts| && r[i] == Task(kind, ts[i].game, Pending, "")
      && forall j :: 0 <= j < |ts| && j != i ==> r[j] == ts[j]
    ensures FindTask(ts, KeyOf(g)).None? ==> r == ts + [Task(kind, g, Pending, "")]
  {
    match FindTask(ts, KeyOf(g))
    case Some(i) => ts[i := ts[i].(kind := kind, status := Pending, error := "")]
    case None => ts + [Task(kind, g, Pending, "")]
  }

  /** The queue without the tasks of identity k (remove_task). */
  function Without(ts: seq<Task>, k: TaskKey): (r: seq<Task>)
    ensures |r| <= |ts|
    ensures forall t :: t in r <==> t in ts && KeyOf(t.game) != k
  {
    if ts == [] then []
    else if KeyOf(ts[0].game) == k then Without(ts[1..], k)
    else [ts[0]] + Without(ts[1..], k)
  }

  /** The number of tasks of the given kind. */
  function CountKind(ts: seq<Task>, kind: TaskType): nat {
    if ts == [] then 0
    else CountKind(ts[..|ts| - 1], kind) + (if ts[|ts| - 1].kind == kind then 1 else 0)
  }

  /** get_task_count's result: one counter per task type. */
  datatype TaskCount = TaskCount(adds: nat, removes: nat, updates: nat)

  class TaskQueue {
    var tasks: seq<Task>

    constructor ()
      ensures tasks == []
    {
      tasks := [];
    }

    /** TaskQueue.add_task */
    method AddTask(kind: TaskType, g: Game)
      modifies this
      ensures tasks == Staged(old(tasks), kind, g)
      ensures UniqueTasks(old(tasks)) ==> UniqueTasks(tasks)
    {
      if UniqueTasks(tasks) {
        StagedKeepsUnique(tasks, kind, g);
      }
      var i := 0;
      while i < |tasks|
        invariant 0 <= i <= |tasks|
        invariant forall j :: 0 <= j < i ==> KeyOf(tasks[j].game) != KeyOf(g)
      {
        var t := tasks[i];
        if t.game.game == g.game && t.game.platform == g.platform {
          tasks := tasks[i := t.(kind := kind, status := Pending, error := "")];
          return;
        }
        i := i + 1;
      }
      tasks := tasks + [Task(kind, g, Pending, "")];
    }

    /** TaskQueue.remove_task */
    method RemoveTask(g: Game)
      modifies this
      ensures tasks == Without(old(tasks), KeyOf(g))
      ensures UniqueTasks(old(tasks)) ==> UniqueTasks(tasks)
    {
      if UniqueTasks(tasks) {
        WithoutKeepsUnique(tasks, KeyOf(g));
      }
      tasks := Without(tasks, KeyOf(g));
    }

    /** TaskQueue.clear */
    method Clear()
      modifies this
      ensures tasks == []
    {
      tasks := [];
    }

    /** TaskQueue.get_task_count: the tasks of each type, counted in one pass. */
    method GetTaskCount() returns (r: TaskCount)
      ensures r == TaskCount(CountKind(tasks, Add), CountKind(tasks, Remove), CountKind(tasks, Update))
      ensures r.adds + r.removes + r.updates == |tasks|
    {
      var adds, removes, updates := 0, 0, 0;
      for i := 0 to |tasks|
        invariant adds == CountKind(tasks[..i], Add)
        invariant removes == CountKind(tasks[..i], Remove)
        invariant updates == CountKind(tasks[..i], Update)
      {
        assert tasks[..i + 1][..i] == tasks[..i];
        match tasks[i].kind
        case Add => adds := adds + 1;
        case Remove => removes := removes + 1;
        case Update => updates := updates + 1;
      }
      assert tasks[..|tasks|] == tasks;
      r := TaskCount(adds, removes, updates);
      CountsCoverQueue(tasks);
    }

    /** TaskQueue.has_pending_tasks: a non-empty queue, whatever the statuses. */
    function HasPendingTasks(): (r: bool)
      reads this
      ensures (exists i :: 0 <= i < |tasks| && tasks[i].status == Pending) ==> r
      ensures r <==> tasks != []
    {
      |tasks| > 0
    }

    /** Sets the status (and error text) of the task at position i, as the
        batch executor does on the task objects it iterates. */
    method SetStatus(i: nat, status: TaskStatus, error: string)
      requires i < |tasks|
      modifies this
      ensures tasks == old(tasks)[i := old(tasks)[i].(status := status, error := error)]
    {
      tasks := tasks[i := tasks[i].(status := status, error := error)];
    }
  }

  /** The three counters together count every task once. */
  lemma {:induction false} CountsCoverQueue(ts: seq<Task>)
    ensures CountKind(ts, Add) + CountKind(ts, Remove) + CountKind(ts, Update) == |ts|
  {
    if ts != [] {
      CountsCoverQueue(ts[..|ts| - 1]);
    }
  }

  /** add_task keeps the queue free of duplicate identities. */
  lemma StagedKeepsUnique(ts: seq<Task>, kind: TaskType, g: Game)
    requires UniqueTasks(ts)
    ensures UniqueTasks(Staged(ts, kind, g))
  {
  }

  /** Whatever the queue held, after add_task exactly one task carries g's
      identity when identities were unique before, and it is Pending with
      the requested kind. */
  lemma StagedHoldsTask(ts: seq<Task>, kind: TaskType, g: Game)
    requires UniqueTasks(ts)
    ensures var r := Staged(ts, kind, g);
      exists i :: 0 <= i < |r| && KeyOf(r[i].game) == KeyOf(g) && r[i].kind == kind
        && r[i].status == Pending && r[i].error == ""
        && forall j :: 0 <= j < |r| && j != i ==> KeyOf(r[j].game) != KeyOf(g)
  {
    var r := Staged(ts, kind, g);
    match FindTask(ts, KeyOf(g))
    case Some(i) =>
      assert KeyOf(r[i].game) == KeyOf(g);
    case None =>
      assert KeyOf(r[|ts|].game) == KeyOf(g);
  }

  /** remove_task keeps the relative order of the other tasks: removing from
      a concatenation removes from each part. */
  lemma {:induction false} WithoutAppend(a: seq<Task>, b: seq<Task>, k: TaskKey)
    ensures Without(a + b, k) == Without(a, k) + Without(b, k)
  {
    if a != [] {
      assert (a + b)[1..] == a[1..] + b;
      WithoutAppend(a[1..], b, k);
    } else {
      assert a + b == b;
    }
  }

  /** Removing leaves a queue without duplicates free of duplicates. */
  lemma {:induction false} WithoutKeepsUnique(ts: seq<Task>, k: TaskKey)
    requires UniqueTasks(ts)
    ensures UniqueTasks(Without(ts, k))
  {
    if ts != [] {
      WithoutKeepsUnique(ts[1..], k);
      var rest := Without(ts[1..], k);
      forall t | t in rest
        ensures KeyOf(t.game) != KeyOf(ts[0].game)
      {
        var j :| 0 <= j < |ts[1..]| && ts[1..][j] == t;
        assert ts[j + 1] == t;
      }
    }
  }
}
