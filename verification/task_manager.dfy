/** `cotask::task_manager` (task_manager.h): a table of tasks by id, each with at most one
    timeout checkpoint, an ordered set of the checkpoints, and a clock that only moves forward.
    `tick` kills every task whose checkpoint has passed with TIMEOUT.

    The kills, starts and cancels the manager makes go through the `Tasks.Task` methods; each
    takes the code a finish notification lets the coroutine return (`finalCode`) and the set of
    C++20 handles that are already done. The start and resume calls a kill makes on its
    task's successors come back as a `Dispatch` plan and are not run before the next kill, so
    the statuses the methods here state are those before the caller carries the plan out. */
module TaskManagers {
  import opened CoppErrors
  import opened Optional
  import opened TaskImpl
  import opened Tasks
  import CC = CoroutineContext
  import CH = CoroutineContextH

  /** `tickspec_t`: seconds and nanoseconds, compared lexicographically. Neither field is
      normalised. */
  datatype TickSpec = TickSpec(sec: int, nsec: int)

  predicate TickLess(a: TickSpec, b: TickSpec)
  {
    if a.sec != b.sec then a.sec < b.sec else a.nsec < b.nsec
  }

  predicate TickLe(a: TickSpec, b: TickSpec)
  {
    if a.sec != b.sec then a.sec <= b.sec else a.nsec <= b.nsec
  }

  /** The comparison operators form a strict total order, `<=` is `<` or `==`, and the
      guard `tick` opens with is `now <= last`. */
  lemma TickOrder(a: TickSpec, b: TickSpec, c: TickSpec)
    ensures !TickLess(a, a)
    ensures TickLess(a, b) && TickLess(b, c) ==> TickLess(a, c)
    ensures TickLess(a, b) || a == b || TickLess(b, a)
    ensures TickLe(a, b) <==> TickLess(a, b) || a == b
    ensures TickLe(a, b) <==> !TickLess(b, a)
  {
  }

  /** `task_timer_node`: a checkpoint, ordered by expiry and then by task id. */
  datatype TimerNode = TimerNode(expiry: TickSpec, taskId: nat)

  predicate NodeLess(a: TimerNode, b: TimerNode)
  {
    if a.expiry != b.expiry then TickLess(a.expiry, b.expiry) else a.taskId < b.taskId
  }

  lemma NodeOrder(a: TimerNode, b: TimerNode, c: TimerNode)
    ensures !NodeLess(a, a)
    ensures NodeLess(a, b) && NodeLess(b, c) ==> NodeLess(a, c)
    ensures NodeLess(a, b) || a == b || NodeLess(b, a)
  {
    TickOrder(a.expiry, b.expiry, c.expiry);
  }

  /** A `std::set` of checkpoints, as the sequence of its elements from `begin()`. */
  predicate Sorted(s: seq<TimerNode>)
  {
    forall i, j :: 0 <= i < j < |s| ==> NodeLess(s[i], s[j])
  }

  /** `std::set::insert` of an element not yet present: it takes its place in order. */
  function Insert(s: seq<TimerNode>, n: TimerNode): (r: seq<TimerNode>)
    requires Sorted(s) && n !in s
    ensures Sorted(r)
    ensures forall x :: x in r <==> x in s || x == n
    ensures |r| == |s| + 1
    decreases |s|
  {
    if s == [] then [n]
    else if NodeLess(n, s[0]) then
      assert Sorted([n] + s) by {
        forall k | 0 <= k < |s| ensures NodeLess(n, s[k]) {
          NodeOrder(n, s[0], s[k]);
        }
      }
      [n] + s
    else
      NodeOrder(n, s[0], n);
      var rest := Insert(s[1..], n);
      assert forall x :: x in s[1..] ==> NodeLess(s[0], x);
      [s[0]] + rest
  }

  /** `std::set::erase` of one element. */
  function Erase(s: seq<TimerNode>, n: TimerNode): (r: seq<TimerNode>)
    requires Sorted(s)
    ensures Sorted(r)
    ensures forall x :: x in r <==> x in s && x != n
    ensures n in s ==> |r| == |s| - 1
    ensures n !in s ==> r == s
    decreases |s|
  {
    if s == [] then []
    else
      SortedTail(s);
      if s[0] == n then s[1..]
      else [s[0]] + Erase(s[1..], n)
  }

  /** The tail of an ordered set is ordered and lies above its head. */
  lemma SortedTail(s: seq<TimerNode>)
    requires Sorted(s) && s != []
    ensures Sorted(s[1..]) && s == [s[0]] + s[1..]
    ensures forall x :: x in s[1..] ==> NodeLess(s[0], x)
    ensures s[0] !in s[1..]
  {
    NodeOrder(s[0], s[0], s[0]);
  }

  /** Erasing the first element of an ordered set leaves the rest. */
  lemma EraseFirst(s: seq<TimerNode>)
    requires Sorted(s) && s != []
    ensures Erase(s, s[0]) == s[1..]
  {
  }

  /** What `tick` leaves of an ordered set of checkpoints: it drops checkpoints from the front
      while they expired strictly before `now`. */
  function DropExpired(s: seq<TimerNode>, now: TickSpec): (r: seq<TimerNode>)
    ensures |r| <= |s|
    ensures r == s[|s| - |r|..]
  {
    if s != [] && TickLess(s[0].expiry, now) then DropExpired(s[1..], now) else s
  }

  /** On an ordered set, `tick` keeps exactly the checkpoints that have not expired: those whose
      expiry is at or after `now`. */
  lemma {:induction false} DropExpiredKeepsLive(s: seq<TimerNode>, now: TickSpec)
    requires Sorted(s)
    ensures forall x :: x in DropExpired(s, now) <==> x in s && TickLe(now, x.expiry)
    decreases |s|
  {
    if s != [] {
      forall x | x in s
        ensures x != s[0] ==> NodeLess(s[0], x)
      {
        var i :| 0 <= i < |s| && s[i] == x;
        if i != 0 {
          assert NodeLess(s[0], s[i]);
        }
      }
      if TickLess(s[0].expiry, now) {
        DropExpiredKeepsLive(s[1..], now);
        forall x | x in s && x != s[0]
          ensures x in s[1..]
        {
          var i :| 0 <= i < |s| && s[i] == x;
        }
        TickOrder(s[0].expiry, now, now);
      } else {
        forall x | x in s
          ensures TickLe(now, x.expiry)
        {
          if x != s[0] {
            TickOrder(now, s[0].expiry, x.expiry);
            NodeOrder(s[0], x, x);
          }
          TickOrder(now, s[0].expiry, x.expiry);
        }
      }
    }
  }

  /** The task ids a sequence of checkpoints names. */
  function IdsOf(s: seq<TimerNode>): (r: set<nat>)
    ensures forall i :: 0 <= i < |s| ==> s[i].taskId in r
    ensures forall id :: id in r ==> exists i :: 0 <= i < |s| && s[i].taskId == id
  {
    if s == [] then {} else IdsOf(s[..|s| - 1]) + {s[|s| - 1].taskId}
  }

  /** Checkpoints naming distinct tasks name as many tasks as there are checkpoints. */
  lemma {:induction false} IdsOfDistinct(s: seq<TimerNode>)
    requires forall i, j :: 0 <= i < j < |s| ==> s[i].taskId != s[j].taskId
    ensures |IdsOf(s)| == |s|
  {
    if s != [] {
      var front := s[..|s| - 1];
      IdsOfDistinct(front);
      assert s[|s| - 1].taskId !in IdsOf(front);
    }
  }

  /** One entry of the task table (`task_manager_node`): the task and its checkpoint, if any. */
  datatype TaskNode = TaskNode(task: Task, timer: Option<TimerNode>)

  /** The tasks of a table. */
  function TasksOf(tasks: map<nat, TaskNode>): set<Task>
  {
    set id | id in tasks :: tasks[id].task
  }

  /** The coroutines of a table's tasks. */
  function CoroutinesOf(tasks: map<nat, TaskNode>): set<CC.CoroutineContext>
  {
    set id | id in tasks && tasks[id].task.co != null :: tasks[id].task.co
  }

  /** Entries taken from a table hold only tasks and coroutines of that table. */
  lemma ObjectsOfSubtable(sub: map<nat, TaskNode>, tasks: map<nat, TaskNode>)
    requires forall id :: id in sub ==> id in tasks && sub[id] == tasks[id]
    ensures TasksOf(sub) <= TasksOf(tasks) && CoroutinesOf(sub) <= CoroutinesOf(tasks)
  {
    forall o | o in TasksOf(sub)
      ensures o in TasksOf(tasks)
    {
      var id :| id in sub && sub[id].task == o;
      assert tasks[id].task == o;
    }
    forall o | o in CoroutinesOf(sub)
      ensures o in CoroutinesOf(tasks)
    {
      var id :| id in sub && sub[id].task.co != null && sub[id].task.co == o;
      assert tasks[id].task.co == o;
    }
  }

  /** The checkpoint set is ordered and holds exactly the checkpoints the table's entries
      name, each naming its own entry's id. */
  predicate TimersMatch(tasks: map<nat, TaskNode>, timers: seq<TimerNode>)
  {
    Sorted(timers)
    && (forall i :: 0 <= i < |timers| ==>
          timers[i].taskId in tasks && tasks[timers[i].taskId].timer == Some(timers[i]))
    && (forall id :: id in tasks && tasks[id].timer.Some? ==>
          tasks[id].timer.value in timers && tasks[id].timer.value.taskId == id)
  }

  /** At most one checkpoint per task: distinct checkpoints name distinct tasks. */
  lemma CheckpointsPerTask(tasks: map<nat, TaskNode>, timers: seq<TimerNode>)
    requires TimersMatch(tasks, timers)
    ensures |timers| <= |tasks|
  {
    DistinctTaskIds(tasks, timers);
    IdsOfDistinct(timers);
    SubsetCard(IdsOf(timers), tasks.Keys);
  }

  /** Two checkpoints in the set never name the same task. */
  lemma DistinctTaskIds(tasks: map<nat, TaskNode>, timers: seq<TimerNode>)
    requires TimersMatch(tasks, timers)
    ensures forall i, j :: 0 <= i < j < |timers| ==> timers[i].taskId != timers[j].taskId
    ensures IdsOf(timers) <= tasks.Keys
  {
    forall i, j | 0 <= i < j < |timers|
      ensures timers[i].taskId != timers[j].taskId
    {
      NodeOrder(timers[i], timers[j], timers[j]);
    }
  }

  lemma {:induction false} SubsetCard(a: set<nat>, b: set<nat>)
    requires a <= b
    ensures |a| <= |b|
    decreases b
  {
    if a != {} {
      var x :| x in a;
      SubsetCard(a - {x}, b - {x});
    }
  }

  /** A task that has started and not finished: what removing it, or destroying it, kills. */
  predicate LiveStatus(s: TaskStatus)
  {
    Below(Created, s) && Below(s, Done)
  }

  /** `flag_t`. */
  const FLAG_NONE: bv32 := 0x00
  const FLAG_IN_TICK: bv32 := 0x01
  const FLAG_IN_RESET: bv32 := 0x02

  class TaskManager {
    /** `tasks_`, by id. */
    var tasks: map<nat, TaskNode>
    /** `task_timeout_timer_`, in order. */
    var timers: seq<TimerNode>
    var lastTick: TickSpec
    var flags: bv32

    /** The managed tasks. */
    function TaskObjects(): set<Task>
      reads this`tasks
    {
      TasksOf(tasks)
    }

    /** Their coroutines. */
    function CoObjects(): set<CC.CoroutineContext>
      reads this`tasks
    {
      CoroutinesOf(tasks)
    }

    /** Every task is filed under its own id and is consistent; the checkpoint set is ordered
        and holds exactly the checkpoints the entries name, each naming its own task. */
    predicate Valid()
      reads this`tasks, this`timers, TaskObjects(), CoObjects()
    {
      (forall id :: id in tasks ==> tasks[id].task.id == id && tasks[id].task.Valid())
      && TimersMatch(tasks, timers)
    }

    /** `task_manager()`: no tasks, no checkpoints, the clock at (0, 0), no flags. */
    constructor()
      ensures Valid()
      ensures tasks == map[] && timers == [] && lastTick == TickSpec(0, 0) && flags == FLAG_NONE
    {
      tasks := map[];
      timers := [];
      lastTick := TickSpec(0, 0);
      flags := FLAG_NONE;
    }

    /** `get_tick_checkpoint_size`. */
    function CheckpointCount(): (r: nat)
      reads this, TaskObjects(), CoObjects()
      requires Valid()
      ensures r == |timers|
      ensures r <= |tasks|
    {
      CheckpointsPerTask(tasks, timers);
      |timers|
    }

    /** `get_task_size`. */
    function TaskCount(): (r: nat)
      reads this
      ensures r == |tasks|
    {
      |tasks|
    }

    /** `get_last_tick_time`. */
    function LastTickTime(): TickSpec
      reads this
    {
      lastTick
    }

    /** `find_task`: nothing during a reset or for an unknown id, otherwise the task filed
        under `id`. */
    function FindTask(id: nat): (r: Option<Task>)
      reads this
      ensures flags & FLAG_IN_RESET != 0 ==> r == None
      ensures flags & FLAG_IN_RESET == 0 ==> (r.Some? <==> id in tasks)
      ensures r.Some? ==> r.value == tasks[id].task
    {
      if flags & FLAG_IN_RESET != 0 then None
      else if id !in tasks then None
      else Some(tasks[id].task)
    }

    /** `remove_timeout_timer`: erases the entry's checkpoint, if it has one, and forgets it. */
    method RemoveTimeoutTimer(id: nat)
      requires Valid() && id in tasks
      modifies this`tasks, this`timers
      ensures Valid()
      ensures tasks == old(tasks)[id := old(tasks)[id].(timer := None)]
      ensures old(tasks)[id].timer.None? ==> timers == old(timers)
      ensures old(tasks)[id].timer.Some? ==> timers == Erase(old(timers), old(tasks)[id].timer.value)
    {
      var node := tasks[id];
      if node.timer.Some? {
        timers := Erase(timers, node.timer.value);
      }
      tasks := tasks[id := node.(timer := None)];
      forall i | 0 <= i < |timers|
        ensures timers[i].taskId in tasks && tasks[timers[i].taskId].timer == Some(timers[i])
      {
        assert timers[i] in old(timers);
        var j :| 0 <= j < |old(timers)| && old(timers)[j] == timers[i];
      }
    }

    /** `set_timeout_timer`: drops the old checkpoint; a timeout of zero or less in both fields
        leaves none; otherwise the checkpoint is the last tick plus the timeout, field by field
        without normalising the nanoseconds. */
    method SetTimeoutTimer(id: nat, sec: int, nsec: int)
      requires Valid() && id in tasks
      modifies this`tasks, this`timers
      ensures Valid()
      ensures tasks == old(tasks)[id := old(tasks)[id].(timer := Checkpoint(lastTick, id, sec, nsec))]
    {
      if sec <= 0 && nsec <= 0 {
        RemoveTimeoutTimer(id);
      } else {
        ReplaceTimer(TimerNode(TickSpec(lastTick.sec + sec, lastTick.nsec + nsec), id));
      }
    }

    /** The old checkpoint of the entry dropped and `n` put in its place. */
    method ReplaceTimer(n: TimerNode)
      requires Valid() && n.taskId in tasks
      modifies this`tasks, this`timers
      ensures Valid()
      ensures tasks == old(tasks)[n.taskId := old(tasks)[n.taskId].(timer := Some(n))]
    {
      ghost var t0 := tasks;
      RemoveTimeoutTimer(n.taskId);
      InsertTimer(n);
      TimerUpdatedTwice(t0, n.taskId, None, Some(n));
    }

    /** The insertion half of `set_timeout_timer`: a checkpoint for an entry that has none
        joins the set and is recorded in the entry. */
    method InsertTimer(n: TimerNode)
      requires Valid() && n.taskId in tasks && tasks[n.taskId].timer.None?
      modifies this`tasks, this`timers
      ensures Valid()
      ensures tasks == old(tasks)[n.taskId := old(tasks)[n.taskId].(timer := Some(n))]
      ensures timers == Insert(old(timers), n)
    {
      forall i | 0 <= i < |timers|
        ensures timers[i].taskId != n.taskId
      {
      }
      timers := Insert(timers, n);
      tasks := tasks[n.taskId := tasks[n.taskId].(timer := Some(n))];
      forall i | 0 <= i < |timers|
        ensures timers[i].taskId in tasks && tasks[timers[i].taskId].timer == Some(timers[i])
      {
        if timers[i] != n {
          assert timers[i] in old(timers);
          var j :| 0 <= j < |old(timers)| && old(timers)[j] == timers[i];
        }
      }
    }

    /** `add_task(task, timeout_sec, timeout_nsec)`: a null task is ARGS_ERROR, a reset in
        progress IN_RESET, an exiting task TASK_IS_EXITING and a taken id ALREADY_EXIST;
        otherwise the task is filed under its id with the given timeout. */
    method AddTask(task: Task?, sec: int, nsec: int) returns (r: int)
      requires Valid()
      requires task != null ==> task.Valid()
      modifies this`tasks, this`timers
      ensures Valid()
      ensures task == null ==> r == COPP_EC_ARGS_ERROR
      ensures task != null && flags & FLAG_IN_RESET != 0 ==> r == COPP_EC_IN_RESET
      ensures task != null && flags & FLAG_IN_RESET == 0 && IsExiting(task.status) ==> r == COPP_EC_TASK_IS_EXITING
      ensures task != null && flags & FLAG_IN_RESET == 0 && !IsExiting(task.status) && task.id in old(tasks) ==>
        r == COPP_EC_ALREADY_EXIST
      ensures r != COPP_EC_SUCCESS ==> tasks == old(tasks) && timers == old(timers)
      ensures r == COPP_EC_SUCCESS <==>
        task != null && flags & FLAG_IN_RESET == 0 && !IsExiting(task.status) && task.id !in old(tasks)
      ensures r == COPP_EC_SUCCESS ==>
        tasks.Keys == old(tasks).Keys + {task.id} && tasks[task.id].task == task
        && (forall k :: k in old(tasks) ==> tasks[k] == old(tasks)[k])
        && (sec <= 0 && nsec <= 0 ==> tasks[task.id].timer.None?)
        && (!(sec <= 0 && nsec <= 0) ==>
              tasks[task.id].timer == Some(TimerNode(TickSpec(lastTick.sec + sec, lastTick.nsec + nsec), task.id)))
    {
      if task == null {
        return COPP_EC_ARGS_ERROR;
      }
      if flags & FLAG_IN_RESET != 0 {
        return COPP_EC_IN_RESET;
      }
      if IsExiting(task.status) {
        return COPP_EC_TASK_IS_EXITING;
      }
      if task.id in tasks {
        return COPP_EC_ALREADY_EXIST;
      }
      NoCheckpointFor(task.id);
      tasks := tasks[task.id := TaskNode(task, None)];
      assert Valid();
      ghost var t0 := tasks;
      SetTimeoutTimer(task.id, sec, nsec);
      TimerUpdated(t0, task.id, Checkpoint(lastTick, task.id, sec, nsec));
      return COPP_EC_SUCCESS;
    }

    /** An id without a task has no checkpoint. */
    lemma NoCheckpointFor(id: nat)
      requires Valid() && id !in tasks
      ensures forall i :: 0 <= i < |timers| ==> timers[i].taskId != id
    {
    }

    /** `add_task(task)`: no timeout. */
    method AddTaskWithoutTimeout(task: Task?) returns (r: int)
      requires Valid()
      requires task != null ==> task.Valid()
      modifies this`tasks, this`timers
      ensures Valid()
      ensures r == COPP_EC_SUCCESS <==>
        task != null && flags & FLAG_IN_RESET == 0 && !IsExiting(task.status) && task.id !in old(tasks)
      ensures r == COPP_EC_SUCCESS ==>
        tasks.Keys == old(tasks).Keys + {task.id} && tasks[task.id] == TaskNode(task, None)
    {
      r := AddTask(task, 0, 0);
    }

    /** `set_timeout(id, sec, nsec)`: IN_RESET during a reset, NOT_FOUND for an unknown id,
        otherwise the task's checkpoint is replaced (or dropped, for a zero timeout). */
    method SetTimeout(id: nat, sec: int, nsec: int) returns (r: int)
      requires Valid()
      modifies this`tasks, this`timers
      ensures Valid()
      ensures flags & FLAG_IN_RESET != 0 ==> r == COPP_EC_IN_RESET
      ensures flags & FLAG_IN_RESET == 0 && id !in old(tasks) ==> r == COPP_EC_NOT_FOUND
      ensures r != COPP_EC_SUCCESS ==> tasks == old(tasks) && timers == old(timers)
      ensures r == COPP_EC_SUCCESS <==> flags & FLAG_IN_RESET == 0 && id in old(tasks)
      ensures r == COPP_EC_SUCCESS ==>
        tasks.Keys == old(tasks).Keys && tasks[id].task == old(tasks)[id].task
        && (sec <= 0 && nsec <= 0 ==> tasks[id].timer.None?)
        && (!(sec <= 0 && nsec <= 0) ==>
              tasks[id].timer == Some(TimerNode(TickSpec(lastTick.sec + sec, lastTick.nsec + nsec), id)))
    {
      if flags & FLAG_IN_RESET != 0 {
        return COPP_EC_IN_RESET;
      }
      if id !in tasks {
        return COPP_EC_NOT_FOUND;
      }
      SetTimeoutTimer(id, sec, nsec);
      TimerUpdated(old(tasks), id, Checkpoint(lastTick, id, sec, nsec));
      return COPP_EC_SUCCESS;
    }

    /** Takes the entry for `id` out of the table together with its checkpoint. */
    method Detach(id: nat) returns (t: Task)
      requires Valid() && id in tasks
      modifies this`tasks, this`timers
      ensures t == old(tasks)[id].task
      ensures tasks == old(tasks) - {id}
      ensures old(tasks)[id].timer.None? ==> timers == old(timers)
      ensures old(tasks)[id].timer.Some? ==> timers == Erase(old(timers), old(tasks)[id].timer.value)
      ensures Valid()
    {
      t := tasks[id].task;
      RemoveTimeoutTimer(id);
      forall i | 0 <= i < |timers|
        ensures timers[i].taskId != id
      {
      }
      tasks := tasks - {id};
    }

    /** Kills a task already taken out of the table (`Task.Kill`); the tasks left in the table
        stay consistent. */
    method KillDetached(t: Task, to: TaskStatus, priv: int, finalCode: int, done: set<nat>)
      returns (r: int, plan: seq<Dispatch>)
      requires Valid() && t.Valid() && t.id !in tasks
      modifies t, t.co
      ensures Valid() && r == COPP_EC_SUCCESS && t.status == to
    {
      var resumed;
      r, plan, resumed := t.Kill(to, priv, finalCode, done);
      forall k | k in tasks
        ensures tasks[k].task.Valid()
      {
        assert tasks[k].task.id == k;
      }
    }

    /** `remove_task(id, confirm_ptr)`: IN_RESET during a reset; NOT_FOUND for an unknown id or
        when `confirm` is given and is not the task filed under `id`; otherwise the entry and its
        checkpoint go, and a task that has started but not finished is killed with KILLED,
        whose result is returned. */
    method RemoveTask(id: nat, confirm: Task?, finalCode: int, done: set<nat>)
      returns (r: int, plan: seq<Dispatch>)
      requires Valid()
      modifies this`tasks, this`timers, TaskObjects(), CoObjects()
      ensures Valid()
      ensures flags & FLAG_IN_RESET != 0 ==> r == COPP_EC_IN_RESET
      ensures flags & FLAG_IN_RESET == 0 && id !in old(tasks) ==> r == COPP_EC_NOT_FOUND
      ensures flags & FLAG_IN_RESET == 0 && id in old(tasks) && confirm != null && confirm != old(tasks)[id].task ==>
        r == COPP_EC_NOT_FOUND
      ensures old(Removes(id, confirm)) ==> tasks == old(tasks) - {id}
      ensures old(Removes(id, confirm)) && !LiveStatus(old(tasks[id].task.status)) ==> r == COPP_EC_SUCCESS
      ensures !old(Removes(id, confirm)) ==> tasks == old(tasks) && timers == old(timers) && plan == []
      ensures old(Removes(id, confirm)) && LiveStatus(old(tasks[id].task.status)) ==>
        old(tasks)[id].task.status == Killed
      ensures old(Removes(id, confirm)) && !LiveStatus(old(tasks[id].task.status)) ==>
        old(tasks)[id].task.status == old(tasks[id].task.status) && plan == []
      ensures forall k :: k in tasks ==> tasks[k] == old(tasks)[k]
      ensures forall k :: k in tasks ==> tasks[k].task.status == old(tasks[k].task.status)
    {
      plan := [];
      if flags & FLAG_IN_RESET != 0 {
        return COPP_EC_IN_RESET, plan;
      }
      if id !in tasks {
        return COPP_EC_NOT_FOUND, plan;
      }
      if confirm != null && tasks[id].task != confirm {
        return COPP_EC_NOT_FOUND, plan;
      }
      var t := Detach(id);
      if LiveStatus(t.status) {
        r, plan := KillDetached(t, Killed, 0, finalCode, done);
        return r, plan;
      }
      return COPP_EC_SUCCESS, plan;
    }

    /** Whether `remove_task(id, confirm)` removes an entry. */
    predicate Removes(id: nat, confirm: Task?)
      reads this
    {
      flags & FLAG_IN_RESET == 0 && id in tasks && (confirm == null || confirm == tasks[id].task)
    }

    /** `start(id, priv_data)`: IN_RESET during a reset, NOT_FOUND for an unknown id; otherwise
        the task's own `start` (expecting CREATED), after which a task that is exiting leaves the
        table. */
    method Start(id: nat, priv: int, body: Body, done: set<nat>) returns (r: int, plan: seq<Dispatch>)
      requires Valid()
      modifies this`tasks, this`timers, TaskObjects(), CoObjects()
      ensures Valid()
      ensures flags & FLAG_IN_RESET != 0 ==> r == COPP_EC_IN_RESET && tasks == old(tasks)
      ensures flags & FLAG_IN_RESET == 0 && id !in old(tasks) ==> r == COPP_EC_NOT_FOUND && tasks == old(tasks)
      ensures flags & FLAG_IN_RESET == 0 && id in old(tasks) ==>
        RunByManager(old(tasks)[id].task, r, Created, old(tasks[id].task.status), old(CoStatus(tasks[id].task)))
        && (id in tasks <==> !IsExiting(old(tasks)[id].task.status))
        && (id in tasks ==> tasks == old(tasks))
        && (id !in tasks ==> tasks == old(tasks) - {id})
    {
      r, plan := Run(id, priv, Created, body, done);
    }

    /** `resume(id, priv_data)`: as `start`, with the task's own `resume` (expecting WAITING). */
    method Resume(id: nat, priv: int, body: Body, done: set<nat>) returns (r: int, plan: seq<Dispatch>)
      requires Valid()
      modifies this`tasks, this`timers, TaskObjects(), CoObjects()
      ensures Valid()
      ensures flags & FLAG_IN_RESET != 0 ==> r == COPP_EC_IN_RESET && tasks == old(tasks)
      ensures flags & FLAG_IN_RESET == 0 && id !in old(tasks) ==> r == COPP_EC_NOT_FOUND && tasks == old(tasks)
      ensures flags & FLAG_IN_RESET == 0 && id in old(tasks) ==>
        RunByManager(old(tasks)[id].task, r, Waiting, old(tasks[id].task.status), old(CoStatus(tasks[id].task)))
        && (id in tasks <==> !IsExiting(old(tasks)[id].task.status))
        && (id in tasks ==> tasks == old(tasks))
        && (id !in tasks ==> tasks == old(tasks) - {id})
    {
      r, plan := Run(id, priv, Waiting, body, done);
    }

    /** The body `start` and `resume` share. */
    method Run(id: nat, priv: int, expected: TaskStatus, body: Body, done: set<nat>)
      returns (r: int, plan: seq<Dispatch>)
      requires Valid()
      modifies this`tasks, this`timers, TaskObjects(), CoObjects()
      ensures Valid()
      ensures flags & FLAG_IN_RESET != 0 ==> r == COPP_EC_IN_RESET && tasks == old(tasks)
      ensures flags & FLAG_IN_RESET == 0 && id !in old(tasks) ==> r == COPP_EC_NOT_FOUND && tasks == old(tasks)
      ensures flags & FLAG_IN_RESET == 0 && id in old(tasks) ==>
        RunByManager(old(tasks)[id].task, r, expected, old(tasks[id].task.status), old(CoStatus(tasks[id].task)))
        && (id in tasks <==> !IsExiting(old(tasks)[id].task.status))
        && (id in tasks ==> tasks == old(tasks))
        && (id !in tasks ==> tasks == old(tasks) - {id})
    {
      plan := [];
      if flags & FLAG_IN_RESET != 0 {
        return COPP_EC_IN_RESET, plan;
      }
      if id !in tasks {
        return COPP_EC_NOT_FOUND, plan;
      }
      var t := tasks[id].task;
      var resumed;
      r, plan, resumed := t.Start(priv, expected, body, done);
      forall k | k in tasks
        ensures tasks[k].task.Valid()
      {
        assert tasks[k].task.id == k;
      }
      if IsExiting(t.status) {
        var removed, more;
        removed, more := RemoveTask(id, null, body.finalCode, done);
        plan := plan + more;
      }
    }

    /** `cancel(id, priv_data)`: IN_RESET during a reset, NOT_FOUND for an unknown id; otherwise
        the entry and its checkpoint go and the task's own `cancel` answers. */
    method Cancel(id: nat, priv: int, finalCode: int, done: set<nat>) returns (r: int, plan: seq<Dispatch>)
      requires Valid()
      modifies this`tasks, this`timers, TaskObjects(), CoObjects()
      ensures Valid()
      ensures flags & FLAG_IN_RESET != 0 ==> r == COPP_EC_IN_RESET && tasks == old(tasks)
      ensures flags & FLAG_IN_RESET == 0 && id !in old(tasks) ==> r == COPP_EC_NOT_FOUND && tasks == old(tasks)
      ensures flags & FLAG_IN_RESET == 0 && id in old(tasks) ==>
        tasks == old(tasks) - {id}
        && (old(tasks[id].task.status) == Running ==> r == COPP_EC_IS_RUNNING && old(tasks)[id].task.status == Running)
        && (old(tasks[id].task.status) != Running ==> r == COPP_EC_SUCCESS && old(tasks)[id].task.status == Canceled)
    {
      plan := [];
      if flags & FLAG_IN_RESET != 0 {
        return COPP_EC_IN_RESET, plan;
      }
      if id !in tasks {
        return COPP_EC_NOT_FOUND, plan;
      }
      var t := Detach(id);
      var resumed;
      r, plan, resumed := t.Cancel(priv, finalCode, done);
      forall k | k in tasks
        ensures tasks[k].task.Valid()
      {
        assert tasks[k].task.id == k;
      }
    }

    /** `kill(id, status, priv_data)`: IN_RESET during a reset, NOT_FOUND for an unknown id;
        otherwise the entry and its checkpoint go and the task is killed with `to`. */
    method Kill(id: nat, to: TaskStatus, priv: int, finalCode: int, done: set<nat>) returns (r: int, plan: seq<Dispatch>)
      requires Valid()
      modifies this`tasks, this`timers, TaskObjects(), CoObjects()
      ensures Valid()
      ensures flags & FLAG_IN_RESET != 0 ==> r == COPP_EC_IN_RESET && tasks == old(tasks)
      ensures flags & FLAG_IN_RESET == 0 && id !in old(tasks) ==> r == COPP_EC_NOT_FOUND && tasks == old(tasks)
      ensures flags & FLAG_IN_RESET == 0 && id in old(tasks) ==>
        tasks == old(tasks) - {id} && r == COPP_EC_SUCCESS && old(tasks)[id].task.status == to
    {
      plan := [];
      if flags & FLAG_IN_RESET != 0 {
        return COPP_EC_IN_RESET, plan;
      }
      if id !in tasks {
        return COPP_EC_NOT_FOUND, plan;
      }
      var t := Detach(id);
      r, plan := KillDetached(t, to, priv, finalCode, done);
    }

    /** `kill(id, priv_data)`: kill with KILLED. */
    method KillWithKilled(id: nat, priv: int, finalCode: int, done: set<nat>) returns (r: int, plan: seq<Dispatch>)
      requires Valid()
      modifies this`tasks, this`timers, TaskObjects(), CoObjects()
      ensures Valid()
      ensures flags & FLAG_IN_RESET == 0 && id in old(tasks) ==>
        tasks == old(tasks) - {id} && r == COPP_EC_SUCCESS && old(tasks)[id].task.status == Killed
    {
      r, plan := Kill(id, Killed, priv, finalCode, done);
    }

    /** `reset()`: does nothing when a reset is already running; otherwise empties the table and
        the checkpoint set, clears every flag and the clock, then kills with KILLED every task it
        held that was not exiting. The calls to the killed tasks' successors are returned. */
    method Reset(finalCode: int, done: set<nat>) returns (plan: seq<Dispatch>)
      requires Valid()
      modifies this, TaskObjects(), CoObjects()
      ensures Valid()
      ensures old(flags) & FLAG_IN_RESET != 0 ==>
        tasks == old(tasks) && timers == old(timers) && flags == old(flags) && lastTick == old(lastTick)
      ensures old(flags) & FLAG_IN_RESET == 0 ==>
        tasks == map[] && timers == [] && flags == FLAG_NONE && lastTick == TickSpec(0, 0)
        && (forall id :: id in old(tasks) ==>
              old(tasks)[id].task.status == KilledBy(old(tasks[id].task.status), Killed))
    {
      plan := [];
      if flags & FLAG_IN_RESET != 0 {
        return;
      }
      flags := flags | FLAG_IN_RESET;
      var all := tasks;
      tasks, timers := map[], [];
      flags := FLAG_NONE;
      lastTick := TickSpec(0, 0);
      plan := KillEach(all, finalCode, done);
      flags := flags & !FLAG_IN_RESET;
    }

    /** One round of the `tick` loop once the first checkpoint has passed: its task leaves the
        table with the checkpoint, and is killed with TIMEOUT unless it is already exiting. Of
        the tasks of any `table` that files tasks under their ids and agrees with this one, only
        that task's status changes, since the calls to its successors are returned, not run. */
    method ExpireFirst(finalCode: int, done: set<nat>, ghost table: map<nat, TaskNode>) returns (plan: seq<Dispatch>)
      requires Valid() && timers != []
      requires forall id :: id in table ==> table[id].task.id == id
      requires forall id :: id in table && id in tasks ==> table[id].task == tasks[id].task
      modifies this`tasks, this`timers, tasks[timers[0].taskId].task, tasks[timers[0].taskId].task.co
      ensures Valid()
      ensures timers == old(timers)[1..]
      ensures old(timers[0].taskId) in old(tasks) && tasks == old(tasks) - {old(timers[0].taskId)}
      ensures old(tasks)[old(timers[0].taskId)].task.status
              == KilledBy(old(tasks[timers[0].taskId].task.status), Timeout)
      ensures StatusMap(table) == Killing(old(StatusMap(table)), old(timers[0].taskId))
    {
      plan := [];
      var node := timers[0];
      ghost var before := StatusMap(table);
      // every checkpoint names a task in the table, so the lookup always succeeds
      EraseFirst(timers);
      var t := Detach(node.taskId);
      if !IsExiting(t.status) {
        var r;
        r, plan := KillDetached(t, Timeout, 0, finalCode, done);
      }
      forall id | id in table
        ensures StatusMap(table)[id] == Killing(before, node.taskId)[id]
      {
        if id != node.taskId {
          assert table[id].task.id == id && table[id].task != t;
        }
      }
    }

    /** The `tick` loop: while the first checkpoint has passed, its task leaves the table and is
        killed with TIMEOUT unless already exiting. */
    method ExpireDue(now: TickSpec, finalCode: int, done: set<nat>) returns (plan: seq<Dispatch>)
      requires Valid()
      modifies this`tasks, this`timers, TaskObjects(), CoObjects()
      ensures Valid()
      ensures ExpiredRemoved(old(tasks), old(timers), tasks, timers, now)
      ensures TimedOut(old(tasks), tasks, old(StatusMap(tasks)), StatusMap(old(tasks)))
    {
      plan := [];
      ghost var s0, tasks0 := timers, tasks;
      ghost var st0 := StatusMap(tasks);
      ghost var k := 0;
      while timers != [] && TickLess(timers[0].expiry, now)
        invariant Valid() && Progress(s0, tasks0, st0, k, now)
        decreases |timers|
      {
        ObjectsOfSubtable(tasks, tasks0);
        var more := ExpireStep(now, finalCode, done, s0, tasks0, st0, k);
        plan := plan + more;
        k := k + 1;
      }
      TickRemovesExactlyExpired(tasks0, s0, k, now);
    }

    /** How far the `tick` loop has got (`Swept`), with the statuses of the original table's
        tasks: those whose entry is gone were killed with TIMEOUT unless exiting, the others keep
        the status recorded in `st0`. */
    ghost predicate Progress(s0: seq<TimerNode>, tasks0: map<nat, TaskNode>, st0: map<nat, TaskStatus>,
                             k: nat, now: TickSpec)
      reads this`tasks, this`timers, TasksOf(tasks0)
    {
      Swept(s0, tasks0, k, now, tasks, timers) && TimedOut(tasks0, tasks, st0, StatusMap(tasks0))
    }

    /** One round of the `tick` loop keeps `Progress`, one checkpoint further. */
    method ExpireStep(now: TickSpec, finalCode: int, done: set<nat>, ghost s0: seq<TimerNode>,
                      ghost tasks0: map<nat, TaskNode>, ghost st0: map<nat, TaskStatus>, ghost k: nat)
      returns (plan: seq<Dispatch>)
      requires Valid() && timers != [] && TickLess(timers[0].expiry, now)
      requires Progress(s0, tasks0, st0, k, now)
      modifies this`tasks, this`timers, TaskObjects(), CoObjects()
      ensures Valid() && Progress(s0, tasks0, st0, k + 1, now)
    {
      ghost var victim := timers[0].taskId;
      SweptStep(s0, tasks0, k, now, tasks, timers);
      plan := ExpireFirst(finalCode, done, tasks0);
      TimedOutStep(tasks0, old(tasks), tasks, st0, old(StatusMap(tasks0)), StatusMap(tasks0), victim);
    }

    /** The corrected first tick: every checkpoint, in the set and in the entries, moves
        forward by `now`. */
    method ShiftCheckpoints(now: TickSpec)
      requires Valid()
      modifies this`tasks, this`timers
      ensures Valid()
      ensures tasks == ShiftTable(old(tasks), now) && timers == ShiftAll(old(timers), now)
    {
      var realCheckpoints := ShiftedCheckpoints(timers, now);
      ShiftKeepsMatch(tasks, timers, now);
      timers := realCheckpoints;
      tasks := ShiftTable(tasks, now);
    }

    /** `last_tick_time_ = now`: the table, and so the statuses of any table's tasks, are
        untouched. */
    method SetLastTick(now: TickSpec, ghost table: map<nat, TaskNode>)
      requires Valid()
      modifies this`lastTick
      ensures Valid() && lastTick == now && StatusMap(table) == old(StatusMap(table))
    {
      lastTick := now;
    }

    /** The `flag_guard_t` of `tick` taking IN_TICK, which the caller found clear. */
    method HoldTick(ghost table: map<nat, TaskNode>)
      requires Valid() && flags & FLAG_IN_TICK == 0
      modifies this`flags
      ensures Valid() && StatusMap(table) == old(StatusMap(table))
      ensures flags == old(flags) | FLAG_IN_TICK
      ensures flags & FLAG_IN_TICK != 0 && flags & FLAG_IN_RESET == old(flags) & FLAG_IN_RESET
    {
      flags := flags | FLAG_IN_TICK;
    }

    /** The guard's destructor: clearing IN_TICK again restores the flags it found. */
    method ReleaseTick(ghost before: bv32, ghost table: map<nat, TaskNode>)
      requires Valid() && before & FLAG_IN_TICK == 0 && flags == before | FLAG_IN_TICK
      modifies this`flags
      ensures Valid() && StatusMap(table) == old(StatusMap(table))
      ensures flags == before
    {
      flags := flags & !FLAG_IN_TICK;
    }

    /** `tick(sec, nsec)` as written. A time at or before the last tick is ignored (0), so is a
        tick inside a tick (SUCCESS); during a reset it is IN_RESET. Otherwise it advances the
        clock as `AdvanceAsWritten` does. The IN_TICK flag is held throughout and restored. */
    method TickAsWritten(now: TickSpec, finalCode: int, done: set<nat>) returns (r: int, plan: seq<Dispatch>)
      requires Valid()
      modifies this`tasks, this`timers, this`lastTick, this`flags, TaskObjects(), CoObjects()
      ensures Valid() && flags == old(flags)
      ensures r == COPP_EC_IN_RESET <==> Proceeds(now, old(lastTick), old(flags)) && old(flags) & FLAG_IN_RESET != 0
      ensures r != COPP_EC_IN_RESET ==> r == COPP_EC_SUCCESS
      ensures !Advances(now, old(lastTick), old(flags)) ==>
        tasks == old(tasks) && timers == old(timers) && lastTick == old(lastTick)
      ensures Advances(now, old(lastTick), old(flags)) ==> lastTick == now
      ensures Advances(now, old(lastTick), old(flags)) && old(lastTick) == TickSpec(0, 0) ==>
        tasks == old(tasks) && timers == old(timers)
      ensures Advances(now, old(lastTick), old(flags)) && old(lastTick) != TickSpec(0, 0) ==>
        ExpiredRemoved(old(tasks), old(timers), tasks, timers, now)
      ensures TimedOut(old(tasks), tasks, old(StatusMap(tasks)), StatusMap(old(tasks)))
    {
      plan := [];
      NothingTimedOut(tasks, tasks, StatusMap(tasks));
      if TickLe(now, lastTick) {
        return 0, plan;
      }
      if flags & FLAG_IN_TICK != 0 {
        return COPP_EC_SUCCESS, plan;
      }
      TickOrder(now, lastTick, now);
      r, plan := Guarded(now, finalCode, done, true);
    }

    /** The part of `tick` under its `flag_guard_t`: IN_RESET during a reset, otherwise the
        clock advanced as written (`AdvanceAsWritten`) or as intended (`Advance`). */
    method Guarded(now: TickSpec, finalCode: int, done: set<nat>, asWritten: bool) returns (r: int, plan: seq<Dispatch>)
      requires Valid() && flags & FLAG_IN_TICK == 0
      modifies this`tasks, this`timers, this`lastTick, this`flags, TaskObjects(), CoObjects()
      ensures Valid() && flags == old(flags)
      ensures r == if old(flags) & FLAG_IN_RESET != 0 then COPP_EC_IN_RESET else COPP_EC_SUCCESS
      ensures old(flags) & FLAG_IN_RESET != 0 ==>
        tasks == old(tasks) && timers == old(timers) && lastTick == old(lastTick)
      ensures old(flags) & FLAG_IN_RESET == 0 ==> lastTick == now
      ensures old(flags) & FLAG_IN_RESET == 0 && old(lastTick) == TickSpec(0, 0) ==>
        if asWritten then tasks == old(tasks) && timers == old(timers)
        else tasks == ShiftTable(old(tasks), now) && timers == ShiftAll(old(timers), now)
      ensures old(flags) & FLAG_IN_RESET == 0 && old(lastTick) != TickSpec(0, 0) ==>
        ExpiredRemoved(old(tasks), old(timers), tasks, timers, now)
      ensures TimedOut(old(tasks), tasks, old(StatusMap(tasks)), StatusMap(old(tasks)))
    {
      plan := [];
      NothingTimedOut(tasks, tasks, StatusMap(tasks));
      ghost var before := flags;
      HoldTick(tasks);
      if flags & FLAG_IN_RESET != 0 {
        ReleaseTick(before, old(tasks));
        return COPP_EC_IN_RESET, plan;
      }
      plan := AdvanceBy(now, finalCode, done, asWritten);
      ReleaseTick(before, old(tasks));
      r := COPP_EC_SUCCESS;
    }

    /** `AdvanceAsWritten` or `Advance`. */
    method AdvanceBy(now: TickSpec, finalCode: int, done: set<nat>, asWritten: bool) returns (plan: seq<Dispatch>)
      requires Valid()
      modifies this`tasks, this`timers, this`lastTick, TaskObjects(), CoObjects()
      ensures Valid() && lastTick == now
      ensures old(lastTick) == TickSpec(0, 0) ==>
        if asWritten then tasks == old(tasks) && timers == old(timers)
        else tasks == ShiftTable(old(tasks), now) && timers == ShiftAll(old(timers), now)
      ensures old(lastTick) != TickSpec(0, 0) ==> ExpiredRemoved(old(tasks), old(timers), tasks, timers, now)
      ensures TimedOut(old(tasks), tasks, old(StatusMap(tasks)), StatusMap(old(tasks)))
    {
      if asWritten {
        plan := AdvanceAsWritten(now, finalCode, done);
      } else {
        plan := Advance(now, finalCode, done);
      }
    }

    /** The body of `tick` past its checks, as written. The first tick (the clock still at
        (0, 0)) computes every checkpoint moved forward by `now` but then swaps the checkpoint
        set with itself, so the checkpoints keep their relative values; it only sets the clock.
        Any later tick removes the tasks whose checkpoint has passed, kills them with TIMEOUT
        unless exiting, and sets the clock. */
    method AdvanceAsWritten(now: TickSpec, finalCode: int, done: set<nat>) returns (plan: seq<Dispatch>)
      requires Valid()
      modifies this`tasks, this`timers, this`lastTick, TaskObjects(), CoObjects()
      ensures Valid() && lastTick == now
      ensures old(lastTick) == TickSpec(0, 0) ==> tasks == old(tasks) && timers == old(timers)
      ensures old(lastTick) != TickSpec(0, 0) ==> ExpiredRemoved(old(tasks), old(timers), tasks, timers, now)
      ensures TimedOut(old(tasks), tasks, old(StatusMap(tasks)), StatusMap(old(tasks)))
    {
      plan := [];
      if lastTick == TickSpec(0, 0) {
        NothingTimedOut(tasks, tasks, StatusMap(tasks));
        var realCheckpoints := ShiftedCheckpoints(timers, now);
        // the swap exchanges the checkpoint set with itself: `realCheckpoints` is dropped
        timers := timers;
        SetLastTick(now, old(tasks));
        return;
      }
      plan := ExpireDue(now, finalCode, done);
      SetLastTick(now, old(tasks));
    }

    /** `tick(sec, nsec)` as evidently intended: as `TickAsWritten`, but advancing the clock as
        `Advance` does. */
    method Tick(now: TickSpec, finalCode: int, done: set<nat>) returns (r: int, plan: seq<Dispatch>)
      requires Valid()
      modifies this`tasks, this`timers, this`lastTick, this`flags, TaskObjects(), CoObjects()
      ensures Valid() && flags == old(flags)
      ensures r == COPP_EC_IN_RESET <==> Proceeds(now, old(lastTick), old(flags)) && old(flags) & FLAG_IN_RESET != 0
      ensures r != COPP_EC_IN_RESET ==> r == COPP_EC_SUCCESS
      ensures !Advances(now, old(lastTick), old(flags)) ==>
        tasks == old(tasks) && timers == old(timers) && lastTick == old(lastTick)
      ensures Advances(now, old(lastTick), old(flags)) ==> lastTick == now
      ensures Advances(now, old(lastTick), old(flags)) && old(lastTick) == TickSpec(0, 0) ==>
        tasks == ShiftTable(old(tasks), now) && timers == ShiftAll(old(timers), now)
      ensures Advances(now, old(lastTick), old(flags)) && old(lastTick) != TickSpec(0, 0) ==>
        ExpiredRemoved(old(tasks), old(timers), tasks, timers, now)
      ensures TimedOut(old(tasks), tasks, old(StatusMap(tasks)), StatusMap(old(tasks)))
    {
      plan := [];
      NothingTimedOut(tasks, tasks, StatusMap(tasks));
      if TickLe(now, lastTick) {
        return 0, plan;
      }
      if flags & FLAG_IN_TICK != 0 {
        return COPP_EC_SUCCESS, plan;
      }
      TickOrder(now, lastTick, now);
      r, plan := Guarded(now, finalCode, done, false);
    }

    /** The body of `tick` past its checks, as evidently intended: the first tick moves every
        checkpoint, in the set and in the entries, forward by `now`, so a timeout given before
        the first tick counts from it. Later ticks as in `AdvanceAsWritten`. */
    method Advance(now: TickSpec, finalCode: int, done: set<nat>) returns (plan: seq<Dispatch>)
      requires Valid()
      modifies this`tasks, this`timers, this`lastTick, TaskObjects(), CoObjects()
      ensures Valid() && lastTick == now
      ensures old(lastTick) == TickSpec(0, 0) ==>
        tasks == ShiftTable(old(tasks), now) && timers == ShiftAll(old(timers), now)
      ensures old(lastTick) != TickSpec(0, 0) ==> ExpiredRemoved(old(tasks), old(timers), tasks, timers, now)
      ensures TimedOut(old(tasks), tasks, old(StatusMap(tasks)), StatusMap(old(tasks)))
    {
      plan := [];
      if lastTick == TickSpec(0, 0) {
        NothingTimedOut(tasks, ShiftTable(tasks, now), StatusMap(tasks));
        ShiftCheckpoints(now);
        SetLastTick(now, old(tasks));
        return;
      }
      plan := ExpireDue(now, finalCode, done);
      SetLastTick(now, old(tasks));
    }
  }

  /** The status of every task of a table. */
  function StatusMap(tasks: map<nat, TaskNode>): (r: map<nat, TaskStatus>)
    reads TasksOf(tasks)
  {
    map id | id in tasks :: tasks[id].task.status
  }

  /** The checkpoint `set_timeout_timer` gives a task: none for a timeout of zero or less in
      both fields, otherwise the last tick plus the timeout, field by field without
      normalising the nanoseconds. */
  function Checkpoint(last: TickSpec, id: nat, sec: int, nsec: int): Option<TimerNode>
  {
    if sec <= 0 && nsec <= 0 then None else Some(TimerNode(TickSpec(last.sec + sec, last.nsec + nsec), id))
  }

  /** Changing the checkpoint of one entry twice leaves the second. */
  lemma TimerUpdatedTwice(t0: map<nat, TaskNode>, id: nat, first: Option<TimerNode>, second: Option<TimerNode>)
    requires id in t0
    ensures var t1 := t0[id := t0[id].(timer := first)];
      t1[id := t1[id].(timer := second)] == t0[id := t0[id].(timer := second)]
  {
  }

  /** Changing the checkpoint of one entry keeps the ids, every entry's task, and every other
      entry. */
  lemma TimerUpdated(t0: map<nat, TaskNode>, id: nat, timer: Option<TimerNode>)
    requires id in t0
    ensures var t := t0[id := t0[id].(timer := timer)];
      t.Keys == t0.Keys && t[id].timer == timer
      && (forall k :: k in t ==> t[k].task == t0[k].task)
      && (forall k :: k in t && k != id ==> t[k] == t0[k])
  {
  }

  /** What a tick leaves of a table and its tasks' statuses (`stBefore`, `stAfter`): the
      entries it keeps hold the same tasks, every task whose entry it removed was killed with
      TIMEOUT unless already exiting, and every other task keeps its status. */
  predicate TimedOut(before: map<nat, TaskNode>, after: map<nat, TaskNode>,
                     stBefore: map<nat, TaskStatus>, stAfter: map<nat, TaskStatus>)
  {
    stBefore.Keys == before.Keys && stAfter.Keys == before.Keys
    && (forall id :: id in after ==> id in before && after[id].task == before[id].task)
    && (forall id :: id in before ==>
          stAfter[id] == if id in after then stBefore[id] else KilledBy(stBefore[id], Timeout))
  }

  /** The statuses `st` after the task filed under `victim` is killed with TIMEOUT (unless
      exiting) and before its successors run; a missing id changes nothing. */
  function Killing(st: map<nat, TaskStatus>, victim: nat): (r: map<nat, TaskStatus>)
    ensures r.Keys == st.Keys
    ensures forall id :: id in st && id != victim ==> r[id] == st[id]
  {
    if victim in st then st[victim := KilledBy(st[victim], Timeout)] else st
  }

  /** Removing one more entry of the table, and killing its task, keeps what a tick promises. */
  lemma TimedOutStep(tasks0: map<nat, TaskNode>, before: map<nat, TaskNode>, after: map<nat, TaskNode>,
                     st0: map<nat, TaskStatus>, stBefore: map<nat, TaskStatus>, stAfter: map<nat, TaskStatus>,
                     victim: nat)
    requires TimedOut(tasks0, before, st0, stBefore)
    requires victim in before && after == before - {victim} && stAfter == Killing(stBefore, victim)
    ensures TimedOut(tasks0, after, st0, stAfter)
  {
  }

  /** A tick that keeps every entry's task and every status times nothing out. */
  lemma NothingTimedOut(tasks: map<nat, TaskNode>, after: map<nat, TaskNode>, st: map<nat, TaskStatus>)
    requires st.Keys == tasks.Keys && after.Keys == tasks.Keys
    requires forall id :: id in after ==> after[id].task == tasks[id].task
    ensures TimedOut(tasks, after, st, st)
  {
  }

  /** A `tick` at `now` gets past its opening checks: time moves forward and no tick is running. */
  predicate Proceeds(now: TickSpec, last: TickSpec, flags: bv32)
  {
    TickLess(last, now) && flags & FLAG_IN_TICK == 0
  }

  /** A `tick` at `now` goes on to move the clock: it proceeds and no reset is running. */
  predicate Advances(now: TickSpec, last: TickSpec, flags: bv32)
  {
    Proceeds(now, last, flags) && flags & FLAG_IN_RESET == 0
  }

  /** What a tick that is not the first leaves: the checkpoints that have not passed, and the
      entries whose checkpoint has not passed, untouched. */
  predicate ExpiredRemoved(tasks0: map<nat, TaskNode>, timers0: seq<TimerNode>,
                           tasks: map<nat, TaskNode>, timers: seq<TimerNode>, now: TickSpec)
  {
    timers == DropExpired(timers0, now)
    && (forall id :: id in tasks0 ==> (id in tasks <==> !Expired(tasks0[id], now)))
    && (forall id :: id in tasks ==> id in tasks0 && tasks[id] == tasks0[id])
  }

  /** A checkpoint moved forward by `by`, field by field. */
  function ShiftNode(n: TimerNode, offset: TickSpec): TimerNode
  {
    TimerNode(TickSpec(n.expiry.sec + offset.sec, n.expiry.nsec + offset.nsec), n.taskId)
  }

  /** Moving two checkpoints by the same amount keeps their order. */
  lemma ShiftKeepsOrder(a: TimerNode, b: TimerNode, offset: TickSpec)
    ensures NodeLess(ShiftNode(a, offset), ShiftNode(b, offset)) <==> NodeLess(a, b)
  {
  }

  /** Every checkpoint of a sequence moved forward by `by`. */
  function ShiftAll(s: seq<TimerNode>, offset: TickSpec): (r: seq<TimerNode>)
    ensures |r| == |s|
    ensures forall i :: 0 <= i < |s| ==> r[i] == ShiftNode(s[i], offset)
  {
    seq(|s|, i requires 0 <= i < |s| => ShiftNode(s[i], offset))
  }

  /** Moving an ordered set keeps it ordered, and moving it back restores it. */
  lemma ShiftAllSorted(s: seq<TimerNode>, offset: TickSpec)
    ensures Sorted(s) <==> Sorted(ShiftAll(s, offset))
    ensures ShiftAll(ShiftAll(s, offset), TickSpec(-offset.sec, -offset.nsec)) == s
  {
    forall i, j | 0 <= i < j < |s|
      ensures NodeLess(s[i], s[j]) <==> NodeLess(ShiftAll(s, offset)[i], ShiftAll(s, offset)[j])
    {
      ShiftKeepsOrder(s[i], s[j], offset);
    }
  }

  /** The table with every entry's checkpoint moved forward by `by`. */
  function ShiftTable(tasks: map<nat, TaskNode>, offset: TickSpec): (r: map<nat, TaskNode>)
    ensures r.Keys == tasks.Keys
    ensures forall id :: id in r ==> r[id].task == tasks[id].task
    ensures forall id :: id in r ==> (r[id].timer.Some? <==> tasks[id].timer.Some?)
  {
    map id | id in tasks ::
      tasks[id].(timer := if tasks[id].timer.Some? then Some(ShiftNode(tasks[id].timer.value, offset)) else None)
  }

  /** Moving the checkpoints of both the set and the entries keeps them matched. */
  lemma ShiftKeepsMatch(tasks: map<nat, TaskNode>, timers: seq<TimerNode>, offset: TickSpec)
    requires TimersMatch(tasks, timers)
    ensures TimersMatch(ShiftTable(tasks, offset), ShiftAll(timers, offset))
  {
    ShiftAllSorted(timers, offset);
    var t, s := ShiftTable(tasks, offset), ShiftAll(timers, offset);
    forall id | id in t && t[id].timer.Some?
      ensures t[id].timer.value in s && t[id].timer.value.taskId == id
    {
      var x := tasks[id].timer.value;
      var j :| 0 <= j < |timers| && timers[j] == x;
      assert s[j] == t[id].timer.value;
    }
  }

  /** Inserting a checkpoint after every element of an ordered set appends it. */
  lemma {:induction false} InsertGreatest(s: seq<TimerNode>, n: TimerNode)
    requires Sorted(s) && forall x :: x in s ==> NodeLess(x, n)
    ensures n !in s && Insert(s, n) == s + [n]
    decreases |s|
  {
    NodeOrder(n, n, n);
    if s != [] {
      NodeOrder(n, s[0], n);
      InsertGreatest(s[1..], n);
      assert s == [s[0]] + s[1..];
    }
  }

  /** The first-tick loop of `tick`: each checkpoint, moved forward by `by`, is inserted into a
      new ordered set; since moving keeps the order, the result is the whole set moved. */
  method ShiftedCheckpoints(s: seq<TimerNode>, offset: TickSpec) returns (r: seq<TimerNode>)
    requires Sorted(s)
    ensures r == ShiftAll(s, offset) && Sorted(r)
  {
    r := [];
    var i := 0;
    while i < |s|
      invariant 0 <= i <= |s|
      invariant r == ShiftAll(s[..i], offset) && Sorted(r)
    {
      var n := ShiftNode(s[i], offset);
      forall x | x in r
        ensures NodeLess(x, n)
      {
        var j :| 0 <= j < |r| && r[j] == x;
        ShiftKeepsOrder(s[j], s[i], offset);
      }
      InsertGreatest(r, n);
      r := Insert(r, n);
      i := i + 1;
    }
    assert s[..i] == s;
  }

  /** A new manager holding one new task, id 1, added with a 10-second timeout before the
      clock has started. */
  method ManagerWithEarlyTimeout() returns (m: TaskManager, t: Task)
    ensures fresh(m) && fresh(t) && m.Valid()
    ensures m.flags == FLAG_NONE && m.lastTick == TickSpec(0, 0) && t.status == Created
    ensures m.tasks == map[1 := TaskNode(t, Some(TimerNode(TickSpec(10, 0), 1)))]
    ensures t.co == null && m.TaskObjects() == {t} && m.CoObjects() == {}
  {
    m := new TaskManager();
    t := new Task(1, 0, null);
    var r := m.AddTask(t, 10, 0);
    assert m.tasks.Keys == {1};
    assert t in m.TaskObjects();
  }

  /** That task, then ticks at 1000 s and 1001 s. As written, its checkpoint stays at 10 s
      through the first tick, so the second tick times it out one second after the clock
      started. */
  method FirstTickTimeoutAsWritten() returns (status: TaskStatus)
    ensures status == Timeout
  {
    var m, t := ManagerWithEarlyTimeout();
    ghost var node := m.tasks[1];
    var r1, p1 := m.TickAsWritten(TickSpec(1000, 0), 0, {});
    assert m.tasks == map[1 := node];
    var r2, p2 := m.TickAsWritten(TickSpec(1001, 0), 0, {});
    assert Expired(node, TickSpec(1001, 0)) && 1 !in m.tasks;
    status := t.status;
  }

  /** The same under the corrected first tick: the checkpoint moves to 1010 s and the task is
      still waiting to be run. */
  method FirstTickTimeoutCorrected() returns (status: TaskStatus)
    ensures status == Created
  {
    var m, t := ManagerWithEarlyTimeout();
    var r1, p1 := m.Tick(TickSpec(1000, 0), 0, {});
    assert m.tasks[1] == TaskNode(t, Some(TimerNode(TickSpec(1010, 0), 1)));
    var r2, p2 := m.Tick(TickSpec(1001, 0), 0, {});
    assert !Expired(TaskNode(t, Some(TimerNode(TickSpec(1010, 0), 1))), TickSpec(1001, 0));
    status := t.status;
  }

  /** How far the `tick` loop has got over the original checkpoint set `s0` and table `tasks0`:
      the first `k` checkpoints have passed and are gone, and so are exactly the entries they
      named; every other entry is untouched. */
  predicate Swept(s0: seq<TimerNode>, tasks0: map<nat, TaskNode>, k: nat, now: TickSpec,
                  tasks: map<nat, TaskNode>, timers: seq<TimerNode>)
  {
    TimersMatch(tasks0, s0)
    && (forall id :: id in tasks0 ==> tasks0[id].task.id == id)
    && k <= |s0| && timers == s0[k..]
    && (forall j :: 0 <= j < k ==> TickLess(s0[j].expiry, now))
    && (forall id :: id in tasks0 ==>
          (id in tasks <==> !(tasks0[id].timer.Some? && tasks0[id].timer.value in s0[..k])))
    && (forall id :: id in tasks ==> id in tasks0 && tasks[id] == tasks0[id])
  }

  /** Removing the first remaining checkpoint, once it has passed, and the entry it names
      sweeps one checkpoint further. */
  lemma SweptStep(s0: seq<TimerNode>, tasks0: map<nat, TaskNode>, k: nat, now: TickSpec,
                  tasks: map<nat, TaskNode>, timers: seq<TimerNode>)
    requires Swept(s0, tasks0, k, now, tasks, timers)
    requires timers != [] && TickLess(timers[0].expiry, now)
    ensures Swept(s0, tasks0, k + 1, now, tasks - {timers[0].taskId}, timers[1..])
  {
    var victim := s0[k].taskId;
    assert tasks0[victim].timer == Some(s0[k]);
    assert s0[..k + 1] == s0[..k] + [s0[k]];
    assert s0[k + 1..] == timers[1..];
  }

  /** Whether a table entry's checkpoint has passed at `now`. */
  predicate Expired(node: TaskNode, now: TickSpec)
  {
    node.timer.Some? && TickLess(node.timer.value.expiry, now)
  }

  /** When the first `k` checkpoints of an ordered set have passed and the next has not (or
      there is none), what `tick` leaves is the rest, and the entries whose checkpoint is among
      the first `k` are exactly those whose checkpoint has passed. */
  lemma TickRemovesExactlyExpired(tasks: map<nat, TaskNode>, s: seq<TimerNode>, k: nat, now: TickSpec)
    requires TimersMatch(tasks, s) && k <= |s|
    requires forall j :: 0 <= j < k ==> TickLess(s[j].expiry, now)
    requires k < |s| ==> !TickLess(s[k].expiry, now)
    ensures DropExpired(s, now) == s[k..]
    ensures forall id :: id in tasks ==>
      (tasks[id].timer.Some? && tasks[id].timer.value in s[..k] <==> Expired(tasks[id], now))
  {
    DropPrefix(s, k, now);
    DropExpiredKeepsLive(s, now);
    forall id | id in tasks && tasks[id].timer.Some?
      ensures tasks[id].timer.value in s[..k] <==> TickLess(tasks[id].timer.value.expiry, now)
    {
      SplitAtFirstLive(s, k, now, tasks[id].timer.value);
    }
  }

  /** A checkpoint of the queue lies in the first `k` exactly when it has passed. */
  lemma SplitAtFirstLive(s: seq<TimerNode>, k: nat, now: TickSpec, x: TimerNode)
    requires k <= |s| && x in s
    requires forall j :: 0 <= j < k ==> TickLess(s[j].expiry, now)
    requires DropExpired(s, now) == s[k..]
    requires forall y :: y in DropExpired(s, now) <==> y in s && TickLe(now, y.expiry)
    ensures x in s[..k] <==> TickLess(x.expiry, now)
  {
    assert s == s[..k] + s[k..];
    TickOrder(x.expiry, now, now);
  }

  /** Dropping from the front while checkpoints have passed stops after the first `k` when
      those have passed and the next has not. */
  lemma {:induction false} DropPrefix(s: seq<TimerNode>, k: nat, now: TickSpec)
    requires k <= |s|
    requires forall j :: 0 <= j < k ==> TickLess(s[j].expiry, now)
    requires k < |s| ==> !TickLess(s[k].expiry, now)
    ensures DropExpired(s, now) == s[k..]
    decreases k
  {
    if k > 0 {
      DropPrefix(s[1..], k - 1, now);
      assert s[1..][k - 1..] == s[k..];
    }
  }

  /** The kill loop of `reset`: every task of the table it emptied that is not exiting is
      killed with KILLED. The successors' calls of every kill are gathered into the plan. */
  method KillEach(all: map<nat, TaskNode>, finalCode: int, done: set<nat>) returns (plan: seq<Dispatch>)
    requires forall id :: id in all ==> all[id].task.id == id && all[id].task.Valid()
    modifies set id | id in all :: all[id].task
    modifies set id | id in all && all[id].task.co != null :: all[id].task.co
    ensures forall id :: id in all ==> all[id].task.status == KilledBy(old(all[id].task.status), Killed)
  {
    plan := [];
    var remaining := all.Keys;
    while remaining != {}
      invariant remaining <= all.Keys
      invariant forall id :: id in remaining ==>
        all[id].task.Valid() && all[id].task.status == old(all[id].task.status)
      invariant forall id :: id in all && id !in remaining ==>
        all[id].task.status == KilledBy(old(all[id].task.status), Killed)
      decreases remaining
    {
      var id :| id in remaining;
      var t := all[id].task;
      if !IsExiting(t.status) {
        var r, more, resumed := t.Kill(Killed, 0, finalCode, done);
        plan := plan + more;
      }
      remaining := remaining - {id};
      forall j | j in all
        ensures j in remaining ==> all[j].task.Valid() && all[j].task.status == old(all[j].task.status)
        ensures j !in remaining ==> all[j].task.status == KilledBy(old(all[j].task.status), Killed)
      {
        assert all[j].task.id == j;
      }
    }
  }

  /** The status a kill with `to` leaves, from the status the task had: an exiting task is left
      alone, any other takes `to`. */
  function KilledBy(before: TaskStatus, to: TaskStatus): (r: TaskStatus)
    ensures IsExiting(before) ==> r == before
    ensures !IsExiting(before) ==> r == to
  {
    if IsExiting(before) then before else to
  }

  /** The status of a task's coroutine, INVALID for a task without one. */
  function CoStatus(t: Task): CH.Status
    reads t.co
  {
    if t.co == null then CH.Invalid else t.co.status
  }

  /** What the manager can promise about the result of running `t` through it: without a
      coroutine NOT_INITED; a refusal of the compare-and-set loop is returned as is; a coroutine
      that was ready runs and gives SUCCESS, one that had finished gives NOT_READY. */
  predicate RunByManager(t: Task, r: int, expected: TaskStatus, before: TaskStatus, coBefore: CH.Status)
  {
    (t.co == null ==> r == COPP_EC_NOT_INITED)
    && (t.co != null && StartRefusal(expected, before).Some? ==> r == StartRefusal(expected, before).value)
    && (t.co != null && StartRefusal(expected, before).None? ==>
          (coBefore == CH.Ready ==> r == COPP_EC_SUCCESS) && (coBefore != CH.Ready ==> r == COPP_EC_NOT_READY))
  }
}
