/** The `DAG` class of psyched/dag.py: a dictionary from task names to tasks, a cap on
    the number of tasks running at once, a counter of running tasks, and the loop that
    runs every task of the dictionary. */
module Dag {
  import opened Graph
  import opened TaskSpec
  import opened DagSpec
  import opened Task
  import opened Wrappers

  /** The task types `new_task` accepts. */
  predicate KnownKind(kind: string) {
    kind == "docker" || kind == "python" || kind == "shell"
  }

  class Dag {
    /** The tasks themselves; the dictionary holds indices into this table. */
    const table: TaskTable
    /** `self.tasks`: task name to task. */
    var tasks: map<string, nat>
    /** The keys of `self.tasks` in insertion order, the order in which `run` visits
        them. */
    var order: seq<string>
    /** `self.max_parallel_tasks`. */
    var maxParallel: int
    /** `self.running`. */
    var running: int

    /** `order` lists each key of the dictionary once, and each key maps to a task of
        the table carrying that name. */
    ghost predicate Indexed()
      reads this`order, this`tasks, table`name
    {
      && NoDup(order)
      && (forall n :: n in tasks <==> n in order)
      && (forall n | n in tasks :: tasks[n] < |table.name| && table.name[tasks[n]] == n)
    }

    /** The tasks of the dictionary, in the order `run` visits them. `IdsFit` states
        what they are worth to `run`. */
    function Ids(): (r: seq<nat>)
      requires forall n | n in order :: n in tasks
      reads this`order, this`tasks
      ensures |r| == |order|
    {
      var o, m := order, tasks;
      seq(|o|, k requires 0 <= k < |o| => m[o[k]])
    }

    /** Each task of the dictionary is a task of the table, and none is visited twice:
        two keys never map to the same task, since each task is stored under its own
        name. */
    lemma IdsFit()
      requires Indexed()
      ensures Within(Ids(), |table.name|) && NoDup(Ids())
    {
      var r := Ids();
      forall j, k | 0 <= j < k < |r| ensures r[j] != r[k] {
        assert table.name[r[j]] == order[j] && table.name[r[k]] == order[k];
      }
    }

    /** The table is well formed and the dictionary indexes it. */
    ghost predicate Valid()
      reads this`order, this`tasks, table
    {
      table.Valid() && Indexed()
    }

    /** `DAG(max_parallel_workers)`: no tasks, nothing running. */
    constructor (t: TaskTable, maxParallelWorkers: int := 1)
      requires t.Valid()
      ensures Valid() && table == t
      ensures tasks == map[] && order == [] && maxParallel == maxParallelWorkers && running == 0
    {
      table := t;
      tasks := map[];
      order := [];
      maxParallel := maxParallelWorkers;
      running := 0;
    }

    /** `add_task`: the dictionary maps the task's name to the task, replacing any
        task of the same name; a new name goes to the end of the visiting order, a
        replaced one keeps its place. */
    method AddTask(i: nat)
      requires Valid() && i < |table.status|
      modifies this`tasks, this`order
      ensures Valid()
      ensures tasks == old(tasks)[table.name[i] := i]
      ensures order == if table.name[i] in old(tasks) then old(order) else old(order) + [table.name[i]]
    {
      var n := table.name[i];
      if n !in tasks {
        order := order + [n];
      }
      tasks := tasks[n := i];
    }

    /** `new_task(name, task_type)`: a new waiting task of that name, added to the
        dictionary, for a known task type; `ValueError`, with nothing changed, for any
        other. */
    method NewTask(n: string, kind: string) returns (r: Result<nat>)
      requires Valid()
      modifies table, this`tasks, this`order
      ensures Valid()
      ensures r.Err? <==> !KnownKind(kind)
      ensures r.Err? ==> r.error == ValueError
      ensures r.Err? ==> tasks == old(tasks) && order == old(order) && unchanged(table)
      ensures r.Ok? ==> r.value == old(|table.status|) && table.name == old(table.name) + [n]
      ensures r.Ok? ==> table.status == old(table.status) + [Waiting]
      ensures r.Ok? ==> table.upstream == old(table.upstream) + [[]] && table.downstream == old(table.downstream) + [[]]
      ensures r.Ok? ==> tasks == old(tasks)[n := r.value]
      ensures r.Ok? ==> order == if n in old(tasks) then old(order) else old(order) + [n]
    {
      if !KnownKind(kind) {
        return Err(ValueError);
      }
      var i := table.NewTask(n);
      AddTask(i);
      return Ok(i);
    }

    /** One turn of the `for task in self.tasks` loop inside `run` for task `i`:
        `update_status` with `runnable` telling whether the counter is below the cap,
        the counter moved by its result, and whether the task is still pending.
        `crashed` when the task's `succeed` trips the assertion of `try_to_schedule`. */
    method Visit(i: nat, poll: Poll) returns (crashed: bool, pending: bool)
      requires table.Valid() && i < |table.status|
      modifies table`status, this`running
      ensures table.Valid() && Within(table.downstream[i], |table.status|)
      ensures crashed <==> old(table.status[i]) == Running && poll.done && poll.ok
                           && !SucceedAllowed(old(table.status), table.downstream, i)
      ensures !crashed ==> (table.status, running - old(running))
                             == Update(old(table.status), table.Edges(), i, old(running) < maxParallel, poll)
      ensures !crashed ==> pending == Pending(table.status[i])
      ensures crashed ==> table.status == old(table.status) && running == old(running)
    {
      assert Within(table.downstream[i], |table.status|);
      if table.status[i] == Running && poll.done && poll.ok
         && !SucceedAllowed(table.status, table.downstream, i) {
        return true, false;
      }
      var delta := table.UpdateStatus(i, running < maxParallel, poll);
      running := running + delta;
      pending := table.IsPending(i);
      return false, pending;
    }

    /** The body of the `while pending > 0` loop of `run`: `update_status` on every task
        of the dictionary, with `runnable` telling whether the counter is below the cap,
        the counter moved by each result, and the tasks still pending counted. The
        result is `Crashed` when a task's `succeed` trips the assertion of
        `try_to_schedule`. */
    method Tick(poll: nat -> Poll) returns (r: TickResult)
      requires Valid()
      modifies table`status, this`running
      ensures Valid()
      ensures r == TickOver(old(table.status), table.Edges(), Ids(), old(running), maxParallel, poll, 0)
      ensures r.Ticked? ==> table.status == r.status && running == r.running
    {
      var ids := Ids();
      IdsFit();
      ghost var g := table.Edges();
      ghost var want := TickOver(old(table.status), g, ids, old(running), maxParallel, poll, 0);
      var pending: nat := 0;
      var rest := ids;
      while rest != []
        invariant table.Valid() && Within(rest, |table.status|)
        invariant TickOver(table.status, g, rest, running, maxParallel, poll, pending) == want
      {
        var i := rest[0];
        ghost var st, running0, pending0 := table.status, running, pending;
        var crashed, counted := Visit(i, poll(i));
        if crashed {
          TickCrashes(st, g, rest, running0, maxParallel, poll, pending);
          return Crashed(i);
        }
        if counted {
          pending := pending + 1;
        }
        TickResumes(st, table.status, g, rest, running0, running - running0, maxParallel, poll, pending0, pending);
        rest := rest[1..];
      }
      return Ticked(table.status, running, pending);
    }

    /** The first loop of `run`: `try_to_schedule` on every task of the dictionary, in
        order. */
    method ScheduleAll()
      requires Valid() && AllWaiting(table.status, Ids())
      modifies table`status
      ensures Valid()
      ensures table.status == ScheduleEach(old(table.status), table.upstream, Ids())
    {
      var rest := Ids();
      IdsFit();
      while rest != []
        invariant table.Valid() && Within(rest, |table.status|) && NoDup(rest)
        invariant table.upstream == old(table.upstream)
        invariant AllWaiting(table.status, rest)
        invariant ScheduleEach(table.status, table.upstream, rest) == ScheduleEach(old(table.status), table.upstream, Ids())
      {
        var i := rest[0];
        assert Within(table.upstream[i], |table.status|);
        ghost var st := table.status;
        var _ := table.TryToSchedule(i);
        ScheduleStep(st, table.status, table.upstream, rest);
        rest := rest[1..];
      }
    }

    /** The `while pending > 0` loop of `run`, entered with every task of the
        dictionary counted pending. The backends answer through `backend`, and at
        most `maxTicks` passes are made. */
    method TickUntilDone(backend: Backend, maxTicks: nat) returns (r: RunResult)
      requires Valid()
      modifies table`status, this`running
      ensures Valid()
      ensures r == RunTicks(old(table.status), table.Edges(), Ids(), old(running), maxParallel, backend, 0, |Ids()|, maxTicks)
      ensures !r.Aborted? ==> table.status == r.status && running == r.running
    {
      var ids := Ids();
      ghost var g := table.Edges();
      ghost var want := RunTicks(table.status, g, ids, running, maxParallel, backend, 0, |ids|, maxTicks);
      var pending: nat := |ids|;
      var tick: nat := 0;
      while pending > 0 && tick < maxTicks
        invariant tick <= maxTicks && Valid()
        invariant RunTicks(table.status, g, ids, running, maxParallel, backend, tick, pending, maxTicks - tick) == want
        decreases maxTicks - tick
      {
        ghost var st, running0 := table.status, running;
        var t := Tick(PollAt(backend, tick));
        if t.Crashed? {
          RunCrashes(st, g, ids, running0, maxParallel, backend, tick, pending, maxTicks - tick, t.at);
          return Aborted(t.at, tick);
        }
        RunContinues(st, g, ids, running0, maxParallel, backend, tick, pending, maxTicks - tick, t.status, t.running, t.pending);
        pending := t.pending;
        tick := tick + 1;
      }
      r := if pending == 0 then Completed(table.status, running) else Stalled(table.status, running);
    }

    /** `run`: `try_to_schedule` on every task of the dictionary, then the loop. */
    method Run(backend: Backend, maxTicks: nat) returns (r: RunResult)
      requires Valid() && AllWaiting(table.status, Ids())
      modifies table`status, this`running
      ensures Valid()
      ensures r == RunSpec(old(table.status), table.Edges(), Ids(), old(running), maxParallel, backend, maxTicks)
      ensures !r.Aborted? ==> table.status == r.status && running == r.running
    {
      ScheduleAll();
      r := TickUntilDone(backend, maxTicks);
    }
  }
}
