# psyched task DAG scheduler, modelled in Dafny

psyched runs a directed acyclic graph of tasks. Each task has a name, a status and two adjacency lists:
- `upstream`: the tasks it depends on;
- `downstream`: the tasks that depend on it.

A status is one of `waiting`, `scheduled`, `running`, `succeeded` or `failed`.

The operators `>>` and `<<` declare edges, and every edge is recorded on both of its ends. A `DAG` object keeps a dictionary from task names to tasks, a cap on parallel workers and a counter of running tasks. `DAG.run` first tries to schedule every task. It then loops over the dictionary until no task is pending. On each visit it asks the task to update itself, allowing a start only while the counter is below the cap. A task that succeeds schedules its downstream tasks whose upstream tasks have all succeeded. A task that fails makes everything downstream of it fail.

The model covers three things:
- the package's `Task` class (psyched/task/task.py);
- the `DAG` class (psyched/dag.py);
- the older single-file `Task` class (psyched/task.py), which is kept in the repository beside it.

Python objects that refer to each other become indices into one table. Each task method becomes a method of the table that takes the task's index and updates its `status`, `upstream` and `downstream` fields in place.

Modules:
- `Graph` (graph.dfy): the adjacency lists, both halves of `set_downstream`/`set_upstream`, the operands of `>>`/`<<`, and reachability.
- `TaskSpec` (task_spec.dfy): the status transitions of `try_to_schedule`, `succeed`, `fail` and `update_status`, as functions of the status table, with their invariants.
- `Task` (task.dfy): the `TaskTable` class, the imperative model of `Task`, including the breadth-first walk of `check_cycles`.
- `DagSpec` (dag_spec.dfy): one pass of the loop body of `run`, and the whole run, as functions.
- `Dag` (dag.dfy): the `Dag` class, the imperative model of `DAG`, proved against `DagSpec`.
- `LegacyTask` (legacy_task.dfy): the older `Task` class.
- `Diamond` (diamond.dfy): the diamond `t1 >> [t2, t3] >> t4` of the repository's tests, run to the end.
- `Wrappers` (wrappers.dfy): the `Result` type and the exception kinds.

Two facts about the source are stated in the proofs:
- **The cycle check never runs.** `__rshift__` and `__lshift__` call `check_cycles()` after their `return` statement (psyched/task/task.py:215 and :230), so the call is dead. `Task.TaskTable.RShift` and `LShift` change the edges and return without any check. `Task.CycleAccepted` shows that `t1 >> t2` followed by `t2 >> t1` builds a two-task cycle that is accepted. `Task.TaskTable.CheckCycles` proves what the check would have reported.
- **The assertion in `try_to_schedule` can trip.** `succeed` calls `try_to_schedule` on every downstream task (psyched/task/task.py:110-111), and that method asserts the task is waiting (line 84). A downstream task that has already failed, because another of its upstream tasks failed first, trips the assertion. `TaskSpec.SucceedBlockedIffDownstreamFailed` characterises exactly when this happens. `Diamond.RunTrips` gives a run with two workers: `t3` fails while `t2` is still running, which fails `t4`. On the fourth tick `t2` succeeds, and its `succeed` raises `AssertionError` on `t4`. The model represents this end of `run` as `Aborted`.

## Model

| member | source | states |
|---|---|---|
| Graph.LinkKeepsWellFormed | psyched/task/task.py:121-139 | declaring an edge keeps the two lists mirrored and duplicate-free; afterwards `a -> b` is present and every other edge is unchanged; a new edge is appended to the end of both lists; an existing edge leaves everything unchanged |
| Graph.LinkUpIsLink | psyched/task/task.py:121-139 | `a.set_upstream(b)` has the same effect as `b.set_downstream(a)` |
| Graph.LinkIdempotent | psyched/task/task.py:121-139 | declaring the same edge twice is the same as declaring it once |
| Graph.LinkAllConcat | psyched/task/task.py:209-211 | `>>` over a concatenated list is `>>` over the first part, then over the second |
| Graph.LinkUpAllConcat | psyched/task/task.py:224-226 | `<<` over a concatenated list is `<<` over the first part, then over the second |
| Graph.LinkAllAppends | tests/test_task.py:107-145 | `a >> [t1, t2, ...]` on new edges appends the targets to `a.downstream` in list order and appends `a` to each target's upstream list; nothing else changes |
| Graph.LinkUpAllAppends | tests/test_task.py:147-156 | `a << [t1, t2, ...]` on new edges appends the targets to `a.upstream` in list order and appends `a` to each target's downstream list; nothing else changes |
| Graph.LinkAllKeepsWellFormed | psyched/task/task.py:202-230 | any sequence of `>>` or `<<` links keeps the adjacency mirrored and duplicate-free |
| Graph.JoinStops | psyched/task/task.py:209-213 | once an item of a list operand raises, the remaining items are not visited |
| Graph.TargetsWithin | psyched/task/task.py:202-213 | every task an operand names belongs to the table |
| TaskSpec.ScheduleEachEffect | psyched/dag.py:63-64 | `try_to_schedule` on each of a list of waiting tasks schedules exactly the listed tasks whose upstream tasks have all succeeded, and leaves every other task as it was |
| TaskSpec.ScheduleEachKeepsInvariants | psyched/task/task.py:78-89 | scheduling keeps every scheduled, running or succeeded task's upstream tasks succeeded, starts nothing, and only turns waiting tasks into scheduled ones |
| TaskSpec.ScheduleStep | psyched/dag.py:63-64 | scheduling the whole list is scheduling its first task, then the rest, and the rest are still waiting |
| TaskSpec.SucceedEffect | psyched/task/task.py:107-111 | `succeed` marks the task succeeded and schedules exactly those downstream tasks whose upstream tasks have now all succeeded; no other task changes |
| TaskSpec.CascadeFail | psyched/task/task.py:113-119 | after `fail` the task has failed, every task either keeps its status or has failed, and the number of failed tasks does not decrease |
| TaskSpec.CascadeFailAll | psyched/task/task.py:118-119 | `fail` on each of a list of tasks changes statuses only to failed |
| TaskSpec.FailFillsGap | psyched/task/task.py:113-119 | `fail` on `i` restores the downstream closure of failure that `i` left open |
| TaskSpec.FailStaysIn | psyched/task/task.py:113-119 | `fail` on a task of a downstream-closed set changes nothing outside that set |
| TaskSpec.FailClosedReaches | psyched/task/task.py:113-119 | on a table where every downstream task of a failed task has failed, every task reachable through downstream edges from a failed task has failed |
| TaskSpec.FailExact | psyched/task/task.py:113-119 | on a table where failure is closed downstream, `fail` on `i` makes exactly `i` and the tasks reachable from it failed, leaves every other task unchanged, and keeps failure closed |
| TaskSpec.FailAbsorbs | psyched/task/task.py:115-116 | on a table where failure is closed downstream, after `fail` on `i`, failing any task reachable from `i` changes nothing |
| TaskSpec.FailCommutes | psyched/task/task.py:113-119 | on a table where failure is closed downstream, the order in which two tasks fail does not change the result |
| TaskSpec.FailSparesAdmitted | psyched/task/task.py:113-119 | failing an unsucceeded task keeps every admitted task's upstream tasks succeeded; apart from the task itself it only changes waiting tasks |
| TaskSpec.UpdateDelta | psyched/task/task.py:56-76 | `update_status` returns 1 exactly when it starts a scheduled runnable task, -1 exactly when a running task has finished (then succeeded or failed according to the backend), and 0 with the table unchanged otherwise |
| TaskSpec.SucceedKeepsInvariants | psyched/task/task.py:107-111 | succeeding a running task keeps every admitted task's upstream tasks succeeded, lowers the number of running tasks by one, and changes no finished task |
| TaskSpec.FailKeepsInvariants | psyched/task/task.py:113-119 | failing a running task keeps every admitted task's upstream tasks succeeded, lowers the number of running tasks by one, and changes no finished task |
| TaskSpec.StartKeepsInvariants | psyched/task/task.py:67-70 | starting a scheduled task keeps the upstream invariant and raises the number of running tasks by one |
| TaskSpec.UpdateKeepsFailClosed | psyched/task/task.py:56-76 | `update_status` keeps every downstream task of a failed task failed: starting or succeeding a task fails nothing, and a failure cascades |
| TaskSpec.UpdateKeepsInvariants | psyched/task/task.py:56-76 | `update_status` keeps the upstream invariant; its result is the change in the number of running tasks; it starts a task only when `runnable`; it never changes a finished task |
| TaskSpec.SucceedBlockedIffDownstreamFailed | psyched/task/task.py:84 | while the upstream invariant holds, the assertion that `succeed` can trip fails exactly when some downstream task has already failed |
| Task.Unseen | psyched/task/task.py:195-199 | the comprehension keeps exactly the downstream tasks that are neither visited nor pending, and keeps them free of duplicates |
| Task.WalkStart | psyched/task/task.py:188-189 | the walk starts with nothing visited and the downstream tasks pending, which is a valid walk state |
| Task.WalkStep | psyched/task/task.py:190-200 | visiting the first pending task, when it is not the task itself, keeps the walk state: visited and pending are disjoint, each is reachable from a downstream task, and together they cover the downstream tasks of every visited task |
| Task.WalkShrinks | psyched/task/task.py:190-200 | every visit removes one task from those not yet visited, so the walk ends |
| Task.WalkMeets | psyched/task/task.py:192-193 | meeting the task again means it lies on a cycle |
| Task.WalkDone | psyched/task/task.py:190 | a walk that empties its pending list has shown the task is on no cycle |
| Task.CycleAccepted | psyched/task/task.py:202-215 | `t1 >> t2` then `t2 >> t1` on two new tasks returns normally and puts `t1` on a cycle |
| Task.TaskTable.constructor | psyched/task/task.py:45-54 | a table with no tasks |
| Task.TaskTable.NewTask | psyched/task/task.py:45-54 | `Task(name)` adds a waiting task with no upstream and no downstream tasks; the other tasks are unchanged |
| Task.TaskTable.IsPending | psyched/task/task.py:175-181 | pending exactly when the task has neither succeeded nor failed |
| Task.TaskTable.TryToSchedule | psyched/task/task.py:78-89 | on a waiting task: scheduled, with result true, exactly when every upstream task has succeeded; otherwise nothing changes and the result is false |
| Task.TaskTable.Run | psyched/task/task.py:91-97 | the backend starts a scheduled task, which becomes running |
| Task.TaskTable.TryToFinish | psyched/task/task.py:99-105 | the result is the backend's "done" answer; a finished task then succeeds or fails, and an unfinished one is left as it was |
| Task.TaskTable.Succeed | psyched/task/task.py:107-111 | the new table is `AfterSucceed`, whose effect `SucceedEffect` states |
| Task.TaskTable.Fail | psyched/task/task.py:113-119 | the new table is `CascadeFail` of the old one, whose effect `FailExact` states |
| Task.TaskTable.UpdateStatus | psyched/task/task.py:56-76 | the new table and the result are `Update` of the old table, whose cases `UpdateDelta` states |
| Task.TaskTable.SetDownstream | psyched/task/task.py:131-139 | the mutual recursion with `set_upstream` declares the edge `a -> b` on both ends |
| Task.TaskTable.SetUpstream | psyched/task/task.py:121-129 | the mutual recursion with `set_downstream` declares the edge `b -> a` on both ends |
| Task.TaskTable.RShift | psyched/task/task.py:202-215 | links every task the operand names downstream, depth first and left to right; returns the operand, or `TypeError` at the first value that is not a task or a list, keeping the links made before it; nothing rejects a cycle |
| Task.TaskTable.RShiftEach | psyched/task/task.py:209-211 | `>>` on each item of a list, in order, stopping at the first error |
| Task.TaskTable.LShift | psyched/task/task.py:217-230 | the mirror image of `RShift` for upstream links |
| Task.TaskTable.LShiftEach | psyched/task/task.py:224-226 | `<<` on each item of a list, in order, stopping at the first error |
| Task.TaskTable.RRShift | psyched/task/task.py:232-238 | `list >> task` is `task << list` and returns the task |
| Task.TaskTable.RLShift | psyched/task/task.py:240-246 | `list << task` is `task >> list` and returns the task |
| Task.TaskTable.CheckCycles | psyched/task/task.py:183-200 | raises `RuntimeError` exactly when the task lies on a cycle of downstream edges; otherwise returns normally; changes nothing |
| DagSpec.UpdateKeeps | psyched/dag.py:70-72 | one task's update within the loop body keeps the upstream invariant, moves the counter by the change in running tasks, and keeps the counter within the cap |
| DagSpec.TickKeeps | psyched/dag.py:70-74 | a whole pass keeps the upstream invariant; it moves the counter exactly as the number of running tasks moves; it never takes the counter above both the cap and its old value; it changes no finished task |
| DagSpec.TickCountsPending | psyched/dag.py:67-74 | a pass counts no task pending only when every task of the dictionary has succeeded or failed |
| DagSpec.TickKeepsFailClosed | psyched/dag.py:70-74 | a whole pass keeps every downstream task of a failed task failed |
| DagSpec.RunTicksKeepsInvariants | psyched/dag.py:66-74 | any number of passes keeps the upstream invariant, the counter, and every downstream task of a failed task failed; when the loop ends normally, every task has finished |
| DagSpec.RunKeepsInvariants | psyched/dag.py:58-75 | when `run` returns, every task of the dictionary has succeeded or failed; the counter equals its start value plus the change in running tasks; the counter stays within the cap when it starts there; every scheduled, running or succeeded task's upstream tasks have succeeded; every downstream task of a failed task has failed |
| DagSpec.RunFailsDownstream | psyched/dag.py:58-75 | when `run` returns normally, every task reachable through downstream edges from a failed task has failed |
| Dag.Dag.constructor | psyched/dag.py:9-18 | no tasks; the cap as given, by default 1; nothing running |
| Dag.Dag.IdsFit | psyched/dag.py:26 | each dictionary key maps to a different task, because a task is stored under its own name |
| Dag.Dag.AddTask | psyched/dag.py:20-27 | the dictionary maps the task's name to the task and replaces any task of the same name; a new name goes last in iteration order; a replaced name keeps its place |
| Dag.Dag.NewTask | psyched/dag.py:29-56 | for `docker`, `python` or `shell`, a new waiting task added under its name; for any other type, `ValueError` and nothing changes |
| Dag.Dag.Visit | psyched/dag.py:70-74 | one turn of the inner loop: the task crashes exactly in the assertion case, and then the table and counter are left as they were; otherwise the table and counter move as `Update` states, and the pending flag is the task's own |
| Dag.Dag.Tick | psyched/dag.py:67-74 | the loop body leaves the table, counter and pending count that `TickOver` gives, whose properties `TickKeeps` and `TickCountsPending` state |
| Dag.Dag.ScheduleAll | psyched/dag.py:63-64 | the first loop leaves the table `ScheduleEach` gives, whose effect `ScheduleEachEffect` states |
| Dag.Dag.TickUntilDone | psyched/dag.py:65-74 | the `while pending > 0` loop returns what `RunTicks` gives |
| Dag.Dag.Run | psyched/dag.py:58-75 | `run` returns what `RunSpec` gives, whose properties `RunKeepsInvariants` states |
| Diamond.ShapeBuilt | tests/test_dag.py:55 | `t1 >> [t2, t3] >> t4` on four new tasks builds the diamond's edges, in this order |
| Diamond.ScheduledFirst | psyched/dag.py:63-64 | scheduling the diamond schedules only `t1` |
| Diamond.RunSucceeds | tests/test_dag.py:49-60 | with one worker and every task succeeding, `run` completes with all four tasks succeeded |
| Diamond.RunFails | tests/test_dag.py:62-76 | with one worker and `t3` failing, `run` completes with `t1` and `t2` succeeded and `t3` and `t4` failed |
| Diamond.RunTrips | psyched/task/task.py:84 | with two workers, `t3` failing on the third tick while `t2` still runs and `t2` succeeding a tick later, `run` stops on the assertion raised by `t2`'s `succeed` |
| LegacyTask.Blocker | psyched/task.py:50-56 | where the `for` scan of `schedule` stops: every upstream task before it has succeeded, and the one at it has not (or the scan reached the end) |
| LegacyTask.BlockerAt | psyched/task.py:50-56 | any position with that property is the scan's stopping point |
| LegacyTask.ScheduleOutcome | psyched/task.py:48-59 | `schedule` changes only the task; scheduled exactly when every upstream task has succeeded; failed exactly when the first upstream task that has not succeeded has failed; result false, with nothing changed, exactly when that task is still pending |
| LegacyTask.UpdateCounts | psyched/task.py:25-46 | the pair `update_status` returns is exactly the change in the number of running tasks and in the number of pending tasks; only the task itself changes |
| LegacyTask.UpdateCases | psyched/task.py:25-46 | `(0, -1)` exactly when `schedule` fails a waiting task; `(1, 0)` exactly when a scheduled runnable task starts; `(-1, -1)` exactly when a running task has stopped, succeeding on exit status 0; `(0, 0)` otherwise |
| LegacyTask.Color | psyched/task.py:108-116 | each status's colour is a seven-character `#rrggbb` string of lower-case hexadecimal digits |
| LegacyTask.ColorsDistinct | psyched/task.py:108-116 | two statuses have the same colour only when they are the same status |
| LegacyTask.LegacyTable.constructor | psyched/task.py:15-23 | a table with no tasks |
| LegacyTask.LegacyTable.NewTask | psyched/task.py:15-23 | `Task(name, image, command)` adds a waiting task with no links |
| LegacyTask.LegacyTable.Schedule | psyched/task.py:48-59 | the `for ... else` loop leaves the table and result that `ScheduleResult` gives, whose cases `ScheduleOutcome` states |
| LegacyTask.LegacyTable.Run | psyched/task.py:61-65 | a scheduled task becomes running; the result is true |
| LegacyTask.LegacyTable.Finish | psyched/task.py:67-77 | once the container has stopped, the task succeeds on exit status 0 and fails otherwise; the result says whether it had stopped |
| LegacyTask.LegacyTable.Succeed | psyched/task.py:79-81 | only the task itself is marked succeeded; nothing downstream changes |
| LegacyTask.LegacyTable.Fail | psyched/task.py:83-85 | only the task itself is marked failed; nothing downstream changes |
| LegacyTask.LegacyTable.UpdateStatus | psyched/task.py:25-46 | the new table and the pair are `LegacyUpdate` of the old table, whose meaning `UpdateCounts` and `UpdateCases` state |
| LegacyTask.LegacyTable.SetDownstream | psyched/task.py:93-97 | declares the edge `a -> b` on both ends |
| LegacyTask.LegacyTable.SetUpstream | psyched/task.py:87-91 | declares the edge `b -> a` on both ends |
| LegacyTask.LegacyTable.RShift | psyched/task.py:118-126 | links every task the operand names downstream, in order; returns the operand, or `TypeError` at the first value that is not a task or a list |
| LegacyTask.LegacyTable.RShiftEach | psyched/task.py:122-123 | `>>` on each item of a list, in order, stopping at the first error |
| LegacyTask.LegacyTable.LShift | psyched/task.py:128-136 | the mirror image of `RShift` for upstream links |
| LegacyTask.LegacyTable.LShiftEach | psyched/task.py:132-133 | `<<` on each item of a list, in order, stopping at the first error |
| LegacyTask.LegacyTable.RRShift | psyched/task.py:138-140 | `list >> task` is `task << list` and returns the task |
| LegacyTask.LegacyTable.RLShift | psyched/task.py:142-144 | `list << task` is `task >> list` and returns the task |

## Left out

- Execution backends: the Docker, Python and shell task classes, `image.py`, `utils.py` and `server.py` are not part of this model. The package's `run`/`try_to_finish` become a `Poll` answer (done, succeeded) supplied as a parameter. The older class's container becomes an `Exit` value (stopped, exit status).
- `time.sleep(1)` in `run` is left out. The clock plays no part in the state.
- Dag.Dag.Run: `run` loops until nothing is pending, which may be forever. The model makes at most `maxTicks` passes and returns `Stalled` when tasks are still pending after them.
- Dag.Dag.Run: after the `AssertionError` of `try_to_schedule`, the model returns `Aborted` with the task and tick. It does not keep the statuses that `succeed` had already changed before the exception.
- Dag.Dag.Visit: on the assertion case it does not change the table, whereas the source has already marked the task succeeded and may have scheduled some downstream tasks.
- DagSpec.RunKeepsInvariants: it assumes that every admitted task's upstream tasks have succeeded at the start, and that every downstream task of a failed task has failed. Both always hold for a table of freshly created tasks, where no task is admitted or failed.
- DagSpec.RunFailsDownstream: it makes the same two assumptions about the table at the start.
- Dag.Dag.NewTask: the keyword arguments (`image`, `command`, `target`) and the `KeyError` when one is missing are not modelled. The task kind is not recorded, because all kinds share the scheduling behaviour.
- Task.TaskTable.RShift: the error message text of `TypeError` is not modelled. Nor is the fact that Python compares tasks by identity.
- Getters (`get_name`, `get_upstream`, `get_downstream`), `get_logs`, `__str__`, the examples and the package `__init__.py` files are not part of this model.
- Task.TaskTable.Succeed: it requires that every downstream task is waiting, which is the assertion the source would otherwise raise. The crash itself is modelled by `Dag.Dag.Visit` and `DagSpec.TickOver`.
- LegacyTask.LegacyTable.Run: `image.run_command` is not modelled. The task simply becomes running.
- Task.TaskTable.UpdateStatus: it requires that a running task whose backend finished successfully has only waiting downstream tasks. Otherwise `succeed` would trip the assertion of `try_to_schedule`, and that path is not modelled here. `Dag.Dag.Visit` and `DagSpec.TickOver` model it.
- TaskSpec.Update: it has the same requirement as Task.TaskTable.UpdateStatus, for the same assertion.
- TaskSpec.FailAbsorbs and TaskSpec.FailCommutes: both assume a table where failure is closed downstream. A table that gains an edge `t1 >> t2` after `t1` has failed is not such a table, and there `fail` stops at `t1` without reaching `t2`.
- Dag.Dag.ScheduleAll: it requires every task to be waiting, which `try_to_schedule` asserts. The `AssertionError` it raises otherwise, for instance when `run` is called a second time on the same DAG, is not modelled.
- Dag.Dag.Run: it requires every task to be waiting at the start, for the same assertion in `try_to_schedule`. That `AssertionError` path is not modelled.
- Task.TaskTable.TryToSchedule: it requires a waiting task, which the source asserts. The `AssertionError` path is not modelled.
- Task.TaskTable.Run: it requires a scheduled task, the only status on which `update_status` calls `run`. A direct call on a task in another status is not modelled.
- Task.TaskTable.TryToFinish: it requires a running task, the only status on which `update_status` calls `try_to_finish`. A direct call on a task in another status is not modelled.
- LegacyTask.LegacyTable.Schedule: it requires a waiting task, which the source asserts. The `AssertionError` path is not modelled.
- LegacyTask.LegacyTable.Run: it requires a scheduled task, which the source asserts. The `AssertionError` path is not modelled.
- LegacyTask.LegacyTable.Finish: it requires a running task, which the source asserts. The `AssertionError` path is not modelled.
