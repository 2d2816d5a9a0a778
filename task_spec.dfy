/** The status transitions of psyched/task/task.py as functions of the status table:
    what `try_to_schedule`, `succeed`, `fail` and `update_status` leave behind, and
    the facts the scheduling loop relies on. */
module TaskSpec {
  import opened Graph

  /** One answer of an execution backend to `try_to_finish`: whether the work has
      finished, and if so whether it ended successfully (exit code 0, or no error
      raised by the in-process callable). */
  datatype Poll = Poll(done: bool, ok: bool)

  /** Number of tasks with status `s`. */
  function Count(st: seq<Status>, s: Status): (c: nat)
    ensures c <= |st|
  {
    if st == [] then 0 else (if st[0] == s then 1 else 0) + Count(st[1..], s)
  }

  /** Changing one status changes the count by what left and what arrived. */
  lemma {:induction false} CountUpdate(st: seq<Status>, j: nat, v: Status, s: Status)
    requires j < |st|
    ensures Count(st[j := v], s) == Count(st, s) - (if st[j] == s then 1 else 0) + (if v == s then 1 else 0)
  {
    if j > 0 {
      assert st[j := v][1..] == st[1..][j - 1 := v];
      CountUpdate(st[1..], j - 1, v, s);
    } else {
      assert st[j := v][1..] == st[1..];
    }
  }

  /** Two tables that agree on which tasks have status `s` have the same count. */
  lemma {:induction false} CountSame(st: seq<Status>, r: seq<Status>, s: Status)
    requires |r| == |st| && forall j | 0 <= j < |st| :: (r[j] == s) == (st[j] == s)
    ensures Count(r, s) == Count(st, s)
  {
    if st != [] {
      CountSame(st[1..], r[1..], s);
    }
  }

  /** Every task in `ups` has succeeded. */
  predicate AllSucceeded(st: seq<Status>, ups: seq<nat>)
    requires Within(ups, |st|)
  {
    forall k | 0 <= k < |ups| :: st[ups[k]] == Succeeded
  }

  /** Scheduled, running and succeeded tasks: those `try_to_schedule` has let through. */
  predicate Admitted(s: Status) {
    s == Scheduled || s == Running || s == Succeeded
  }

  /** The status table and the adjacency describe the same tasks, and the adjacency
      lists mirror each other without duplicates. */
  ghost predicate Fits(st: seq<Status>, g: Adj) {
    WellFormed(g) && |g.down| == |st|
  }

  /** Every admitted task has only succeeded upstream tasks. `try_to_schedule` admits a
      task only then, and a succeeded task never changes again while this holds. */
  ghost predicate UpstreamRespected(st: seq<Status>, up: seq<seq<nat>>)
    requires |up| == |st| && Bounded(up)
  {
    forall x | 0 <= x < |st| && Admitted(st[x]) :: AllSucceeded(st, up[x])
  }

  /** The status table after `try_to_schedule` on the waiting task `i` whose upstream
      list is `ups`. */
  function AfterTrySchedule(st: seq<Status>, ups: seq<nat>, i: nat): seq<Status>
    requires i < |st| && Within(ups, |st|)
  {
    if AllSucceeded(st, ups) then st[i := Scheduled] else st
  }

  predicate AllWaiting(st: seq<Status>, ds: seq<nat>)
    requires Within(ds, |st|)
  {
    forall k | 0 <= k < |ds| :: st[ds[k]] == Waiting
  }

  /** `try_to_schedule` on every task of `ds`, in order. */
  function ScheduleEach(st: seq<Status>, up: seq<seq<nat>>, ds: seq<nat>): (r: seq<Status>)
    requires |up| == |st| && Bounded(up) && Within(ds, |st|) && NoDup(ds) && AllWaiting(st, ds)
    ensures |r| == |st|
    decreases |ds|
  {
    if ds == [] then st
    else
      assert Within(up[ds[0]], |up|);
      ScheduleEach(AfterTrySchedule(st, up[ds[0]], ds[0]), up, ds[1..])
  }

  /** The assertion `status == waiting` in `try_to_schedule` holds for every downstream
      task `succeed` visits: each is waiting and none is the task itself. */
  predicate SucceedAllowed(st: seq<Status>, down: seq<seq<nat>>, i: nat)
    requires i < |st| && |down| == |st| && Within(down[i], |st|)
  {
    forall k | 0 <= k < |down[i]| :: down[i][k] != i && st[down[i][k]] == Waiting
  }

  /** The status table after `succeed` on task `i`. */
  function AfterSucceed(st: seq<Status>, g: Adj, i: nat): (r: seq<Status>)
    requires Fits(st, g) && i < |st|
    requires SucceedAllowed(st, g.down, i)
    ensures |r| == |st|
  {
    assert Within(g.down[i], |st|);
    ScheduleEach(st[i := Succeeded], g.up, g.down[i])
  }

  /** Scheduling a waiting task does not change which tasks have succeeded. */
  lemma AllSucceededIgnoresScheduling(st: seq<Status>, ups: seq<nat>, d: nat)
    requires d < |st| && st[d] == Waiting && Within(ups, |st|)
    ensures AllSucceeded(st[d := Scheduled], ups) == AllSucceeded(st, ups)
  {
    if !AllSucceeded(st, ups) {
      var k :| 0 <= k < |ups| && st[ups[k]] != Succeeded;
      assert st[d := Scheduled][ups[k]] != Succeeded;
    }
  }

  /** `try_to_schedule` on the first task of the list leaves the rest waiting and the
      outcome of scheduling them unchanged. */
  lemma ScheduleStep(st: seq<Status>, st': seq<Status>, up: seq<seq<nat>>, ds: seq<nat>)
    requires |up| == |st| && Bounded(up) && Within(ds, |st|) && NoDup(ds) && AllWaiting(st, ds) && ds != []
    requires Within(up[ds[0]], |st|) && st' == AfterTrySchedule(st, up[ds[0]], ds[0])
    ensures NoDup(ds[1..]) && AllWaiting(st', ds[1..])
    ensures ScheduleEach(st, up, ds) == ScheduleEach(st', up, ds[1..])
  {
    forall k | 0 <= k < |ds| - 1 ensures ds[1..][k] != ds[0] {
      assert ds[1..][k] == ds[k + 1];
    }
  }

  /** `try_to_schedule` on each task of a list of waiting tasks schedules exactly those
      whose upstream tasks have all succeeded, and touches nothing else. */
  lemma {:induction false} ScheduleEachEffect(st: seq<Status>, up: seq<seq<nat>>, ds: seq<nat>)
    requires |up| == |st| && Bounded(up) && Within(ds, |st|) && NoDup(ds) && AllWaiting(st, ds)
    ensures forall j | 0 <= j < |st| ::
      ScheduleEach(st, up, ds)[j] == if j in ds && AllSucceeded(st, up[j]) then Scheduled else st[j]
    decreases |ds|
  {
    if ds != [] {
      var d := ds[0];
      assert Within(up[d], |st|);
      var st' := AfterTrySchedule(st, up[d], d);
      assert AllWaiting(st', ds[1..]);
      ScheduleEachEffect(st', up, ds[1..]);
      forall j | 0 <= j < |st| && j in ds[1..]
        ensures AllSucceeded(st', up[j]) == AllSucceeded(st, up[j])
      {
        assert Within(up[j], |st|);
        AllSucceededIgnoresScheduling(st, up[j], d);
      }
      forall j | 0 <= j < |st|
        ensures j in ds <==> j == d || j in ds[1..]
      {
        assert ds == [d] + ds[1..];
      }
    }
  }

  /** `try_to_schedule` on each of a list of waiting tasks keeps every admitted
      task's upstream tasks succeeded, starts nothing, and only turns waiting tasks
      into scheduled ones. */
  lemma ScheduleEachKeepsInvariants(st: seq<Status>, up: seq<seq<nat>>, ds: seq<nat>)
    requires |up| == |st| && Bounded(up) && Within(ds, |st|) && NoDup(ds) && AllWaiting(st, ds)
    requires UpstreamRespected(st, up)
    ensures var r := ScheduleEach(st, up, ds);
      && UpstreamRespected(r, up)
      && Count(r, Running) == Count(st, Running)
      && forall j | 0 <= j < |st| :: r[j] == st[j] || (st[j] == Waiting && r[j] == Scheduled)
  {
    var r := ScheduleEach(st, up, ds);
    ScheduleEachEffect(st, up, ds);
    forall x | 0 <= x < |st| && Admitted(r[x]) ensures AllSucceeded(r, up[x]) {
      assert Within(up[x], |st|);
      assert AllSucceeded(st, up[x]);
      forall k | 0 <= k < |up[x]| ensures r[up[x][k]] == Succeeded {
        assert st[up[x][k]] == Succeeded;
      }
    }
    CountSame(st, r, Running);
  }

  /** `succeed` marks the task succeeded and schedules exactly those downstream tasks
      whose upstream tasks have now all succeeded; no other task changes. */
  lemma SucceedEffect(st: seq<Status>, g: Adj, i: nat)
    requires Fits(st, g) && i < |st| && SucceedAllowed(st, g.down, i)
    ensures var st1 := st[i := Succeeded];
      forall j | 0 <= j < |st| ::
        AfterSucceed(st, g, i)[j] ==
          if j == i then Succeeded
          else if j in g.down[i] && AllSucceeded(st1, g.up[j]) then Scheduled
          else st[j]
  {
    assert Within(g.down[i], |st|);
    var st1 := st[i := Succeeded];
    ScheduleEachEffect(st1, g.up, g.down[i]);
    assert i !in g.down[i];
  }

  /** The status table after `fail` on task `i`: nothing when `i` has already failed,
      otherwise `i` is marked failed and `fail` runs on each downstream task in list
      order. Each call either returns at once or first raises the number of failed
      tasks, which bounds the recursion even on diamonds and cycles. */
  function CascadeFail(st: seq<Status>, down: seq<seq<nat>>, i: nat): (r: seq<Status>)
    requires |down| == |st| && Bounded(down) && i < |st|
    ensures |r| == |st| && r[i] == Failed
    ensures forall j | 0 <= j < |st| :: r[j] == st[j] || r[j] == Failed
    ensures Count(r, Failed) >= Count(st, Failed)
    decreases |st| - Count(st, Failed), 0, 0
  {
    if st[i] == Failed then st
    else
      CountUpdate(st, i, Failed, Failed);
      assert Within(down[i], |st|);
      CascadeFailAll(st[i := Failed], down, down[i])
  }

  /** `fail` on each task of `ds`, in order. */
  function CascadeFailAll(st: seq<Status>, down: seq<seq<nat>>, ds: seq<nat>): (r: seq<Status>)
    requires |down| == |st| && Bounded(down) && Within(ds, |st|)
    ensures |r| == |st|
    ensures forall j | 0 <= j < |st| :: r[j] == st[j] || r[j] == Failed
    ensures Count(r, Failed) >= Count(st, Failed)
    decreases |st| - Count(st, Failed), 1, |ds|
  {
    if ds == [] then st
    else CascadeFailAll(CascadeFail(st, down, ds[0]), down, ds[1..])
  }

  ghost function Elems(ds: seq<nat>): set<nat> {
    set d | d in ds
  }

  /** Every failed task's downstream tasks have failed as well, except those in `h`. */
  ghost predicate FailClosedBut(st: seq<Status>, down: seq<seq<nat>>, h: set<nat>)
    requires |down| == |st| && Bounded(down)
  {
    forall x | 0 <= x < |st| && st[x] == Failed ::
      forall k | 0 <= k < |down[x]| :: st[down[x][k]] == Failed || down[x][k] in h
  }

  /** Every failed task's downstream tasks have failed as well. */
  ghost predicate FailClosed(st: seq<Status>, down: seq<seq<nat>>)
    requires |down| == |st| && Bounded(down)
  {
    FailClosedBut(st, down, {})
  }

  /** `fail` on `i` closes the gap that `i` leaves in the failure closure. */
  lemma {:induction false} FailFillsGap(st: seq<Status>, down: seq<seq<nat>>, i: nat, h: set<nat>)
    requires |down| == |st| && Bounded(down) && i < |st|
    requires FailClosedBut(st, down, h + {i})
    ensures FailClosedBut(CascadeFail(st, down, i), down, h)
    decreases |st| - Count(st, Failed), 0, 0
  {
    if st[i] != Failed {
      CountUpdate(st, i, Failed, Failed);
      assert Within(down[i], |st|);
      var st1 := st[i := Failed];
      assert FailClosedBut(st1, down, h + Elems(down[i]));
      FailAllFillsGaps(st1, down, down[i], h);
    }
  }

  lemma {:induction false} FailAllFillsGaps(st: seq<Status>, down: seq<seq<nat>>, ds: seq<nat>, h: set<nat>)
    requires |down| == |st| && Bounded(down) && Within(ds, |st|)
    requires FailClosedBut(st, down, h + Elems(ds))
    ensures FailClosedBut(CascadeFailAll(st, down, ds), down, h)
    decreases |st| - Count(st, Failed), 1, |ds|
  {
    if ds != [] {
      assert h + Elems(ds) == (h + Elems(ds[1..])) + {ds[0]} by {
        assert ds == [ds[0]] + ds[1..];
      }
      FailFillsGap(st, down, ds[0], h + Elems(ds[1..]));
      FailAllFillsGaps(CascadeFail(st, down, ds[0]), down, ds[1..], h);
    }
  }

  /** `fail` on a task of a closed set changes nothing outside that set. */
  lemma {:induction false} FailStaysIn(st: seq<Status>, down: seq<seq<nat>>, i: nat, s: set<nat>)
    requires |down| == |st| && Bounded(down) && i < |st|
    requires Closed(down, s) && i in s
    ensures forall j | 0 <= j < |st| && j !in s :: CascadeFail(st, down, i)[j] == st[j]
    decreases |st| - Count(st, Failed), 0, 0
  {
    if st[i] != Failed {
      CountUpdate(st, i, Failed, Failed);
      assert Within(down[i], |st|);
      FailAllStaysIn(st[i := Failed], down, down[i], s);
    }
  }

  lemma {:induction false} FailAllStaysIn(st: seq<Status>, down: seq<seq<nat>>, ds: seq<nat>, s: set<nat>)
    requires |down| == |st| && Bounded(down) && Within(ds, |st|)
    requires Closed(down, s) && forall k | 0 <= k < |ds| :: ds[k] in s
    ensures forall j | 0 <= j < |st| && j !in s :: CascadeFailAll(st, down, ds)[j] == st[j]
    decreases |st| - Count(st, Failed), 1, |ds|
  {
    if ds != [] {
      FailStaysIn(st, down, ds[0], s);
      FailAllStaysIn(CascadeFail(st, down, ds[0]), down, ds[1..], s);
    }
  }

  /** On a table where failure is already closed downstream, `fail` on `i` leaves
      exactly `i` and the tasks reachable from it failed, leaves every other task as
      it was, and keeps failure closed. */
  lemma FailExact(st: seq<Status>, down: seq<seq<nat>>, i: nat)
    requires |down| == |st| && Bounded(down) && i < |st| && FailClosed(st, down)
    ensures FailClosed(CascadeFail(st, down, i), down)
    ensures forall j | 0 <= j < |st| ::
      CascadeFail(st, down, i)[j] == if Reachable(down, i, j) then Failed else st[j]
  {
    var r := CascadeFail(st, down, i);
    assert FailClosedBut(st, down, {} + {i});
    FailFillsGap(st, down, i, {});
    var reach := set j | 0 <= j < |st| && Reachable(down, i, j);
    forall v, w | v in reach && v < |down| && w in down[v] ensures w in reach {
      ReachableStep(down, i, v, w);
      assert Within(down[v], |st|);
    }
    ReachableRefl(down, i);
    FailStaysIn(st, down, i, reach);
    var failed := set j | 0 <= j < |st| && r[j] == Failed;
    forall v, w | v in failed && v < |down| && w in down[v] ensures w in failed {
      assert Within(down[v], |st|);
    }
    forall j | 0 <= j < |st| && Reachable(down, i, j) ensures r[j] == Failed {
      ClosedKeepsReachable(down, failed, i, j);
    }
  }

  /** On a table where failure is closed downstream: after `fail` on `i`, failing any
      task reachable from `i` again changes nothing. On other tables it can: `fail`
      stops at a task that has already failed, so a task beyond it stays unfailed. */
  lemma FailAbsorbs(st: seq<Status>, down: seq<seq<nat>>, i: nat, j: nat)
    requires |down| == |st| && Bounded(down) && i < |st| && j < |st| && FailClosed(st, down)
    requires Reachable(down, i, j)
    ensures CascadeFail(CascadeFail(st, down, i), down, j) == CascadeFail(st, down, i)
  {
    FailExact(st, down, i);
  }

  /** On a table where failure is closed downstream, the order in which two tasks fail
      does not matter. */
  lemma FailCommutes(st: seq<Status>, down: seq<seq<nat>>, a: nat, b: nat)
    requires |down| == |st| && Bounded(down) && a < |st| && b < |st| && FailClosed(st, down)
    ensures CascadeFail(CascadeFail(st, down, a), down, b) == CascadeFail(CascadeFail(st, down, b), down, a)
  {
    FailExact(st, down, a);
    FailExact(st, down, b);
    FailExact(CascadeFail(st, down, a), down, b);
    FailExact(CascadeFail(st, down, b), down, a);
  }

  /** On a table where failure is closed downstream, every task reachable from a
      failed task has failed. */
  lemma FailClosedReaches(st: seq<Status>, down: seq<seq<nat>>, a: nat, b: nat)
    requires |down| == |st| && Bounded(down) && FailClosed(st, down)
    requires a < |st| && st[a] == Failed && Reachable(down, a, b)
    ensures b < |st| && st[b] == Failed
  {
    var failed := set j | 0 <= j < |st| && st[j] == Failed;
    forall v, w | v in failed && v < |down| && w in down[v] ensures w in failed {
      assert Within(down[v], |st|);
    }
    ClosedKeepsReachable(down, failed, a, b);
  }

  /** Two tables in which the same tasks have failed. */
  ghost predicate SameFailed(st: seq<Status>, r: seq<Status>)
    requires |r| == |st|
  {
    forall j | 0 <= j < |st| :: r[j] == Failed <==> st[j] == Failed
  }

  /** Changes that neither fail a task nor revive a failed one keep failure closed. */
  lemma SameFailedKeepsClosed(st: seq<Status>, r: seq<Status>, down: seq<seq<nat>>)
    requires |down| == |st| && |r| == |st| && Bounded(down)
    requires FailClosed(st, down) && SameFailed(st, r)
    ensures FailClosed(r, down)
  {
    forall x, k | 0 <= x < |st| && r[x] == Failed && 0 <= k < |down[x]|
      ensures r[down[x][k]] == Failed
    {
      assert Within(down[x], |st|);
    }
  }

  /** Failing a task that has not succeeded keeps every admitted task's upstream
      tasks succeeded, and besides `i` itself it changes only waiting tasks: a
      downstream task of an unsucceeded task was never admitted. */
  lemma {:induction false} FailSparesAdmitted(st: seq<Status>, g: Adj, i: nat)
    requires Fits(st, g) && i < |st| && st[i] != Succeeded && UpstreamRespected(st, g.up)
    ensures UpstreamRespected(CascadeFail(st, g.down, i), g.up)
    ensures forall j | 0 <= j < |st| && j != i ::
      CascadeFail(st, g.down, i)[j] != st[j] ==> st[j] == Waiting
    decreases |st| - Count(st, Failed), 0, 0
  {
    if st[i] != Failed {
      CountUpdate(st, i, Failed, Failed);
      var st1 := st[i := Failed];
      var ds := g.down[i];
      assert Within(ds, |st|);
      forall x | 0 <= x < |st| && Admitted(st1[x]) ensures AllSucceeded(st1, g.up[x]) {
        assert Within(g.up[x], |st|);
        assert AllSucceeded(st, g.up[x]);
      }
      forall k | 0 <= k < |ds| ensures !Admitted(st1[ds[k]]) && st1[ds[k]] != Succeeded {
        assert Within(g.up[ds[k]], |st|);
        assert i in g.up[ds[k]];
      }
      FailAllSparesAdmitted(st1, g, ds);
    }
  }

  lemma {:induction false} FailAllSparesAdmitted(st: seq<Status>, g: Adj, ds: seq<nat>)
    requires Fits(st, g) && Within(ds, |st|) && UpstreamRespected(st, g.up)
    requires forall k | 0 <= k < |ds| :: !Admitted(st[ds[k]])
    ensures UpstreamRespected(CascadeFailAll(st, g.down, ds), g.up)
    ensures forall j | 0 <= j < |st| ::
      CascadeFailAll(st, g.down, ds)[j] != st[j] ==> st[j] == Waiting
    decreases |st| - Count(st, Failed), 1, |ds|
  {
    if ds != [] {
      var st' := CascadeFail(st, g.down, ds[0]);
      FailSparesAdmitted(st, g, ds[0]);
      assert forall k | 0 <= k < |ds[1..]| :: !Admitted(st'[ds[1..][k]]) by {
        forall k | 0 <= k < |ds[1..]| ensures !Admitted(st'[ds[1..][k]]) {
          assert ds[1..][k] == ds[k + 1];
        }
      }
      FailAllSparesAdmitted(st', g, ds[1..]);
    }
  }

  /** The status table and counter delta after `update_status(runnable)` on task `i`,
      where the backend answers `poll` if asked. */
  function Update(st: seq<Status>, g: Adj, i: nat, runnable: bool, poll: Poll): (r: (seq<Status>, int))
    requires Fits(st, g) && i < |st|
    requires st[i] == Running && poll.done && poll.ok ==> SucceedAllowed(st, g.down, i)
    ensures |r.0| == |st|
  {
    assert Within(g.down[i], |st|);
    match st[i]
    case Scheduled => if runnable then (st[i := Running], 1) else (st, 0)
    case Running =>
      if !poll.done then (st, 0)
      else if poll.ok then (AfterSucceed(st, g, i), -1)
      else (CascadeFail(st, g.down, i), -1)
    case _ => (st, 0)
  }

  /** The result of `update_status` is 1 exactly when a scheduled task is started, -1
      exactly when a running task finishes, and 0 otherwise; a started task becomes
      running, a finished one succeeded or failed as its backend says, and a result of
      0 leaves the table as it was. */
  lemma UpdateDelta(st: seq<Status>, g: Adj, i: nat, runnable: bool, poll: Poll)
    requires Fits(st, g) && i < |st|
    requires st[i] == Running && poll.done && poll.ok ==> SucceedAllowed(st, g.down, i)
    ensures var (r, delta) := Update(st, g, i, runnable, poll);
      && (delta == 1 <==> st[i] == Scheduled && runnable)
      && (delta == -1 <==> st[i] == Running && poll.done)
      && (delta == 1 ==> r == st[i := Running])
      && (delta == -1 ==> r[i] == if poll.ok then Succeeded else Failed)
      && (delta == 0 ==> r == st)
  {
    if st[i] == Running && poll.done && poll.ok {
      SucceedEffect(st, g, i);
    }
  }

  /** Succeeding a running task keeps every admitted task's upstream tasks succeeded,
      lowers the number of running tasks by one and changes no finished task. */
  lemma SucceedKeepsInvariants(st: seq<Status>, g: Adj, i: nat)
    requires Fits(st, g) && i < |st| && st[i] == Running && UpstreamRespected(st, g.up)
    requires SucceedAllowed(st, g.down, i)
    ensures var r := AfterSucceed(st, g, i);
      && UpstreamRespected(r, g.up)
      && Count(r, Running) == Count(st, Running) - 1
      && forall j | 0 <= j < |st| && !Pending(st[j]) :: r[j] == st[j]
  {
    var st1 := st[i := Succeeded];
    assert Within(g.down[i], |st|);
    forall x | 0 <= x < |st| && Admitted(st1[x]) ensures AllSucceeded(st1, g.up[x]) {
      assert Within(g.up[x], |st|);
      assert AllSucceeded(st, g.up[x]);
    }
    ScheduleEachKeepsInvariants(st1, g.up, g.down[i]);
    CountUpdate(st, i, Succeeded, Running);
  }

  /** Failing a running task, while every admitted task's upstream tasks have
      succeeded, lowers the number of running tasks by exactly one and changes no
      finished task. */
  lemma FailKeepsInvariants(st: seq<Status>, g: Adj, i: nat)
    requires Fits(st, g) && i < |st| && st[i] == Running && UpstreamRespected(st, g.up)
    ensures var r := CascadeFail(st, g.down, i);
      && UpstreamRespected(r, g.up)
      && Count(r, Running) == Count(st, Running) - 1
      && forall j | 0 <= j < |st| && !Pending(st[j]) :: r[j] == st[j]
  {
    var r := CascadeFail(st, g.down, i);
    FailSparesAdmitted(st, g, i);
    CountUpdate(st, i, Failed, Running);
    CountSame(st[i := Failed], r, Running);
  }

  /** Starting a scheduled task keeps every admitted task's upstream tasks succeeded
      and raises the number of running tasks by one. */
  lemma StartKeepsInvariants(st: seq<Status>, g: Adj, i: nat)
    requires Fits(st, g) && i < |st| && st[i] == Scheduled && UpstreamRespected(st, g.up)
    ensures UpstreamRespected(st[i := Running], g.up)
    ensures Count(st[i := Running], Running) == Count(st, Running) + 1
  {
    var r := st[i := Running];
    CountUpdate(st, i, Running, Running);
    forall x | 0 <= x < |st| && Admitted(r[x]) ensures AllSucceeded(r, g.up[x]) {
      assert Within(g.up[x], |st|);
      assert AllSucceeded(st, g.up[x]);
    }
  }

  /** `update_status` keeps every admitted task's upstream tasks succeeded, its delta
      is the change in the number of running tasks, it only starts a task when told
      it may, and it never changes a finished task. */
  lemma UpdateKeepsInvariants(st: seq<Status>, g: Adj, i: nat, runnable: bool, poll: Poll)
    requires Fits(st, g) && i < |st| && UpstreamRespected(st, g.up)
    requires st[i] == Running && poll.done && poll.ok ==> SucceedAllowed(st, g.down, i)
    ensures var (r, delta) := Update(st, g, i, runnable, poll);
      && UpstreamRespected(r, g.up)
      && Count(r, Running) == Count(st, Running) + delta
      && (delta == 1 ==> runnable)
      && forall j | 0 <= j < |st| && !Pending(st[j]) :: r[j] == st[j]
  {
    var (r, delta) := Update(st, g, i, runnable, poll);
    match st[i]
    case Scheduled =>
      if runnable {
        StartKeepsInvariants(st, g, i);
      }
    case Running =>
      if poll.done && poll.ok {
        SucceedKeepsInvariants(st, g, i);
      } else if poll.done {
        FailKeepsInvariants(st, g, i);
      }
    case _ =>
  }

  /** `update_status` keeps failure closed downstream: a start or a success fails
      nothing and revives no failed task, and a failure cascades to every task
      reachable from the failed one. */
  lemma UpdateKeepsFailClosed(st: seq<Status>, g: Adj, i: nat, runnable: bool, poll: Poll)
    requires Fits(st, g) && i < |st| && FailClosed(st, g.down)
    requires st[i] == Running && poll.done && poll.ok ==> SucceedAllowed(st, g.down, i)
    ensures FailClosed(Update(st, g, i, runnable, poll).0, g.down)
  {
    var r := Update(st, g, i, runnable, poll).0;
    if st[i] == Scheduled && runnable {
      SameFailedKeepsClosed(st, r, g.down);
    } else if st[i] == Running && poll.done && poll.ok {
      SucceedEffect(st, g, i);
      assert Within(g.down[i], |st|);
      SameFailedKeepsClosed(st, r, g.down);
    } else if st[i] == Running && poll.done {
      FailExact(st, g.down, i);
    }
  }

  /** While every admitted task's upstream tasks have succeeded, the assertion that
      `succeed` on a running task can trip fails exactly when one of its downstream
      tasks has already failed. */
  lemma SucceedBlockedIffDownstreamFailed(st: seq<Status>, g: Adj, i: nat)
    requires Fits(st, g) && i < |st| && st[i] == Running && UpstreamRespected(st, g.up)
    ensures !SucceedAllowed(st, g.down, i) <==>
      exists k | 0 <= k < |g.down[i]| :: st[g.down[i][k]] == Failed
  {
    assert Within(g.down[i], |st|);
    forall k | 0 <= k < |g.down[i]| ensures g.down[i][k] != i && !Admitted(st[g.down[i][k]]) {
      var d := g.down[i][k];
      assert i in g.up[d];
      assert Within(g.up[d], |st|);
    }
  }
}
