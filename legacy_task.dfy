/** The older task class of psyched/task.py, kept beside the package version. Its
    `update_status` returns a pair (change of running tasks, change of pending
    tasks), its `schedule` fails a task locally when it meets a failed upstream task,
    the backend is a container answering with an exit code, and `succeed`/`fail`
    change only the task itself. As in the package version, tasks are indices into
    one table. */
module LegacyTask {
  import opened Graph
  import opened TaskSpec
  import opened Wrappers

  /** What the container reports when asked: whether it has stopped, and the exit
      status `wait()` returns. */
  datatype Exit = Exit(stopped: bool, code: int)

  /** Tasks still waiting, scheduled or running. */
  function PendingCount(st: seq<Status>): nat {
    Count(st, Waiting) + Count(st, Scheduled) + Count(st, Running)
  }

  /** The position in `ups` where the scan of `schedule` stops: the first upstream
      task that has not succeeded, or `|ups|` when all have. */
  function Blocker(st: seq<Status>, ups: seq<nat>): (b: nat)
    requires Within(ups, |st|)
    ensures b <= |ups|
    ensures forall k | 0 <= k < b :: st[ups[k]] == Succeeded
    ensures b < |ups| ==> st[ups[b]] != Succeeded
  {
    if ups == [] then 0
    else if st[ups[0]] != Succeeded then 0
    else
      var b := 1 + Blocker(st, ups[1..]);
      assert forall k | 1 <= k < b :: ups[k] == ups[1..][k - 1];
      b
  }

  /** A position before which every upstream task has succeeded and at which one has
      not (or the end) is where the scan stops. */
  lemma {:induction false} BlockerAt(st: seq<Status>, ups: seq<nat>, k: nat)
    requires Within(ups, |st|) && k <= |ups|
    requires forall m | 0 <= m < k :: st[ups[m]] == Succeeded
    requires k < |ups| ==> st[ups[k]] != Succeeded
    ensures Blocker(st, ups) == k
  {
    if ups != [] && k > 0 {
      forall m | 0 <= m < k - 1 ensures st[ups[1..][m]] == Succeeded {
        assert ups[1..][m] == ups[m + 1];
      }
      BlockerAt(st, ups[1..], k - 1);
    }
  }

  /** `schedule` on a waiting task `i` with upstream list `ups`: scheduled when every
      upstream task has succeeded; failed when the first one that has not succeeded
      has failed; otherwise unchanged. The flag is the method's result. */
  function ScheduleResult(st: seq<Status>, ups: seq<nat>, i: nat): (seq<Status>, bool)
    requires i < |st| && Within(ups, |st|)
  {
    var b := Blocker(st, ups);
    if b == |ups| then (st[i := Scheduled], true)
    else if st[ups[b]] == Failed then (st[i := Failed], true)
    else (st, false)
  }

  /** `schedule` changes only the task itself. It is scheduled exactly when all its
      upstream tasks have succeeded, failed exactly when, scanning in list order, the
      first upstream task that has not succeeded has failed, and left waiting with a
      false result exactly when that task is still pending. */
  lemma ScheduleOutcome(st: seq<Status>, ups: seq<nat>, i: nat)
    requires i < |st| && st[i] == Waiting && Within(ups, |st|)
    ensures var (r, ok) := ScheduleResult(st, ups, i);
      && |r| == |st|
      && (forall j | 0 <= j < |st| && j != i :: r[j] == st[j])
      && (r[i] == Scheduled <==> AllSucceeded(st, ups))
      && (r[i] == Failed <==>
            exists k | 0 <= k < |ups| :: st[ups[k]] == Failed && forall m | 0 <= m < k :: st[ups[m]] == Succeeded)
      && (!ok <==>
            exists k | 0 <= k < |ups| :: Pending(st[ups[k]]) && forall m | 0 <= m < k :: st[ups[m]] == Succeeded)
      && (ok <==> r[i] != Waiting)
      && (!ok ==> r == st)
  {
    var b := Blocker(st, ups);
    forall k | 0 <= k < |ups| && forall m | 0 <= m < k :: st[ups[m]] == Succeeded
      ensures st[ups[k]] != Succeeded ==> k == b
    {
      if st[ups[k]] != Succeeded {
        BlockerAt(st, ups, k);
      }
    }
    if b < |ups| {
      assert !AllSucceeded(st, ups);
    }
  }

  /** `update_status(runnable)`: the new table and the pair (change of running tasks,
      change of pending tasks). A waiting task runs `schedule`; a scheduled one starts
      when `runnable`; a running one whose container has stopped succeeds on exit
      status 0 and fails otherwise. */
  function LegacyUpdate(st: seq<Status>, ups: seq<nat>, i: nat, runnable: bool, exit: Exit): (seq<Status>, (int, int))
    requires i < |st| && Within(ups, |st|)
  {
    match st[i]
    case Waiting =>
      var (r, ok) := ScheduleResult(st, ups, i);
      if ok && r[i] == Failed then (r, (0, -1)) else (r, (0, 0))
    case Scheduled => if runnable then (st[i := Running], (1, 0)) else (st, (0, 0))
    case Running =>
      if exit.stopped then (st[i := if exit.code == 0 then Succeeded else Failed], (-1, -1))
      else (st, (0, 0))
    case _ => (st, (0, 0))
  }

  /** Changing one status changes the pending count by whether the old and the new
      status are pending. */
  lemma PendingCountUpdate(st: seq<Status>, j: nat, v: Status)
    requires j < |st|
    ensures PendingCount(st[j := v]) == PendingCount(st) - (if Pending(st[j]) then 1 else 0) + (if Pending(v) then 1 else 0)
  {
    CountUpdate(st, j, v, Waiting);
    CountUpdate(st, j, v, Scheduled);
    CountUpdate(st, j, v, Running);
  }

  /** The pair `update_status` returns is exactly the change in the number of running
      tasks and in the number of pending tasks, so counters kept from it stay exact;
      and the call changes no task but its own. */
  lemma UpdateCounts(st: seq<Status>, ups: seq<nat>, i: nat, runnable: bool, exit: Exit)
    requires i < |st| && Within(ups, |st|)
    ensures var u := LegacyUpdate(st, ups, i, runnable, exit);
      && |u.0| == |st|
      && (forall j | 0 <= j < |st| && j != i :: u.0[j] == st[j])
      && u.1.0 == Count(u.0, Running) - Count(st, Running)
      && u.1.1 == PendingCount(u.0) - PendingCount(st)
  {
    var u := LegacyUpdate(st, ups, i, runnable, exit);
    if st[i] == Waiting {
      ScheduleOutcome(st, ups, i);
    }
    assert u.0 == st[i := u.0[i]];
    CountUpdate(st, i, u.0[i], Running);
    PendingCountUpdate(st, i, u.0[i]);
  }

  /** The cases of `update_status`: (0, -1) exactly when scheduling failed a waiting
      task; (1, 0) exactly when a scheduled task started; (-1, -1) exactly when a
      running task's container had stopped, the task then succeeded exactly on exit
      status 0; and (0, 0) otherwise, with the task unchanged or newly scheduled. */
  lemma UpdateCases(st: seq<Status>, ups: seq<nat>, i: nat, runnable: bool, exit: Exit)
    requires i < |st| && Within(ups, |st|)
    ensures var (r, d) := LegacyUpdate(st, ups, i, runnable, exit);
      && (d == (0, -1) <==> st[i] == Waiting && r[i] == Failed)
      && (d == (1, 0) <==> st[i] == Scheduled && runnable)
      && (d == (1, 0) ==> r[i] == Running)
      && (d == (-1, -1) <==> st[i] == Running && exit.stopped)
      && (d == (-1, -1) ==> (r[i] == Succeeded <==> exit.code == 0) && (r[i] == Failed <==> exit.code != 0))
      && (d == (0, 0) ==> r[i] == st[i] || (st[i] == Waiting && r[i] == Scheduled))
  {
    if st[i] == Waiting {
      ScheduleOutcome(st, ups, i);
    }
  }

  /** `get_color`: the colour the graph drawing gives each status. */
  function Color(s: Status): (c: string)
    ensures |c| == 7 && c[0] == '#'
    ensures forall k | 1 <= k < 7 :: c[k] in "0123456789abcdef"
  {
    match s
    case Waiting => "#dbdbdb"
    case Scheduled => "#bde4ff"
    case Running => "#80b7ff"
    case Succeeded => "#c1ffab"
    case Failed => "#ffabab"
  }

  /** Every status has its own colour. */
  lemma ColorsDistinct(s: Status, t: Status)
    ensures Color(s) == Color(t) <==> s == t
  {
    if s != t {
      assert Color(s)[1..3] != Color(t)[1..3] || Color(s)[3..] != Color(t)[3..];
    }
  }

  class LegacyTable {
    var name: seq<string>
    var status: seq<Status>
    var upstream: seq<seq<nat>>
    var downstream: seq<seq<nat>>

    /** All fields describe the same tasks and the adjacency lists mirror each other
        without duplicates. */
    ghost predicate Valid()
      reads this`name, this`status, this`upstream, this`downstream
    {
      && |name| == |status| == |downstream|
      && WellFormed(Adj(upstream, downstream))
    }

    function Edges(): Adj
      reads this`upstream, this`downstream
    {
      Adj(upstream, downstream)
    }

    /** A table with no tasks. */
    constructor ()
      ensures Valid() && name == [] && status == [] && upstream == [] && downstream == []
    {
      name, status, upstream, downstream := [], [], [], [];
    }

    /** `Task(name, image, command)`: a new task, waiting, with no upstream and no
        downstream tasks and no container yet. */
    method NewTask(n: string) returns (i: nat)
      requires Valid()
      modifies this
      ensures Valid()
      ensures i == old(|status|)
      ensures name == old(name) + [n] && status == old(status) + [Waiting]
      ensures upstream == old(upstream) + [[]] && downstream == old(downstream) + [[]]
    {
      i := |status|;
      name, status := name + [n], status + [Waiting];
      upstream, downstream := upstream + [[]], downstream + [[]];
      forall a, b | 0 <= a <= i && 0 <= b <= i
        ensures b in downstream[a] <==> a in upstream[b]
      {
        if a < i && b < i {
          assert downstream[a] == old(downstream[a]) && upstream[b] == old(upstream[b]);
        }
      }
    }

    /** `schedule` on a waiting task: the `for ... else` scan of the upstream list. */
    method Schedule(i: nat) returns (ok: bool)
      requires Valid() && i < |status| && status[i] == Waiting
      modifies this`status
      ensures Valid()
      ensures (status, ok) == ScheduleResult(old(status), upstream[i], i)
    {
      assert Within(upstream[i], |status|);
      var ups := upstream[i];
      var k := 0;
      while k < |ups|
        invariant k <= |ups| && status == old(status)
        invariant forall m | 0 <= m < k :: status[ups[m]] == Succeeded
      {
        if status[ups[k]] != Succeeded {
          BlockerAt(status, ups, k);
          if status[ups[k]] == Failed {
            var _ := Fail(i);
            return true;
          }
          return false;
        }
        k := k + 1;
      }
      BlockerAt(status, ups, k);
      status := status[i := Scheduled];
      return true;
    }

    /** `run`: the container starts the command of a scheduled task, which becomes
        running. */
    method Run(i: nat) returns (started: bool)
      requires i < |status| && status[i] == Scheduled
      modifies this`status
      ensures started && status == old(status)[i := Running]
    {
      status := status[i := Running];
      return true;
    }

    /** `finish`: once the container has stopped the task succeeds on exit status 0
        and fails otherwise; the result says whether it had stopped. */
    method Finish(i: nat, exit: Exit) returns (finished: bool)
      requires i < |status| && status[i] == Running
      modifies this`status
      ensures finished == exit.stopped
      ensures status == if !exit.stopped then old(status)
                        else old(status)[i := if exit.code == 0 then Succeeded else Failed]
    {
      if !exit.stopped {
        return false;
      }
      if exit.code == 0 {
        var _ := Succeed(i);
      } else {
        var _ := Fail(i);
      }
      return true;
    }

    /** `succeed`: only the task itself is marked; nothing downstream changes. */
    method Succeed(i: nat) returns (b: bool)
      requires i < |status|
      modifies this`status
      ensures b && status == old(status)[i := Succeeded]
    {
      status := status[i := Succeeded];
      return true;
    }

    /** `fail`: only the task itself is marked; nothing downstream changes. */
    method Fail(i: nat) returns (b: bool)
      requires i < |status|
      modifies this`status
      ensures b && status == old(status)[i := Failed]
    {
      status := status[i := Failed];
      return true;
    }

    /** `update_status(runnable)`: dispatch on the task's status. */
    method UpdateStatus(i: nat, runnable: bool, exit: Exit) returns (dRunning: int, dPending: int)
      requires Valid() && i < |status|
      modifies this`status
      ensures Valid()
      ensures (status, (dRunning, dPending)) == LegacyUpdate(old(status), upstream[i], i, runnable, exit)
    {
      assert Within(upstream[i], |status|);
      if status[i] == Waiting {
        var ok := Schedule(i);
        if ok {
          if status[i] == Failed {
            return 0, -1;
          }
          return 0, 0;
        }
        return 0, 0;
      } else if status[i] == Scheduled {
        if runnable {
          var _ := Run(i);
          return 1, 0;
        }
        return 0, 0;
      } else if status[i] == Running {
        var finished := Finish(i, exit);
        if finished {
          return -1, -1;
        }
        return 0, 0;
      }
      return 0, 0;
    }

    /** How many halves of the edge `a -> b` are still missing. */
    function EdgeGap(a: nat, b: nat): nat
      requires a < |downstream| && b < |upstream|
      reads this
    {
      (if b in downstream[a] then 0 else 1) + (if a in upstream[b] then 0 else 1)
    }

    /** `a.set_downstream(b)`: appends `b` to `a.downstream` when missing, and then
        calls `b.set_upstream(a)`. */
    method SetDownstream(a: nat, b: nat)
      requires |upstream| == |downstream| && a < |downstream| && b < |downstream|
      modifies this`upstream, this`downstream
      ensures Edges() == Link(old(Edges()), a, b)
      decreases EdgeGap(a, b)
    {
      if b !in downstream[a] {
        downstream := downstream[a := downstream[a] + [b]];
        SetUpstream(b, a);
      }
    }

    /** `a.set_upstream(b)`: appends `b` to `a.upstream` when missing, and then calls
        `b.set_downstream(a)`. */
    method SetUpstream(a: nat, b: nat)
      requires |upstream| == |downstream| && a < |downstream| && b < |downstream|
      modifies this`upstream, this`downstream
      ensures Edges() == LinkUp(old(Edges()), a, b)
      decreases EdgeGap(b, a)
    {
      if b !in upstream[a] {
        upstream := upstream[a := upstream[a] + [b]];
        SetDownstream(b, a);
      }
    }

    /** `task >> other`: links every task `other` names downstream of `task`, depth
        first and in list order, and returns `other`; a value of another type raises
        `TypeError`, after the links made before it. Cycles are accepted. */
    method RShift(i: nat, op: Operand) returns (r: Result<Operand>)
      requires Valid() && i < |status| && Names(op, |status|)
      modifies this`upstream, this`downstream
      ensures Valid()
      ensures Within(Targets(op).0, |status|) && Edges() == LinkAll(old(Edges()), i, Targets(op).0)
      ensures r == if Targets(op).1 then Ok(op) else Err(TypeError)
      decreases op, 1
    {
      match op
      case Single(t) =>
        SetDownstream(i, t);
        LinkKeepsWellFormed(old(Edges()), i, t);
        assert [t][..0] == [];
        return Ok(op);
      case Other =>
        return Err(TypeError);
      case List(items) =>
        r := RShiftEach(i, items);
    }

    /** `>>` on each item of a list operand in order, stopping at the first error. */
    method RShiftEach(i: nat, items: seq<Operand>) returns (r: Result<Operand>)
      requires Valid() && i < |status| && Names(List(items), |status|)
      modifies this`upstream, this`downstream
      ensures Valid()
      ensures Within(Targets(List(items)).0, |status|)
      ensures Edges() == LinkAll(old(Edges()), i, Targets(List(items)).0)
      ensures r == if Targets(List(items)).1 then Ok(List(items)) else Err(TypeError)
      decreases List(items), 0
    {
      var parts := seq(|items|, k requires 0 <= k < |items| => Targets(items[k]));
      var n := |status|;
      forall k | 0 <= k < |items| ensures Within(parts[k].0, n) {
        TargetsWithin(items[k], n);
      }
      var k := 0;
      while k < |items|
        invariant k <= |items| && Valid() && |status| == |downstream| == n
        invariant Join(parts[..k]).1 && Within(Join(parts[..k]).0, n)
        invariant Edges() == LinkAll(old(Edges()), i, Join(parts[..k]).0)
      {
        JoinSnoc(parts, k);
        JoinWithin(parts[..k + 1], n);
        var rk := RShift(i, items[k]);
        LinkAllConcat(old(Edges()), i, Join(parts[..k]).0, parts[k].0);
        if rk.Err? {
          JoinStops(parts, k + 1);
          return Err(TypeError);
        }
        k := k + 1;
      }
      assert parts[..k] == parts;
      return Ok(List(items));
    }

    /** `task << other`: links every task `other` names upstream of `task`, in the same
        order as `>>`, with the same result. */
    method LShift(i: nat, op: Operand) returns (r: Result<Operand>)
      requires Valid() && i < |status| && Names(op, |status|)
      modifies this`upstream, this`downstream
      ensures Valid()
      ensures Within(Targets(op).0, |status|) && Edges() == LinkUpAll(old(Edges()), i, Targets(op).0)
      ensures r == if Targets(op).1 then Ok(op) else Err(TypeError)
      decreases op, 1
    {
      match op
      case Single(t) =>
        SetUpstream(i, t);
        LinkUpIsLink(old(Edges()), i, t);
        LinkKeepsWellFormed(old(Edges()), t, i);
        assert [t][..0] == [];
        return Ok(op);
      case Other =>
        return Err(TypeError);
      case List(items) =>
        r := LShiftEach(i, items);
    }

    /** `<<` on each item of a list operand in order, stopping at the first error. */
    method LShiftEach(i: nat, items: seq<Operand>) returns (r: Result<Operand>)
      requires Valid() && i < |status| && Names(List(items), |status|)
      modifies this`upstream, this`downstream
      ensures Valid()
      ensures Within(Targets(List(items)).0, |status|)
      ensures Edges() == LinkUpAll(old(Edges()), i, Targets(List(items)).0)
      ensures r == if Targets(List(items)).1 then Ok(List(items)) else Err(TypeError)
      decreases List(items), 0
    {
      var parts := seq(|items|, k requires 0 <= k < |items| => Targets(items[k]));
      var n := |status|;
      forall k | 0 <= k < |items| ensures Within(parts[k].0, n) {
        TargetsWithin(items[k], n);
      }
      var k := 0;
      while k < |items|
        invariant k <= |items| && Valid() && |status| == |downstream| == n
        invariant Join(parts[..k]).1 && Within(Join(parts[..k]).0, n)
        invariant Edges() == LinkUpAll(old(Edges()), i, Join(parts[..k]).0)
      {
        JoinSnoc(parts, k);
        JoinWithin(parts[..k + 1], n);
        var rk := LShift(i, items[k]);
        LinkUpAllConcat(old(Edges()), i, Join(parts[..k]).0, parts[k].0);
        if rk.Err? {
          JoinStops(parts, k + 1);
          return Err(TypeError);
        }
        k := k + 1;
      }
      assert parts[..k] == parts;
      return Ok(List(items));
    }

    /** `other >> task` with a list on the left: `task << other`, returning `task`. */
    method RRShift(i: nat, op: Operand) returns (r: Result<nat>)
      requires Valid() && i < |status| && Names(op, |status|)
      modifies this`upstream, this`downstream
      ensures Valid()
      ensures Within(Targets(op).0, |status|) && Edges() == LinkUpAll(old(Edges()), i, Targets(op).0)
      ensures r == if Targets(op).1 then Ok(i) else Err(TypeError)
    {
      var l := LShift(i, op);
      if l.Err? {
        return Err(l.error);
      }
      return Ok(i);
    }

    /** `other << task` with a list on the left: `task >> other`, returning `task`. */
    method RLShift(i: nat, op: Operand) returns (r: Result<nat>)
      requires Valid() && i < |status| && Names(op, |status|)
      modifies this`upstream, this`downstream
      ensures Valid()
      ensures Within(Targets(op).0, |status|) && Edges() == LinkAll(old(Edges()), i, Targets(op).0)
      ensures r == if Targets(op).1 then Ok(i) else Err(TypeError)
    {
      var l := RShift(i, op);
      if l.Err? {
        return Err(l.error);
      }
      return Ok(i);
    }

  }
}
