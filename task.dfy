/** The task objects of psyched/task/task.py. Every task is an index into one table
    whose parallel fields hold each task's name, status and adjacency lists, so that
    a method of `Task` on task `i` becomes a method of the table taking `i`. */
module Task {
  import opened Graph
  import opened TaskSpec
  import opened Wrappers

  /** The elements of `ds` that are in neither `visited` nor `pending`, in order: the
      list comprehension of `check_cycles`. */
  function Unseen(ds: seq<nat>, visited: seq<nat>, pending: seq<nat>): (r: seq<nat>)
    ensures forall x :: x in r <==> x in ds && x !in visited && x !in pending
    ensures NoDup(ds) ==> NoDup(r)
  {
    if ds == [] then []
    else
      var rest := Unseen(ds[1..], visited, pending);
      assert forall x :: x in ds <==> x == ds[0] || x in ds[1..] by {
        assert ds == [ds[0]] + ds[1..];
      }
      if ds[0] !in visited && ds[0] !in pending then [ds[0]] + rest else rest
  }

  /** Task `x` can be reached from a downstream task of `i`. */
  ghost predicate FromDown(down: seq<seq<nat>>, i: nat, x: nat)
    requires i < |down|
  {
    exists d :: d in down[i] && Reachable(down, d, x)
  }

  /** The state of the walk of `check_cycles` from task `i`: the `visited` and
      `pending` lists are disjoint, `i` has not been visited, everything in them can
      be reached from a downstream task of `i`, and together they hold the downstream
      tasks of `i` and of every visited task. */
  ghost predicate Walk(down: seq<seq<nat>>, i: nat, visited: seq<nat>, pending: seq<nat>)
    requires i < |down|
  {
    && Within(visited, |down|) && Within(pending, |down|)
    && NoDup(pending)
    && (forall x | x in pending :: x !in visited)
    && i !in visited
    && (forall x | x in visited || x in pending :: FromDown(down, i, x))
    && (forall x | x in down[i] :: x in visited || x in pending)
    && (forall v, w | v in visited && w in down[v] :: w in visited || w in pending)
  }

  lemma WalkStart(down: seq<seq<nat>>, i: nat)
    requires Bounded(down) && i < |down| && forall a | 0 <= a < |down| :: NoDup(down[a])
    ensures Walk(down, i, [], down[i])
  {
    assert Within(down[i], |down|);
    forall x | x in down[i] ensures FromDown(down, i, x) {
      ReachableRefl(down, x);
    }
  }

  /** Visiting the first pending task, when it is not `i`, keeps the walk's state. */
  lemma WalkStep(down: seq<seq<nat>>, i: nat, visited: seq<nat>, pending: seq<nat>)
    requires Bounded(down) && i < |down| && forall a | 0 <= a < |down| :: NoDup(down[a])
    requires Walk(down, i, visited, pending) && pending != [] && pending[0] != i
    ensures var task := pending[0];
      Walk(down, i, visited + [task], pending[1..] + Unseen(down[task], visited + [task], pending))
  {
    var task := pending[0];
    var visited' := visited + [task];
    assert Within(down[task], |down|);
    var found := Unseen(down[task], visited', pending);
    var pending' := pending[1..] + found;
    assert forall x :: x in pending <==> x == task || x in pending[1..] by {
      assert pending == [task] + pending[1..];
    }
    assert forall x :: x in pending' <==> x in pending[1..] || x in found;
    assert forall x :: x in visited' <==> x in visited || x == task;
    WithinMembers(found, down[task], |down|);
    WithinMembers(pending', pending + found, |down|);
    WithinMembers(visited', visited + pending, |down|);
    NoDupConcat(pending[1..], found);
    assert forall x | x in pending' :: x !in visited';
    forall w | w in found ensures FromDown(down, i, w) {
      assert FromDown(down, i, task);
      var d :| d in down[i] && Reachable(down, d, task);
      ReachableStep(down, d, task, w);
    }
    assert forall v, w | v in visited' && w in down[v] :: w in visited' || w in pending';
  }

  /** Each visit removes one task from those not yet visited. */
  lemma WalkShrinks(down: seq<seq<nat>>, i: nat, visited: seq<nat>, pending: seq<nat>)
    requires i < |down| && Walk(down, i, visited, pending) && pending != []
    ensures (set x | 0 <= x < |down| && x !in visited + [pending[0]]) < (set x | 0 <= x < |down| && x !in visited)
  {
    var t := pending[0];
    assert t in pending && t < |down|;
    assert (set x | 0 <= x < |down| && x !in visited + [t]) == (set x | 0 <= x < |down| && x !in visited) - {t};
  }

  /** Meeting `i` again shows that `i` lies on a cycle. */
  lemma WalkMeets(down: seq<seq<nat>>, i: nat, visited: seq<nat>, pending: seq<nat>)
    requires i < |down| && Walk(down, i, visited, pending) && pending != [] && pending[0] == i
    ensures OnCycle(down, i)
  {
    assert FromDown(down, i, pending[0]);
  }

  /** A walk with nothing left pending has not met `i`: `i` is on no cycle. */
  lemma WalkDone(down: seq<seq<nat>>, i: nat, visited: seq<nat>)
    requires Bounded(down) && i < |down| && Walk(down, i, visited, [])
    ensures !OnCycle(down, i)
  {
    var seen := set x | x in visited;
    if OnCycle(down, i) {
      var d :| d in down[i] && Reachable(down, d, i);
      ClosedKeepsReachable(down, seen, d, i);
      assert false;
    }
  }

  /** Nothing in `>>` rejects a cycle: for two fresh tasks, `t1 >> t2` followed by
      `t2 >> t1` declares both edges, both calls name only tasks (so `RShift` returns
      its operand), and `t1` then lies on a cycle. The `check_cycles` call written
      after `return` would have raised `RuntimeError` here. */
  lemma CycleAccepted()
    ensures var g := LinkAll(LinkAll(Adj([[], []], [[], []]), 0, [1]), 1, [0]);
      && Targets(Single(1)) == ([1], true) && Targets(Single(0)) == ([0], true)
      && g == Adj([[1], [0]], [[1], [0]])
      && OnCycle(g.down, 0)
  {
    var u := Adj([[], []], [[], []]);
    assert [1][..0] == [] && [0][..0] == [];
    var g1 := Adj([[], [0]], [[1], []]);
    assert u.up[1] + [0] == [0] && u.down[0] + [1] == [1];
    assert u.up[1 := [0]] == g1.up && u.down[0 := [1]] == g1.down;
    assert LinkAll(u, 0, [1]) == Link(u, 0, 1) == g1;
    var g := Adj([[1], [0]], [[1], [0]]);
    assert g1.up[0] + [1] == [1] && g1.down[1] + [0] == [0];
    assert g1.up[0 := [1]] == g.up && g1.down[1 := [0]] == g.down;
    assert LinkAll(g1, 1, [0]) == Link(g1, 1, 0) == g;
    assert IsPath(g.down, [1, 0]);
    assert Reachable(g.down, 1, 0);
  }

  class TaskTable {
    var name: seq<string>
    var status: seq<Status>
    var upstream: seq<seq<nat>>
    var downstream: seq<seq<nat>>

    /** All fields describe the same tasks and the adjacency lists mirror each other
        without duplicates. */
    ghost predicate Valid()
      reads this`name, this`status, this`upstream, this`downstream
    {
      && |name| == |status| == |downstream|
      && WellFormed(Adj(upstream, downstream))
    }

    function Edges(): Adj
      reads this`upstream, this`downstream
    {
      Adj(upstream, downstream)
    }

    /** A table with no tasks. */
    constructor ()
      ensures Valid() && name == [] && status == [] && upstream == [] && downstream == []
    {
      name, status, upstream, downstream := [], [], [], [];
    }

    /** `Task(name)`: a new task, waiting, with no upstream and no downstream tasks. */
    method NewTask(n: string) returns (i: nat)
      requires Valid()
      modifies this
      ensures Valid()
      ensures i == old(|status|)
      ensures name == old(name) + [n] && status == old(status) + [Waiting]
      ensures upstream == old(upstream) + [[]] && downstream == old(downstream) + [[]]
    {
      i := |status|;
      name, status := name + [n], status + [Waiting];
      upstream, downstream := upstream + [[]], downstream + [[]];
      forall a, b | 0 <= a <= i && 0 <= b <= i
        ensures b in downstream[a] <==> a in upstream[b]
      {
        if a < i && b < i {
          assert downstream[a] == old(downstream[a]) && upstream[b] == old(upstream[b]);
        }
      }
    }

    /** `is_pending`: the task has neither succeeded nor failed yet. */
    function IsPending(i: nat): (p: bool)
      requires i < |status|
      reads this`status
      ensures p <==> status[i] in {Waiting, Scheduled, Running}
    {
      Pending(status[i])
    }

    /** `try_to_schedule` on a waiting task: it becomes scheduled, and the result is
        true, exactly when every upstream task has succeeded. */
    method TryToSchedule(i: nat) returns (scheduled: bool)
      requires Valid() && i < |status| && status[i] == Waiting
      modifies this`status
      ensures Valid()
      ensures scheduled == AllSucceeded(old(status), upstream[i])
      ensures status == if scheduled then old(status)[i := Scheduled] else old(status)
    {
      assert Within(upstream[i], |status|);
      var ups := upstream[i];
      var k := 0;
      while k < |ups|
        invariant k <= |ups|
        invariant forall m | 0 <= m < k :: status[ups[m]] == Succeeded
      {
        if status[ups[k]] != Succeeded {
          return false;
        }
        k := k + 1;
      }
      status := status[i := Scheduled];
      return true;
    }

    /** `run`: the backend starts the work of a scheduled task, which becomes running. */
    method Run(i: nat)
      requires i < |status| && status[i] == Scheduled
      modifies this`status
      ensures status == old(status)[i := Running]
    {
      status := status[i := Running];
    }

    /** `succeed`: the task is marked succeeded, then `try_to_schedule` runs on each
        downstream task in list order. Its assertion holds only when they are all
        waiting and the task is not its own downstream task. */
    method Succeed(i: nat)
      requires Valid() && i < |status| && SucceedAllowed(status, downstream, i)
      modifies this`status
      ensures Valid()
      ensures status == AfterSucceed(old(status), Edges(), i)
    {
      assert Within(downstream[i], |status|);
      var ds := downstream[i];
      status := status[i := Succeeded];
      var k := 0;
      while k < |ds|
        invariant k <= |ds| && |status| == |name|
        invariant AllWaiting(status, ds[k..])
        invariant ScheduleEach(status, upstream, ds[k..]) == AfterSucceed(old(status), Edges(), i)
      {
        assert ds[k..][1..] == ds[k + 1..];
        var _ := TryToSchedule(ds[k]);
        k := k + 1;
      }
    }

    /** `fail`: nothing when the task has already failed; otherwise the task is marked
        failed and `fail` runs on each downstream task in list order. */
    method Fail(i: nat)
      requires Valid() && i < |status|
      modifies this`status
      ensures Valid()
      ensures status == CascadeFail(old(status), downstream, i)
      decreases |status| - Count(status, Failed)
    {
      if status[i] == Failed {
        return;
      }
      assert Within(downstream[i], |status|);
      CountUpdate(status, i, Failed, Failed);
      status := status[i := Failed];
      ghost var st1 := status;
      var ds := downstream[i];
      var k := 0;
      while k < |ds|
        invariant k <= |ds| && |status| == |st1|
        invariant Count(status, Failed) >= Count(st1, Failed)
        invariant CascadeFailAll(status, downstream, ds[k..]) == CascadeFailAll(st1, downstream, ds)
      {
        assert ds[k..][1..] == ds[k + 1..];
        Fail(ds[k]);
        k := k + 1;
      }
    }

    /** `try_to_finish`: the backend answers `poll`; a finished task then succeeds or
        fails, and the result says whether it finished. */
    method TryToFinish(i: nat, poll: Poll) returns (finished: bool)
      requires Valid() && i < |status| && status[i] == Running
      requires poll.done && poll.ok ==> SucceedAllowed(status, downstream, i)
      modifies this`status
      ensures Valid()
      ensures finished == poll.done
      ensures status ==
        if !poll.done then old(status)
        else if poll.ok then AfterSucceed(old(status), Edges(), i)
        else CascadeFail(old(status), downstream, i)
    {
      if !poll.done {
        return false;
      }
      if poll.ok {
        Succeed(i);
      } else {
        Fail(i);
      }
      return true;
    }

    /** `update_status(runnable)`: a scheduled task starts when `runnable` (result 1);
        a running task that finishes succeeds or fails (result -1); anything else
        leaves the table unchanged (result 0). */
    method UpdateStatus(i: nat, runnable: bool, poll: Poll) returns (delta: int)
      requires Valid() && i < |status|
      requires status[i] == Running && poll.done && poll.ok ==> SucceedAllowed(status, downstream, i)
      modifies this`status
      ensures Valid()
      ensures (status, delta) == Update(old(status), Edges(), i, runnable, poll)
    {
      if status[i] == Scheduled {
        if runnable {
          Run(i);
          return 1;
        }
        return 0;
      }
      if status[i] == Running {
        var finished := TryToFinish(i, poll);
        if finished {
          return -1;
        }
        return 0;
      }
      return 0;
    }

    /** How many halves of the edge `a -> b` are still missing. */
    function EdgeGap(a: nat, b: nat): nat
      requires a < |downstream| && b < |upstream|
      reads this
    {
      (if b in downstream[a] then 0 else 1) + (if a in upstream[b] then 0 else 1)
    }

    /** `a.set_downstream(b)`: appends `b` to `a.downstream` when missing, and then
        calls `b.set_upstream(a)`. */
    method SetDownstream(a: nat, b: nat)
      requires |upstream| == |downstream| && a < |downstream| && b < |downstream|
      modifies this`upstream, this`downstream
      ensures Edges() == Link(old(Edges()), a, b)
      decreases EdgeGap(a, b)
    {
      if b !in downstream[a] {
        downstream := downstream[a := downstream[a] + [b]];
        SetUpstream(b, a);
      }
    }

    /** `a.set_upstream(b)`: appends `b` to `a.upstream` when missing, and then calls
        `b.set_downstream(a)`. */
    method SetUpstream(a: nat, b: nat)
      requires |upstream| == |downstream| && a < |downstream| && b < |downstream|
      modifies this`upstream, this`downstream
      ensures Edges() == LinkUp(old(Edges()), a, b)
      decreases EdgeGap(b, a)
    {
      if b !in upstream[a] {
        upstream := upstream[a := upstream[a] + [b]];
        SetDownstream(b, a);
      }
    }

    /** `task >> other`: links every task `other` names downstream of `task`, depth
        first and in list order, and returns `other`; a value of another type raises
        `TypeError`, after the links made before it. The cycle check written after
        the `return` never runs, so cycles are accepted. */
    method RShift(i: nat, op: Operand) returns (r: Result<Operand>)
      requires Valid() && i < |status| && Names(op, |status|)
      modifies this`upstream, this`downstream
      ensures Valid()
      ensures Within(Targets(op).0, |status|) && Edges() == LinkAll(old(Edges()), i, Targets(op).0)
      ensures r == if Targets(op).1 then Ok(op) else Err(TypeError)
      decreases op, 1
    {
      match op
      case Single(t) =>
        SetDownstream(i, t);
        LinkKeepsWellFormed(old(Edges()), i, t);
        assert [t][..0] == [];
        return Ok(op);
      case Other =>
        return Err(TypeError);
      case List(items) =>
        r := RShiftEach(i, items);
    }

    /** `>>` on each item of a list operand in order, stopping at the first error. */
    method RShiftEach(i: nat, items: seq<Operand>) returns (r: Result<Operand>)
      requires Valid() && i < |status| && Names(List(items), |status|)
      modifies this`upstream, this`downstream
      ensures Valid()
      ensures Within(Targets(List(items)).0, |status|)
      ensures Edges() == LinkAll(old(Edges()), i, Targets(List(items)).0)
      ensures r == if Targets(List(items)).1 then Ok(List(items)) else Err(TypeError)
      decreases List(items), 0
    {
      var parts := seq(|items|, k requires 0 <= k < |items| => Targets(items[k]));
      var n := |status|;
      forall k | 0 <= k < |items| ensures Within(parts[k].0, n) {
        TargetsWithin(items[k], n);
      }
      var k := 0;
      while k < |items|
        invariant k <= |items| && Valid() && |status| == |downstream| == n
        invariant Join(parts[..k]).1 && Within(Join(parts[..k]).0, n)
        invariant Edges() == LinkAll(old(Edges()), i, Join(parts[..k]).0)
      {
        JoinSnoc(parts, k);
        JoinWithin(parts[..k + 1], n);
        var rk := RShift(i, items[k]);
        LinkAllConcat(old(Edges()), i, Join(parts[..k]).0, parts[k].0);
        if rk.Err? {
          JoinStops(parts, k + 1);
          return Err(TypeError);
        }
        k := k + 1;
      }
      assert parts[..k] == parts;
      return Ok(List(items));
    }

    /** `task << other`: links every task `other` names upstream of `task`, in the same
        order as `>>`, with the same result and the same dead cycle check. */
    method LShift(i: nat, op: Operand) returns (r: Result<Operand>)
      requires Valid() && i < |status| && Names(op, |status|)
      modifies this`upstream, this`downstream
      ensures Valid()
      ensures Within(Targets(op).0, |status|) && Edges() == LinkUpAll(old(Edges()), i, Targets(op).0)
      ensures r == if Targets(op).1 then Ok(op) else Err(TypeError)
      decreases op, 1
    {
      match op
      case Single(t) =>
        SetUpstream(i, t);
        LinkUpIsLink(old(Edges()), i, t);
        LinkKeepsWellFormed(old(Edges()), t, i);
        assert [t][..0] == [];
        return Ok(op);
      case Other =>
        return Err(TypeError);
      case List(items) =>
        r := LShiftEach(i, items);
    }

    /** `<<` on each item of a list operand in order, stopping at the first error. */
    method LShiftEach(i: nat, items: seq<Operand>) returns (r: Result<Operand>)
      requires Valid() && i < |status| && Names(List(items), |status|)
      modifies this`upstream, this`downstream
      ensures Valid()
      ensures Within(Targets(List(items)).0, |status|)
      ensures Edges() == LinkUpAll(old(Edges()), i, Targets(List(items)).0)
      ensures r == if Targets(List(items)).1 then Ok(List(items)) else Err(TypeError)
      decreases List(items), 0
    {
      var parts := seq(|items|, k requires 0 <= k < |items| => Targets(items[k]));
      var n := |status|;
      forall k | 0 <= k < |items| ensures Within(parts[k].0, n) {
        TargetsWithin(items[k], n);
      }
      var k := 0;
      while k < |items|
        invariant k <= |items| && Valid() && |status| == |downstream| == n
        invariant Join(parts[..k]).1 && Within(Join(parts[..k]).0, n)
        invariant Edges() == LinkUpAll(old(Edges()), i, Join(parts[..k]).0)
      {
        JoinSnoc(parts, k);
        JoinWithin(parts[..k + 1], n);
        var rk := LShift(i, items[k]);
        LinkUpAllConcat(old(Edges()), i, Join(parts[..k]).0, parts[k].0);
        if rk.Err? {
          JoinStops(parts, k + 1);
          return Err(TypeError);
        }
        k := k + 1;
      }
      assert parts[..k] == parts;
      return Ok(List(items));
    }

    /** `other >> task` with a list on the left: `task << other`, returning `task`. */
    method RRShift(i: nat, op: Operand) returns (r: Result<nat>)
      requires Valid() && i < |status| && Names(op, |status|)
      modifies this`upstream, this`downstream
      ensures Valid()
      ensures Within(Targets(op).0, |status|) && Edges() == LinkUpAll(old(Edges()), i, Targets(op).0)
      ensures r == if Targets(op).1 then Ok(i) else Err(TypeError)
    {
      var l := LShift(i, op);
      if l.Err? {
        return Err(l.error);
      }
      return Ok(i);
    }

    /** `other << task` with a list on the left: `task >> other`, returning `task`. */
    method RLShift(i: nat, op: Operand) returns (r: Result<nat>)
      requires Valid() && i < |status| && Names(op, |status|)
      modifies this`upstream, this`downstream
      ensures Valid()
      ensures Within(Targets(op).0, |status|) && Edges() == LinkAll(old(Edges()), i, Targets(op).0)
      ensures r == if Targets(op).1 then Ok(i) else Err(TypeError)
    {
      var l := RShift(i, op);
      if l.Err? {
        return Err(l.error);
      }
      return Ok(i);
    }

    /** `check_cycles`: a breadth-first walk from the downstream tasks of `i` that
        raises `RuntimeError` exactly when it meets `i` again, that is, when `i` lies on
        a cycle of one or more downstream edges. It changes nothing. */
    method CheckCycles(i: nat) returns (r: Result<()>)
      requires Valid() && i < |status|
      ensures r.Err? <==> OnCycle(downstream, i)
      ensures r.Err? ==> r.error == RuntimeError
    {
      var visited: seq<nat> := [];
      var pending := downstream[i];
      WalkStart(downstream, i);
      while pending != []
        invariant Walk(downstream, i, visited, pending)
        decreases set x | 0 <= x < |downstream| && x !in visited
      {
        var task := pending[0];
        if task == i {
          WalkMeets(downstream, i, visited, pending);
          return Err(RuntimeError);
        }
        WalkStep(downstream, i, visited, pending);
        WalkShrinks(downstream, i, visited, pending);
        visited := visited + [task];
        pending := pending[1..] + Unseen(downstream[task], visited, pending);
      }
      WalkDone(downstream, i, visited);
      return Ok(());
    }
  }
}
