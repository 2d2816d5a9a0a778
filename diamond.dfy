/** The two runs of tests/test_dag.py on the DAG `t1 >> [t2, t3] >> t4`, and a third
    run of the same DAG in which `succeed` trips the assertion of `try_to_schedule`.
    Task `k` of the table is `t(k+1)`. */
module Diamond {
  import opened Graph
  import opened TaskSpec
  import opened DagSpec

  /** Four tasks with no edges. */
  function Unlinked(): Adj {
    Adj([[], [], [], []], [[], [], [], []])
  }

  /** The table after `t1 >> [t2, t3] >> t4`. */
  function Shape(): Adj {
    Adj([[], [0], [0], [1, 2]], [[1, 2], [3], [3], []])
  }

  /** `t1 >> [t2, t3]` declares `t1.set_downstream` for each list item in turn, and
      `[t2, t3] >> t4` is `t4 << [t2, t3]`, which declares `t4.set_upstream` for each
      item in turn; the result is the diamond, with both lists mirrored. */
  lemma ShapeBuilt()
    ensures LinkUpAll(LinkAll(Unlinked(), 0, [1, 2]), 3, [1, 2]) == Shape()
  {
    var u := Unlinked();
    assert [1, 2][..1] == [1] && [1][..0] == [];
    assert LinkAll(u, 0, [1]) == Link(u, 0, 1);
    var g1 := Adj([[], [0], [], []], [[1], [], [], []]);
    assert u.up[1] + [0] == [0] && u.down[0] + [1] == [1];
    assert u.up[1 := u.up[1] + [0]] == g1.up && u.down[0 := u.down[0] + [1]] == g1.down;
    assert Link(u, 0, 1) == g1;
    var g := Adj([[], [0], [0], []], [[1, 2], [], [], []]);
    assert g1.up[2] + [0] == [0] && g1.down[0] + [2] == [1, 2];
    assert g1.up[2 := g1.up[2] + [0]] == g.up && g1.down[0 := g1.down[0] + [2]] == g.down;
    assert LinkAll(u, 0, [1, 2]) == Link(g1, 0, 2) == g;
    assert LinkUpAll(g, 3, [1]) == LinkUp(g, 3, 1);
    var g3 := Adj([[], [0], [0], [1]], [[1, 2], [3], [], []]);
    assert g.up[3] + [1] == [1] && g.down[1] + [3] == [3];
    assert g.up[3 := g.up[3] + [1]] == g3.up && g.down[1 := g.down[1] + [3]] == g3.down;
    assert LinkUp(g, 3, 1) == g3;
    assert g3.up[3] + [2] == [1, 2] && g3.down[2] + [3] == [3];
    assert g3.up[3 := g3.up[3] + [2]] == Shape().up && g3.down[2 := g3.down[2] + [3]] == Shape().down;
    assert LinkUpAll(g, 3, [1, 2]) == LinkUp(g3, 3, 2) == Shape();
  }

  /** The lists of the diamond mirror each other and hold no duplicates. */
  lemma ShapeWellFormed()
    ensures WellFormed(Shape())
  {
    var u := Unlinked();
    assert WellFormed(u);
    LinkAllKeepsWellFormed(u, 0, [1, 2]);
    LinkAllKeepsWellFormed(LinkAll(u, 0, [1, 2]), 3, [1, 2]);
    ShapeBuilt();
  }

  /** The dictionary order of the tasks: the order they were added in. */
  const Order: seq<nat> := [0, 1, 2, 3]

  /** Unfolding only: the tails of `Order` that the passes below walk through. */
  lemma OrderTails()
    ensures Order[1..] == [1, 2, 3] && [1, 2, 3][1..] == [2, 3] && [2, 3][1..] == [3] && [3][1..] == []
  {
  }

  /** `run` first calls `try_to_schedule` on every task: only `t1`, which has no
      upstream task, is scheduled. */
  lemma ScheduledFirst()
    ensures WellFormed(Shape())
    ensures ScheduleEach([Waiting, Waiting, Waiting, Waiting], Shape().up, Order) == [Scheduled, Waiting, Waiting, Waiting]
  {
    ShapeWellFormed();
  }

  /** The first pass: `t1` starts, the others wait. */
  lemma FirstPass(g: Adj, p: nat -> Poll, cap: int)
    requires g == Shape() && cap >= 1
    ensures WellFormed(g)
    ensures TickOver([Scheduled, Waiting, Waiting, Waiting], g, Order, 0, cap, p, 0)
      == Ticked([Running, Waiting, Waiting, Waiting], 1, 4)
  {
    ShapeWellFormed();
    OrderTails();
    var s0 := [Scheduled, Waiting, Waiting, Waiting];
    var s1 := [Running, Waiting, Waiting, Waiting];
    assert s0[0 := Running] == s1;
    TickStarts(s0, g, Order, 0, cap, p, 0);
    TickPasses(s1, g, [1, 2, 3], 1, cap, p, 1);
    TickPasses(s1, g, [2, 3], 1, cap, p, 2);
    TickPasses(s1, g, [3], 1, cap, p, 3);
  }

  /** `t1` succeeds: `t2` and `t3` are scheduled. */
  lemma FirstSucceeds()
    ensures WellFormed(Shape())
    ensures SucceedAllowed([Running, Waiting, Waiting, Waiting], Shape().down, 0)
    ensures AfterSucceed([Running, Waiting, Waiting, Waiting], Shape(), 0) == [Succeeded, Scheduled, Scheduled, Waiting]
  {
    ShapeWellFormed();
    var st := [Running, Waiting, Waiting, Waiting];
    SucceedEffect(st, Shape(), 0);
    assert AllSucceeded(st[0 := Succeeded], [0]);
  }

  /** `t2` succeeds while `t3` has not: `t4` stays waiting. */
  lemma SecondSucceeds(s: Status)
    requires s == Scheduled || s == Running
    ensures WellFormed(Shape())
    ensures SucceedAllowed([Succeeded, Running, s, Waiting], Shape().down, 1)
    ensures AfterSucceed([Succeeded, Running, s, Waiting], Shape(), 1) == [Succeeded, Succeeded, s, Waiting]
  {
    ShapeWellFormed();
    var st := [Succeeded, Running, s, Waiting];
    SucceedEffect(st, Shape(), 1);
    assert st[1 := Succeeded][[1, 2][1]] == s;
  }

  /** `t3` succeeds after `t2`: `t4` is scheduled. */
  lemma ThirdSucceeds()
    ensures WellFormed(Shape())
    ensures SucceedAllowed([Succeeded, Succeeded, Running, Waiting], Shape().down, 2)
    ensures AfterSucceed([Succeeded, Succeeded, Running, Waiting], Shape(), 2) == [Succeeded, Succeeded, Succeeded, Scheduled]
  {
    ShapeWellFormed();
    var st := [Succeeded, Succeeded, Running, Waiting];
    SucceedEffect(st, Shape(), 2);
    assert AllSucceeded(st[2 := Succeeded], [1, 2]);
  }

  /** `t4` succeeds; it has no downstream task. */
  lemma FourthSucceeds()
    ensures WellFormed(Shape())
    ensures SucceedAllowed([Succeeded, Succeeded, Succeeded, Running], Shape().down, 3)
    ensures AfterSucceed([Succeeded, Succeeded, Succeeded, Running], Shape(), 3) == [Succeeded, Succeeded, Succeeded, Succeeded]
  {
    ShapeWellFormed();
    SucceedEffect([Succeeded, Succeeded, Succeeded, Running], Shape(), 3);
  }

  /** `t3` fails, and `t4` with it; `t2` is left as it was. */
  lemma ThirdFails(s: Status)
    ensures CascadeFail([Succeeded, s, Running, Waiting], Shape().down, 2) == [Succeeded, s, Failed, Failed]
  {
    var down := Shape().down;
    var st := [Succeeded, s, Running, Waiting];
    var st2 := st[2 := Failed];
    var st3 := st2[3 := Failed];
    assert st3 == [Succeeded, s, Failed, Failed];
    assert [3][1..] == [];
    assert CascadeFail(st2, down, 3) == CascadeFailAll(st3, down, []) == st3;
    assert CascadeFailAll(st2, down, [3]) == CascadeFailAll(st3, down, []);
    assert CascadeFail(st, down, 2) == CascadeFailAll(st2, down, [3]);
  }

  /** The second pass: `t1` succeeds and `t2` starts; `t3` starts too when two tasks
      may run at once. */
  lemma SecondPass(g: Adj, p: nat -> Poll, cap: int)
    requires g == Shape() && (cap == 1 || cap == 2) && p(0).done && p(0).ok
    ensures WellFormed(g)
    ensures TickOver([Running, Waiting, Waiting, Waiting], g, Order, 1, cap, p, 0)
      == if cap == 1 then Ticked([Succeeded, Running, Scheduled, Waiting], 1, 3)
         else Ticked([Succeeded, Running, Running, Waiting], 2, 3)
  {
    FirstSucceeds();
    OrderTails();
    var s1 := [Succeeded, Scheduled, Scheduled, Waiting];
    var s2 := [Succeeded, Running, Scheduled, Waiting];
    var s3 := [Succeeded, Running, Running, Waiting];
    assert s1[1 := Running] == s2 && s2[2 := Running] == s3;
    TickSucceeds([Running, Waiting, Waiting, Waiting], g, Order, 1, cap, p, 0);
    TickStarts(s1, g, [1, 2, 3], 0, cap, p, 0);
    TickStarts(s2, g, [2, 3], 1, cap, p, 1);
    if cap == 1 {
      TickPasses(s2, g, [3], 1, cap, p, 2);
    } else {
      TickPasses(s3, g, [3], 2, cap, p, 2);
    }
  }

  /** The third pass with one worker: `t2` succeeds, `t3` starts, `t4` still waits
      for `t3`. */
  lemma ThirdPass(g: Adj, p: nat -> Poll)
    requires g == Shape() && p(1).done && p(1).ok
    ensures WellFormed(g)
    ensures TickOver([Succeeded, Running, Scheduled, Waiting], g, Order, 1, 1, p, 0)
      == Ticked([Succeeded, Succeeded, Running, Waiting], 1, 2)
  {
    SecondSucceeds(Scheduled);
    OrderTails();
    var s0 := [Succeeded, Running, Scheduled, Waiting];
    var s1 := [Succeeded, Succeeded, Scheduled, Waiting];
    var s2 := [Succeeded, Succeeded, Running, Waiting];
    assert s1[2 := Running] == s2;
    TickPasses(s0, g, Order, 1, 1, p, 0);
    TickSucceeds(s0, g, [1, 2, 3], 1, 1, p, 0);
    TickStarts(s1, g, [2, 3], 0, 1, p, 0);
    TickPasses(s2, g, [3], 1, 1, p, 1);
  }

  /** The fourth pass with one worker when `t3` succeeds: `t4` starts. */
  lemma FourthPass(g: Adj, p: nat -> Poll)
    requires g == Shape() && p(2).done && p(2).ok
    ensures WellFormed(g)
    ensures TickOver([Succeeded, Succeeded, Running, Waiting], g, Order, 1, 1, p, 0)
      == Ticked([Succeeded, Succeeded, Succeeded, Running], 1, 1)
  {
    ThirdSucceeds();
    OrderTails();
    var s0 := [Succeeded, Succeeded, Running, Waiting];
    var s1 := [Succeeded, Succeeded, Succeeded, Scheduled];
    assert s1[3 := Running] == [Succeeded, Succeeded, Succeeded, Running];
    TickPasses(s0, g, Order, 1, 1, p, 0);
    TickPasses(s0, g, [1, 2, 3], 1, 1, p, 0);
    TickSucceeds(s0, g, [2, 3], 1, 1, p, 0);
    TickStarts(s1, g, [3], 0, 1, p, 0);
  }

  /** The fourth pass with one worker when `t3` exits with an error: `t4` fails with
      it and nothing is left pending. */
  lemma FourthPassFails(g: Adj, p: nat -> Poll)
    requires g == Shape() && p(2).done && !p(2).ok
    ensures WellFormed(g)
    ensures TickOver([Succeeded, Succeeded, Running, Waiting], g, Order, 1, 1, p, 0)
      == Ticked([Succeeded, Succeeded, Failed, Failed], 0, 0)
  {
    ShapeWellFormed();
    OrderTails();
    ThirdFails(Succeeded);
    var s0 := [Succeeded, Succeeded, Running, Waiting];
    TickPasses(s0, g, Order, 1, 1, p, 0);
    TickPasses(s0, g, [1, 2, 3], 1, 1, p, 0);
    TickFails(s0, g, [2, 3], 1, 1, p, 0);
    TickPasses([Succeeded, Succeeded, Failed, Failed], g, [3], 0, 1, p, 0);
  }

  /** The fifth pass with one worker: `t4` succeeds and nothing is left pending. */
  lemma FifthPass(g: Adj, p: nat -> Poll)
    requires g == Shape() && p(3).done && p(3).ok
    ensures WellFormed(g)
    ensures TickOver([Succeeded, Succeeded, Succeeded, Running], g, Order, 1, 1, p, 0)
      == Ticked([Succeeded, Succeeded, Succeeded, Succeeded], 0, 0)
  {
    FourthSucceeds();
    OrderTails();
    var s0 := [Succeeded, Succeeded, Succeeded, Running];
    TickPasses(s0, g, Order, 1, 1, p, 0);
    TickPasses(s0, g, [1, 2, 3], 1, 1, p, 0);
    TickPasses(s0, g, [2, 3], 1, 1, p, 0);
    TickSucceeds(s0, g, [3], 1, 1, p, 0);
  }

  /** The third pass with two workers: `t2` is still running when `t3` fails, and
      `t4` fails with `t3`. */
  lemma ThirdPassTwoWorkers(g: Adj, p: nat -> Poll)
    requires g == Shape() && !p(1).done && p(2).done && !p(2).ok
    ensures WellFormed(g)
    ensures TickOver([Succeeded, Running, Running, Waiting], g, Order, 2, 2, p, 0)
      == Ticked([Succeeded, Running, Failed, Failed], 1, 1)
  {
    ShapeWellFormed();
    OrderTails();
    ThirdFails(Running);
    var s0 := [Succeeded, Running, Running, Waiting];
    TickPasses(s0, g, Order, 2, 2, p, 0);
    TickWaits(s0, g, [1, 2, 3], 2, 2, p, 0);
    TickFails(s0, g, [2, 3], 2, 2, p, 1);
    TickPasses([Succeeded, Running, Failed, Failed], g, [3], 1, 2, p, 1);
  }

  /** The fourth pass with two workers: `t2` finishes successfully, but its downstream
      task `t4` has already failed, so `succeed` trips the assertion of
      `try_to_schedule` on `t4`. */
  lemma FourthPassTwoWorkers(g: Adj, p: nat -> Poll)
    requires g == Shape() && p(1).done && p(1).ok
    ensures WellFormed(g)
    ensures TickOver([Succeeded, Running, Failed, Failed], g, Order, 1, 2, p, 0) == Crashed(1)
  {
    ShapeWellFormed();
    OrderTails();
    var s0 := [Succeeded, Running, Failed, Failed];
    TickPasses(s0, g, Order, 1, 2, p, 0);
    assert g.down[1][0] == 3;
    TickCrashes(s0, g, [1, 2, 3], 1, 2, p, 0);
  }

  /** Every backend reports its task finished and successful on the first poll. */
  function AllPass(t: nat, n: nat): Poll {
    Poll(true, true)
  }

  /** `t3` exits with an error; every task finishes on its first poll. */
  function ThirdExits(t: nat, n: nat): Poll {
    Poll(true, t != 2)
  }

  /** As `ThirdExits`, except that `t2` takes until tick 3 to finish. */
  function SecondSlow(t: nat, n: nat): Poll {
    if t == 1 then Poll(n >= 3, true) else Poll(true, t != 2)
  }

  /** test_run_success: with one worker and every task succeeding, `run` returns after
      five passes with every task succeeded. */
  lemma RunSucceeds(fuel: nat)
    requires fuel >= 5
    ensures WellFormed(Shape())
    ensures RunSpec([Waiting, Waiting, Waiting, Waiting], Shape(), Order, 0, 1, AllPass, fuel)
      == Completed([Succeeded, Succeeded, Succeeded, Succeeded], 0)
  {
    var g := Shape();
    var b := AllPass;
    var s0 := [Scheduled, Waiting, Waiting, Waiting];
    var s1 := [Running, Waiting, Waiting, Waiting];
    var s2 := [Succeeded, Running, Scheduled, Waiting];
    var s3 := [Succeeded, Succeeded, Running, Waiting];
    var s4 := [Succeeded, Succeeded, Succeeded, Running];
    var s5 := [Succeeded, Succeeded, Succeeded, Succeeded];
    ScheduledFirst();
    assert RunTicks(s0, g, Order, 0, 1, b, 0, 4, fuel) == RunTicks(s1, g, Order, 1, 1, b, 1, 4, fuel - 1) by {
      FirstPass(g, PollAt(b, 0), 1);
      RunContinues(s0, g, Order, 0, 1, b, 0, 4, fuel, s1, 1, 4);
    }
    assert RunTicks(s1, g, Order, 1, 1, b, 1, 4, fuel - 1) == RunTicks(s2, g, Order, 1, 1, b, 2, 3, fuel - 2) by {
      PollAtApplies(b, 1, 0);
      SecondPass(g, PollAt(b, 1), 1);
      RunContinues(s1, g, Order, 1, 1, b, 1, 4, fuel - 1, s2, 1, 3);
    }
    assert RunTicks(s2, g, Order, 1, 1, b, 2, 3, fuel - 2) == RunTicks(s3, g, Order, 1, 1, b, 3, 2, fuel - 3) by {
      PollAtApplies(b, 2, 1);
      ThirdPass(g, PollAt(b, 2));
      RunContinues(s2, g, Order, 1, 1, b, 2, 3, fuel - 2, s3, 1, 2);
    }
    assert RunTicks(s3, g, Order, 1, 1, b, 3, 2, fuel - 3) == RunTicks(s4, g, Order, 1, 1, b, 4, 1, fuel - 4) by {
      PollAtApplies(b, 3, 2);
      FourthPass(g, PollAt(b, 3));
      RunContinues(s3, g, Order, 1, 1, b, 3, 2, fuel - 3, s4, 1, 1);
    }
    assert RunTicks(s4, g, Order, 1, 1, b, 4, 1, fuel - 4) == RunTicks(s5, g, Order, 0, 1, b, 5, 0, fuel - 5) by {
      PollAtApplies(b, 4, 3);
      FifthPass(g, PollAt(b, 4));
      RunContinues(s4, g, Order, 1, 1, b, 4, 1, fuel - 4, s5, 0, 0);
    }
  }

  /** test_run_failure: with one worker and `t3` exiting with an error, `run` returns
      after four passes with `t1` and `t2` succeeded and `t3` and `t4` failed. */
  lemma RunFails(fuel: nat)
    requires fuel >= 4
    ensures WellFormed(Shape())
    ensures RunSpec([Waiting, Waiting, Waiting, Waiting], Shape(), Order, 0, 1, ThirdExits, fuel)
      == Completed([Succeeded, Succeeded, Failed, Failed], 0)
  {
    var g := Shape();
    var b := ThirdExits;
    var s0 := [Scheduled, Waiting, Waiting, Waiting];
    var s1 := [Running, Waiting, Waiting, Waiting];
    var s2 := [Succeeded, Running, Scheduled, Waiting];
    var s3 := [Succeeded, Succeeded, Running, Waiting];
    var s4 := [Succeeded, Succeeded, Failed, Failed];
    ScheduledFirst();
    assert RunTicks(s0, g, Order, 0, 1, b, 0, 4, fuel) == RunTicks(s1, g, Order, 1, 1, b, 1, 4, fuel - 1) by {
      FirstPass(g, PollAt(b, 0), 1);
      RunContinues(s0, g, Order, 0, 1, b, 0, 4, fuel, s1, 1, 4);
    }
    assert RunTicks(s1, g, Order, 1, 1, b, 1, 4, fuel - 1) == RunTicks(s2, g, Order, 1, 1, b, 2, 3, fuel - 2) by {
      PollAtApplies(b, 1, 0);
      SecondPass(g, PollAt(b, 1), 1);
      RunContinues(s1, g, Order, 1, 1, b, 1, 4, fuel - 1, s2, 1, 3);
    }
    assert RunTicks(s2, g, Order, 1, 1, b, 2, 3, fuel - 2) == RunTicks(s3, g, Order, 1, 1, b, 3, 2, fuel - 3) by {
      PollAtApplies(b, 2, 1);
      ThirdPass(g, PollAt(b, 2));
      RunContinues(s2, g, Order, 1, 1, b, 2, 3, fuel - 2, s3, 1, 2);
    }
    assert RunTicks(s3, g, Order, 1, 1, b, 3, 2, fuel - 3) == RunTicks(s4, g, Order, 0, 1, b, 4, 0, fuel - 4) by {
      PollAtApplies(b, 3, 2);
      FourthPassFails(g, PollAt(b, 3));
      RunContinues(s3, g, Order, 1, 1, b, 3, 2, fuel - 3, s4, 0, 0);
    }
  }

  /** With two workers, `t2` still running when `t3` fails, and `t2` then succeeding,
      `run` does not return normally: on tick 3 `t2.succeed()` calls
      `t4.try_to_schedule()` on the already failed `t4`, whose assertion fails. */
  lemma RunTrips(fuel: nat)
    requires fuel >= 4
    ensures WellFormed(Shape())
    ensures RunSpec([Waiting, Waiting, Waiting, Waiting], Shape(), Order, 0, 2, SecondSlow, fuel) == Aborted(1, 3)
  {
    var g := Shape();
    var b := SecondSlow;
    var s0 := [Scheduled, Waiting, Waiting, Waiting];
    var s1 := [Running, Waiting, Waiting, Waiting];
    var s2 := [Succeeded, Running, Running, Waiting];
    var s3 := [Succeeded, Running, Failed, Failed];
    ScheduledFirst();
    assert RunTicks(s0, g, Order, 0, 2, b, 0, 4, fuel) == RunTicks(s1, g, Order, 1, 2, b, 1, 4, fuel - 1) by {
      FirstPass(g, PollAt(b, 0), 2);
      RunContinues(s0, g, Order, 0, 2, b, 0, 4, fuel, s1, 1, 4);
    }
    assert RunTicks(s1, g, Order, 1, 2, b, 1, 4, fuel - 1) == RunTicks(s2, g, Order, 2, 2, b, 2, 3, fuel - 2) by {
      PollAtApplies(b, 1, 0);
      SecondPass(g, PollAt(b, 1), 2);
      RunContinues(s1, g, Order, 1, 2, b, 1, 4, fuel - 1, s2, 2, 3);
    }
    assert RunTicks(s2, g, Order, 2, 2, b, 2, 3, fuel - 2) == RunTicks(s3, g, Order, 1, 2, b, 3, 1, fuel - 3) by {
      PollAtApplies(b, 2, 1);
      PollAtApplies(b, 2, 2);
      ThirdPassTwoWorkers(g, PollAt(b, 2));
      RunContinues(s2, g, Order, 2, 2, b, 2, 3, fuel - 2, s3, 1, 1);
    }
    assert RunTicks(s3, g, Order, 1, 2, b, 3, 1, fuel - 3) == Aborted(1, 3) by {
      PollAtApplies(b, 3, 1);
      FourthPassTwoWorkers(g, PollAt(b, 3));
      RunCrashes(s3, g, Order, 1, 2, b, 3, 1, fuel - 3, 1);
    }
  }
}
