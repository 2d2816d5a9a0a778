/** Task statuses, the upstream/downstream adjacency of a task table, the effect of
    declaring an edge, the operands of the `>>`/`<<` operators, and reachability
    along downstream edges. Tasks are indices into a table. */
module Graph {

  /** The five statuses a task moves through. */
  datatype Status = Waiting | Scheduled | Running | Succeeded | Failed

  /** `is_pending`: neither succeeded nor failed. */
  predicate Pending(s: Status) {
    s != Succeeded && s != Failed
  }

  predicate NoDup<T(==)>(s: seq<T>) {
    forall j, k | 0 <= j < k < |s| :: s[j] != s[k]
  }

  /** Every index in `s` names a task of a table with `n` tasks. */
  predicate Within(s: seq<nat>, n: nat) {
    forall k | 0 <= k < |s| :: s[k] < n
  }

  lemma WithinMembers(s: seq<nat>, t: seq<nat>, n: nat)
    requires Within(t, n) && forall x | x in s :: x in t
    ensures Within(s, n)
  {
    forall k | 0 <= k < |s| ensures s[k] < n {
      assert s[k] in t;
    }
  }

  /** Joining two duplicate-free lists with no element in common gives a
      duplicate-free list. */
  lemma NoDupConcat<T>(s: seq<T>, t: seq<T>)
    requires NoDup(s) && NoDup(t) && forall x | x in s :: x !in t
    ensures NoDup(s + t)
  {
    forall j, k | 0 <= j < k < |s + t| ensures (s + t)[j] != (s + t)[k] {
      if j < |s| && k >= |s| {
        assert (s + t)[j] in s && (s + t)[k] == t[k - |s|];
      }
    }
  }

  /** Every adjacency list only names tasks of the table. */
  predicate Bounded(adj: seq<seq<nat>>) {
    forall a | 0 <= a < |adj| :: Within(adj[a], |adj|)
  }

  /** The two adjacency lists of every task: `up[a]` is `a.upstream`, `down[a]` is
      `a.downstream`. */
  datatype Adj = Adj(up: seq<seq<nat>>, down: seq<seq<nat>>)

  /** The lists mirror each other ("b in a.downstream iff a in b.upstream") and hold
      no duplicates. */
  ghost predicate WellFormed(g: Adj) {
    && |g.up| == |g.down|
    && Bounded(g.up) && Bounded(g.down)
    && (forall a | 0 <= a < |g.down| :: NoDup(g.up[a]) && NoDup(g.down[a]))
    && (forall a, b | 0 <= a < |g.down| && 0 <= b < |g.down| :: b in g.down[a] <==> a in g.up[b])
  }

  /** The adjacency after `a.set_downstream(b)`, as the source computes it without
      relying on the lists mirroring each other: `b` is appended to `a.downstream`
      when missing, and then `b.set_upstream(a)` appends `a` to `b.upstream` when
      missing. */
  function Link(g: Adj, a: nat, b: nat): Adj
    requires |g.up| == |g.down| && a < |g.down| && b < |g.down|
  {
    if b in g.down[a] then g
    else Adj(if a in g.up[b] then g.up else g.up[b := g.up[b] + [a]],
             g.down[a := g.down[a] + [b]])
  }

  /** The adjacency after `a.set_upstream(b)`: the same walk started from the other end. */
  function LinkUp(g: Adj, a: nat, b: nat): Adj
    requires |g.up| == |g.down| && a < |g.down| && b < |g.down|
  {
    if b in g.up[a] then g
    else Adj(g.up[a := g.up[a] + [b]],
             if a in g.down[b] then g.down else g.down[b := g.down[b] + [a]])
  }

  /** `a.set_downstream(t)` for every `t` of `ts`, in order. */
  function LinkAll(g: Adj, a: nat, ts: seq<nat>): (r: Adj)
    requires |g.up| == |g.down| && a < |g.down| && Within(ts, |g.down|)
    ensures |r.up| == |r.down| == |g.down|
  {
    if ts == [] then g
    else
      var h := LinkAll(g, a, ts[..|ts| - 1]);
      Link(h, a, ts[|ts| - 1])
  }

  /** `a.set_upstream(t)` for every `t` of `ts`, in order. */
  function LinkUpAll(g: Adj, a: nat, ts: seq<nat>): (r: Adj)
    requires |g.up| == |g.down| && a < |g.down| && Within(ts, |g.down|)
    ensures |r.up| == |r.down| == |g.down|
  {
    if ts == [] then g
    else
      var h := LinkUpAll(g, a, ts[..|ts| - 1]);
      LinkUp(h, a, ts[|ts| - 1])
  }

  /** Declaring an edge keeps the lists mirrored and duplicate-free; afterwards the
      edge `a -> b` is present and every other edge is as before; a new edge is
      appended at the end of both lists. */
  lemma LinkKeepsWellFormed(g: Adj, a: nat, b: nat)
    requires WellFormed(g) && a < |g.down| && b < |g.down|
    ensures var r := Link(g, a, b);
      && WellFormed(r)
      && b in r.down[a] && a in r.up[b]
      && (forall x, y | 0 <= x < |g.down| && 0 <= y < |g.down| ::
            y in r.down[x] <==> (y in g.down[x] || (x == a && y == b)))
      && (b !in g.down[a] ==>
            r.down[a] == g.down[a] + [b] && r.up[b] == g.up[b] + [a]
            && (forall x | 0 <= x < |g.down| && x != a :: r.down[x] == g.down[x])
            && (forall x | 0 <= x < |g.down| && x != b :: r.up[x] == g.up[x]))
      && (b in g.down[a] ==> r == g)
  {
    var r := Link(g, a, b);
    if b !in g.down[a] {
      assert a !in g.up[b];
      forall x | 0 <= x < |g.down|
        ensures NoDup(r.up[x]) && NoDup(r.down[x])
      {
        if x == a {
          assert r.down[x] == g.down[x] + [b];
        }
        if x == b {
          assert r.up[x] == g.up[x] + [a];
        }
      }
      forall x, y | 0 <= x < |g.down| && 0 <= y < |g.down|
        ensures y in r.down[x] <==> x in r.up[y]
      {
        if x == a {
          assert r.down[x] == g.down[x] + [b];
        }
        if y == b {
          assert r.up[y] == g.up[y] + [a];
        }
      }
      forall x | 0 <= x < |r.down|
        ensures Within(r.down[x], |r.down|) && Within(r.up[x], |r.up|)
      {
        assert Within(g.down[x], |g.down|) && Within(g.up[x], |g.up|);
      }
    }
  }

  /** On mirrored lists `a.set_upstream(b)` and `b.set_downstream(a)` have the same
      effect. */
  lemma LinkUpIsLink(g: Adj, a: nat, b: nat)
    requires WellFormed(g) && a < |g.down| && b < |g.down|
    ensures LinkUp(g, a, b) == Link(g, b, a)
  {
  }

  /** Declaring the same edge a second time changes nothing. */
  lemma LinkIdempotent(g: Adj, a: nat, b: nat)
    requires |g.up| == |g.down| && a < |g.down| && b < |g.down|
    ensures Link(Link(g, a, b), a, b) == Link(g, a, b)
  {
  }

  lemma LinkAllConcat(g: Adj, a: nat, xs: seq<nat>, ys: seq<nat>)
    requires |g.up| == |g.down| && a < |g.down| && Within(xs + ys, |g.down|)
    ensures Within(xs, |g.down|) && Within(ys, |g.down|)
    ensures LinkAll(g, a, xs + ys) == LinkAll(LinkAll(g, a, xs), a, ys)
    decreases |ys|
  {
    assert Within(xs, |g.down|) by { forall k | 0 <= k < |xs| ensures xs[k] < |g.down| { assert xs[k] == (xs + ys)[k]; } }
    assert Within(ys, |g.down|) by { forall k | 0 <= k < |ys| ensures ys[k] < |g.down| { assert ys[k] == (xs + ys)[|xs| + k]; } }
    if ys != [] {
      var ys' := ys[..|ys| - 1];
      assert (xs + ys)[..|xs + ys| - 1] == xs + ys';
      LinkAllConcat(g, a, xs, ys');
    } else {
      assert xs + ys == xs;
    }
  }

  lemma LinkUpAllConcat(g: Adj, a: nat, xs: seq<nat>, ys: seq<nat>)
    requires |g.up| == |g.down| && a < |g.down| && Within(xs + ys, |g.down|)
    ensures Within(xs, |g.down|) && Within(ys, |g.down|)
    ensures LinkUpAll(g, a, xs + ys) == LinkUpAll(LinkUpAll(g, a, xs), a, ys)
    decreases |ys|
  {
    assert Within(xs, |g.down|) by { forall k | 0 <= k < |xs| ensures xs[k] < |g.down| { assert xs[k] == (xs + ys)[k]; } }
    assert Within(ys, |g.down|) by { forall k | 0 <= k < |ys| ensures ys[k] < |g.down| { assert ys[k] == (xs + ys)[|xs| + k]; } }
    if ys != [] {
      var ys' := ys[..|ys| - 1];
      assert (xs + ys)[..|xs + ys| - 1] == xs + ys';
      LinkUpAllConcat(g, a, xs, ys');
    } else {
      assert xs + ys == xs;
    }
  }

  /** `r` is `g` with `ts` appended to `a.downstream` and `a` appended to the
      upstream list of every task of `ts`, everything else unchanged. */
  ghost predicate AppendedDown(g: Adj, r: Adj, a: nat, ts: seq<nat>)
    requires |g.up| == |g.down| && a < |g.down|
  {
    && WellFormed(r) && |r.down| == |g.down|
    && r.down[a] == g.down[a] + ts
    && (forall x | 0 <= x < |g.down| && x != a :: r.down[x] == g.down[x])
    && (forall x | 0 <= x < |g.down| :: r.up[x] == if x in ts then g.up[x] + [a] else g.up[x])
  }

  /** The mirror image of `AppendedDown`, for `<<`. */
  ghost predicate AppendedUp(g: Adj, r: Adj, a: nat, ts: seq<nat>)
    requires |g.up| == |g.down| && a < |g.down|
  {
    && WellFormed(r) && |r.down| == |g.down|
    && r.up[a] == g.up[a] + ts
    && (forall x | 0 <= x < |g.down| && x != a :: r.up[x] == g.up[x])
    && (forall x | 0 <= x < |g.down| :: r.down[x] == if x in ts then g.down[x] + [a] else g.down[x])
  }

  /** `a >> [t1, t2, ...]` on fresh edges: the targets are appended to `a.downstream`
      in list order, and `a` is appended to the upstream list of each target. */
  lemma {:induction false} LinkAllAppends(g: Adj, a: nat, ts: seq<nat>)
    requires WellFormed(g) && a < |g.down| && Within(ts, |g.down|) && NoDup(ts)
    requires forall k | 0 <= k < |ts| :: ts[k] !in g.down[a]
    ensures AppendedDown(g, LinkAll(g, a, ts), a, ts)
  {
    if ts == [] {
      assert forall x | 0 <= x < |g.down| :: x !in ts;
    } else {
      var ts' := ts[..|ts| - 1];
      var t := ts[|ts| - 1];
      assert Within(ts', |g.down|) && NoDup(ts');
      LinkAllAppends(g, a, ts');
      assert t !in ts';
      LinkAppendStep(g, LinkAll(g, a, ts'), a, ts', t);
      assert ts == ts' + [t];
    }
  }

  lemma LinkAppendStep(g: Adj, h: Adj, a: nat, ts': seq<nat>, t: nat)
    requires |g.up| == |g.down| && a < |g.down| && t < |g.down|
    requires AppendedDown(g, h, a, ts') && t !in ts' && t !in g.down[a]
    ensures AppendedDown(g, Link(h, a, t), a, ts' + [t])
  {
    LinkKeepsWellFormed(h, a, t);
    var r := Link(h, a, t);
    forall x | 0 <= x < |g.down|
      ensures r.up[x] == if x in ts' + [t] then g.up[x] + [a] else g.up[x]
    {
      assert x in ts' + [t] <==> x in ts' || x == t;
    }
  }

  /** `a << [t1, t2, ...]` on fresh edges: the targets are appended to `a.upstream`
      in list order, and `a` is appended to the downstream list of each target. */
  lemma {:induction false} LinkUpAllAppends(g: Adj, a: nat, ts: seq<nat>)
    requires WellFormed(g) && a < |g.down| && Within(ts, |g.down|) && NoDup(ts)
    requires forall k | 0 <= k < |ts| :: ts[k] !in g.up[a]
    ensures AppendedUp(g, LinkUpAll(g, a, ts), a, ts)
  {
    if ts == [] {
      assert forall x | 0 <= x < |g.down| :: x !in ts;
    } else {
      var ts' := ts[..|ts| - 1];
      var t := ts[|ts| - 1];
      assert Within(ts', |g.down|) && NoDup(ts');
      LinkUpAllAppends(g, a, ts');
      assert t !in ts';
      LinkUpAppendStep(g, LinkUpAll(g, a, ts'), a, ts', t);
      assert ts == ts' + [t];
    }
  }

  lemma LinkUpAppendStep(g: Adj, h: Adj, a: nat, ts': seq<nat>, t: nat)
    requires |g.up| == |g.down| && a < |g.down| && t < |g.down|
    requires AppendedUp(g, h, a, ts') && t !in ts' && t !in g.up[a]
    ensures AppendedUp(g, LinkUp(h, a, t), a, ts' + [t])
  {
    LinkUpIsLink(h, a, t);
    LinkKeepsWellFormed(h, t, a);
    var r := LinkUp(h, a, t);
    forall x | 0 <= x < |g.down|
      ensures r.down[x] == if x in ts' + [t] then g.down[x] + [a] else g.down[x]
    {
      assert x in ts' + [t] <==> x in ts' || x == t;
    }
  }

  /** Every way of declaring edges keeps the lists mirrored and duplicate-free. */
  lemma {:induction false} LinkAllKeepsWellFormed(g: Adj, a: nat, ts: seq<nat>)
    requires WellFormed(g) && a < |g.down| && Within(ts, |g.down|)
    ensures WellFormed(LinkAll(g, a, ts)) && WellFormed(LinkUpAll(g, a, ts))
  {
    if ts != [] {
      var ts' := ts[..|ts| - 1];
      assert Within(ts', |g.down|);
      LinkAllKeepsWellFormed(g, a, ts');
      LinkKeepsWellFormed(LinkAll(g, a, ts'), a, ts[|ts| - 1]);
      LinkUpIsLink(LinkUpAll(g, a, ts'), a, ts[|ts| - 1]);
      LinkKeepsWellFormed(LinkUpAll(g, a, ts'), ts[|ts| - 1], a);
    }
  }

  /** The right operand of `>>` or `<<`: a task, a (possibly nested) list, or a value
      of some other type (which makes the operator raise `TypeError`). */
  datatype Operand = Single(task: nat) | List(items: seq<Operand>) | Other

  /** Every task the operand names belongs to a table of `n` tasks. */
  predicate Names(op: Operand, n: nat) {
    match op
    case Single(t) => t < n
    case Other => true
    case List(items) => forall k | 0 <= k < |items| :: Names(items[k], n)
  }

  /** The tasks the operator links, in the order it visits them (depth first, left to
      right), and whether the walk finished without meeting a value of another type.
      The walk stops at the first such value. */
  function Targets(op: Operand): (seq<nat>, bool) {
    match op
    case Single(t) => ([t], true)
    case Other => ([], false)
    case List(items) => Join(seq(|items|, k requires 0 <= k < |items| => Targets(items[k])))
  }

  /** Concatenates the visits of the list items up to and including the first one
      that failed. */
  function Join(parts: seq<(seq<nat>, bool)>): (seq<nat>, bool) {
    if parts == [] then ([], true)
    else
      var init := Join(parts[..|parts| - 1]);
      if !init.1 then init
      else (init.0 + parts[|parts| - 1].0, parts[|parts| - 1].1)
  }

  /** One more part after parts that all finished. */
  lemma JoinSnoc(parts: seq<(seq<nat>, bool)>, k: nat)
    requires k < |parts| && Join(parts[..k]).1
    ensures Join(parts[..k + 1]) == (Join(parts[..k]).0 + parts[k].0, parts[k].1)
  {
    assert parts[..k + 1][..k] == parts[..k];
  }

  /** After a failed part the rest of the list is not visited. */
  lemma {:induction false} JoinStops(parts: seq<(seq<nat>, bool)>, k: nat)
    requires k <= |parts| && !Join(parts[..k]).1
    ensures Join(parts) == Join(parts[..k])
    decreases |parts|
  {
    if k < |parts| {
      var p' := parts[..|parts| - 1];
      assert p'[..k] == parts[..k];
      JoinStops(p', k);
    } else {
      assert parts[..k] == parts;
    }
  }

  lemma {:induction false} TargetsWithin(op: Operand, n: nat)
    requires Names(op, n)
    ensures Within(Targets(op).0, n)
  {
    match op
    case Single(t) =>
    case Other =>
    case List(items) =>
      var parts := seq(|items|, k requires 0 <= k < |items| => Targets(items[k]));
      forall k | 0 <= k < |items| ensures Within(parts[k].0, n) {
        TargetsWithin(items[k], n);
      }
      JoinWithin(parts, n);
  }

  lemma {:induction false} JoinWithin(parts: seq<(seq<nat>, bool)>, n: nat)
    requires forall k | 0 <= k < |parts| :: Within(parts[k].0, n)
    ensures Within(Join(parts).0, n)
  {
    if parts != [] {
      JoinWithin(parts[..|parts| - 1], n);
    }
  }

  /** A walk along downstream edges, visiting at least one task. */
  ghost predicate IsPath(down: seq<seq<nat>>, p: seq<nat>) {
    && |p| >= 1
    && (forall k | 0 <= k < |p| :: p[k] < |down|)
    && (forall k | 0 <= k < |p| - 1 :: p[k + 1] in down[p[k]])
  }

  /** `b` can be reached from `a` by following zero or more downstream edges. */
  ghost predicate Reachable(down: seq<seq<nat>>, a: nat, b: nat) {
    exists p :: IsPath(down, p) && p[0] == a && p[|p| - 1] == b
  }

  /** Task `i` can be reached from itself through one or more downstream edges. */
  ghost predicate OnCycle(down: seq<seq<nat>>, i: nat)
    requires i < |down|
  {
    exists d :: d in down[i] && Reachable(down, d, i)
  }

  /** A set of tasks that contains the downstream tasks of each of its members. */
  ghost predicate Closed(down: seq<seq<nat>>, s: set<nat>) {
    forall v, w | v in s && v < |down| && w in down[v] :: w in s
  }

  lemma ReachableRefl(down: seq<seq<nat>>, a: nat)
    requires a < |down|
    ensures Reachable(down, a, a)
  {
    assert IsPath(down, [a]);
  }

  /** Reachability extends by one more downstream edge at the end. */
  lemma ReachableStep(down: seq<seq<nat>>, a: nat, b: nat, c: nat)
    requires Bounded(down) && Reachable(down, a, b) && b < |down| && c in down[b]
    ensures Reachable(down, a, c)
  {
    var p :| IsPath(down, p) && p[0] == a && p[|p| - 1] == b;
    assert c < |down| by { assert Within(down[b], |down|); }
    var q := p + [c];
    assert IsPath(down, q);
  }

  /** Reachability extends by one more downstream edge at the start. */
  lemma ReachablePrepend(down: seq<seq<nat>>, a: nat, b: nat, c: nat)
    requires a < |down| && b in down[a] && Reachable(down, b, c)
    ensures Reachable(down, a, c)
  {
    var p :| IsPath(down, p) && p[0] == b && p[|p| - 1] == c;
    var q := [a] + p;
    assert forall k | 1 <= k < |q| :: q[k] == p[k - 1];
    assert IsPath(down, q);
  }

  /** Nothing outside a closed set can be reached from inside it. */
  lemma {:induction false} ClosedKeepsReachable(down: seq<seq<nat>>, s: set<nat>, a: nat, b: nat)
    requires Closed(down, s) && a in s && Reachable(down, a, b)
    ensures b in s
  {
    var p :| IsPath(down, p) && p[0] == a && p[|p| - 1] == b;
    PathStaysIn(down, s, p);
  }

  lemma {:induction false} PathStaysIn(down: seq<seq<nat>>, s: set<nat>, p: seq<nat>)
    requires Closed(down, s) && IsPath(down, p) && p[0] in s
    ensures p[|p| - 1] in s
    decreases |p|
  {
    if |p| > 1 {
      var p' := p[..|p| - 1];
      assert IsPath(down, p');
      PathStaysIn(down, s, p');
      assert p[|p| - 1] in down[p'[|p'| - 1]];
    }
  }
}
