/** Task dependency graphs: what a cycle is, and how to find one. */
module TaskGraph {

  datatype Status = Pending | InProgress | Done | Blocked | Failed

  datatype Task = Task(dependsOn: seq<string>, status: Status)

  type Tasks = map<string, Task>

  predicate DependsOn(tasks: Tasks, t: string, d: string) {
    t in tasks && d in tasks[t].dependsOn
  }

  predicate Link(tasks: Tasks, p: seq<string>, i: nat)
    requires i + 1 < |p|
  {
    DependsOn(tasks, p[i], p[i + 1])
  }

  ghost predicate IsPath(tasks: Tasks, p: seq<string>) {
    |p| >= 1 && forall i: nat :: i + 1 < |p| ==> Link(tasks, p, i)
  }

  lemma PathCons(tasks: Tasks, t: string, p: seq<string>)
    requires IsPath(tasks, p) && DependsOn(tasks, t, p[0])
    ensures IsPath(tasks, [t] + p)
  {
    var q := [t] + p;
    forall i: nat | i + 1 < |q|
      ensures Link(tasks, q, i)
    {
      if i > 0 {
        assert Link(tasks, p, i - 1);
      }
    }
  }

  lemma PathSlice(tasks: Tasks, p: seq<string>, i: nat, j: nat)
    requires IsPath(tasks, p) && i < j <= |p|
    ensures IsPath(tasks, p[i..j])
  {
    forall k: nat | k + 1 < j - i
      ensures Link(tasks, p[i..j], k)
    {
      assert Link(tasks, p, i + k);
    }
  }

  ghost predicate IsCycle(tasks: Tasks, p: seq<string>) {
    |p| >= 2 && IsPath(tasks, p) && p[0] == p[|p| - 1]
  }

  ghost predicate Acyclic(tasks: Tasks) {
    forall p :: !IsCycle(tasks, p)
  }

  ghost predicate AllNamed(tasks: Tasks) {
    forall t, d :: DependsOn(tasks, t, d) ==> d in tasks
  }

  // ---- A set in which every task waits for another contains a cycle ----

  ghost predicate WaitsFor(tasks: Tasks, t: string, u: set<string>) {
    exists d :: d in u && DependsOn(tasks, t, d)
  }

  ghost predicate Stuck(tasks: Tasks, u: set<string>) {
    forall t :: t in u ==> WaitsFor(tasks, t, u)
  }

  lemma {:induction false} Walk(tasks: Tasks, u: set<string>, t: string, n: nat) returns (p: seq<string>)
    requires Stuck(tasks, u) && t in u
    ensures |p| == n + 1 && p[0] == t && IsPath(tasks, p) && forall x :: x in p ==> x in u
    decreases n
  {
    if n == 0 {
      p := [t];
    } else {
      assert WaitsFor(tasks, t, u);
      var d :| d in u && DependsOn(tasks, t, d);
      var rest := Walk(tasks, u, d, n - 1);
      PathCons(tasks, t, rest);
      p := [t] + rest;
    }
  }

  /** More names than the set has elements: one of them repeats. */
  lemma {:induction false} Pigeonhole(p: seq<string>, u: set<string>) returns (i: nat, j: nat)
    requires |p| > |u| && forall x :: x in p ==> x in u
    ensures i < j < |p| && p[i] == p[j]
    decreases |p|
  {
    assert p[0] in p;
    if p[0] in p[1..] {
      var k :| 0 <= k < |p| - 1 && p[1..][k] == p[0];
      return 0, k + 1;
    }
    forall x | x in p[1..]
      ensures x in u - {p[0]}
    {
      assert x in p;
    }
    var i', j' := Pigeonhole(p[1..], u - {p[0]});
    i, j := i' + 1, j' + 1;
  }

  lemma RepeatIsCycle(tasks: Tasks, p: seq<string>, i: nat, j: nat)
    requires IsPath(tasks, p) && i < j < |p| && p[i] == p[j]
    ensures !Acyclic(tasks)
  {
    PathSlice(tasks, p, i, j + 1);
    assert IsCycle(tasks, p[i..j + 1]);
  }

  lemma StuckSetHasCycle(tasks: Tasks, u: set<string>)
    requires Stuck(tasks, u) && u != {}
    ensures !Acyclic(tasks)
  {
    var t :| t in u;
    var p := Walk(tasks, u, t, |u|);
    var i, j := Pigeonhole(p, u);
    RepeatIsCycle(tasks, p, i, j);
  }

  // ---- An order in which dependencies come first rules cycles out ----

  ghost predicate ReadyAt(tasks: Tasks, order: seq<string>, i: nat)
    requires i < |order|
  {
    forall d :: DependsOn(tasks, order[i], d) ==> d in order[..i]
  }

  ghost predicate DependenciesFirst(tasks: Tasks, order: seq<string>) {
    forall i: nat :: i < |order| ==> ReadyAt(tasks, order, i)
  }

  ghost function Position(order: seq<string>, t: string): (i: nat)
    requires t in order
    ensures i < |order| && order[i] == t && t !in order[..i]
  {
    if order[0] == t then 0
    else
      var rest := Position(order[1..], t);
      assert order[..rest + 1] == [order[0]] + order[1..][..rest];
      rest + 1
  }

  lemma PositionFalls(tasks: Tasks, order: seq<string>, t: string, d: string)
    requires DependenciesFirst(tasks, order) && t in order && DependsOn(tasks, t, d)
    ensures d in order && Position(order, d) < Position(order, t)
  {
    var i := Position(order, t);
    assert ReadyAt(tasks, order, i);
    var k :| 0 <= k < i && order[..i][k] == d;
    var before := order[..Position(order, d)];
    assert forall m :: 0 <= m < |before| ==> before[m] in before && before[m] == order[m];
  }

  lemma {:induction false} PositionsFall(tasks: Tasks, order: seq<string>, p: seq<string>)
    requires DependenciesFirst(tasks, order) && IsPath(tasks, p) && p[0] in order
    ensures p[|p| - 1] in order
    ensures Position(order, p[|p| - 1]) <= Position(order, p[0]) - (|p| - 1)
  {
    if |p| >= 2 {
      assert Link(tasks, p, 0);
      PositionFalls(tasks, order, p[0], p[1]);
      PathSlice(tasks, p, 1, |p|);
      assert p[1..|p|] == p[1..];
      PositionsFall(tasks, order, p[1..]);
    }
  }

  lemma OrderedIsAcyclic(tasks: Tasks, order: seq<string>)
    requires DependenciesFirst(tasks, order) && forall t :: t in tasks ==> t in order
    ensures Acyclic(tasks)
  {
    forall p | IsCycle(tasks, p)
      ensures false
    {
      assert Link(tasks, p, 0);
      PositionsFall(tasks, order, p);
    }
  }
}
