/** Validating an execution plan with Kahn's algorithm. */
module Planner {
  import opened TaskGraph
  import opened Ordered

  datatype PlanningError =
    | MissingDependency(task: string, dependency: string)
    | CycleDetected

  datatype Validation = Valid | Invalid(error: PlanningError)

  // ---- Counting open dependencies ----

  /** How many dependency entries are not done yet; duplicates count each time. */
  function Open(deps: seq<string>, done: set<string>): nat {
    if deps == [] then 0 else (if deps[0] in done then 0 else 1) + Open(deps[1..], done)
  }

  lemma {:induction false} OpenZero(deps: seq<string>, done: set<string>)
    ensures Open(deps, done) == 0 <==> forall d :: d in deps ==> d in done
  {
    if deps != [] {
      OpenZero(deps[1..], done);
      assert deps == [deps[0]] + deps[1..];
    }
  }

  lemma {:induction false} OpenAfter(deps: seq<string>, done: set<string>, node: string)
    requires node !in done
    ensures Open(deps, done) == Open(deps, done + {node}) + multiset(deps)[node]
  {
    if deps != [] {
      OpenAfter(deps[1..], done, node);
      assert deps == [deps[0]] + deps[1..];
    }
  }

  lemma {:induction false} OpenNothingDone(deps: seq<string>)
    ensures Open(deps, {}) == |deps|
  {
    if deps != [] {
      OpenNothingDone(deps[1..]);
    }
  }

  // ---- The tables ----

  function Targets(edges: map<string, seq<string>>, d: string): seq<string> {
    if d in edges then edges[d] else []
  }

  ghost function Entries(tasks: Tasks, keys: seq<string>, t: string, d: string): nat {
    if t in keys && t in tasks then multiset(tasks[t].dependsOn)[d] else 0
  }

  /** How many edges lead from d back to x. */
  ghost function EdgeCount(edges: map<string, seq<string>>, x: string, d: string): nat {
    multiset(Targets(edges, d))[x]
  }

  /** Every dependency entry of the tasks in keys appears once as an edge back to
      its task. */
  ghost predicate EdgesMirror(tasks: Tasks, edges: map<string, seq<string>>, keys: seq<string>) {
    forall t, d :: EdgeCount(edges, t, d) == Entries(tasks, keys, t, d)
  }

  ghost predicate Counted(tasks: Tasks, indegree: map<string, nat>, keys: seq<string>) {
    && indegree.Keys == tasks.Keys
    && forall t :: t in tasks ==> indegree[t] == if t in keys then |tasks[t].dependsOn| else 0
  }

  /** The edges while task t is entered: those of its first entries, deps, are in. */
  ghost predicate EdgesSoFar(edges: map<string, seq<string>>, edges0: map<string, seq<string>>,
                             t: string, deps: seq<string>) {
    forall x, d :: EdgeCount(edges, x, d) == if x == t then multiset(deps)[d] else EdgeCount(edges0, x, d)
  }

  lemma NoEdgeYet(tasks: Tasks, edges: map<string, seq<string>>, keys: seq<string>, t: string)
    requires EdgesMirror(tasks, edges, keys) && t !in keys
    ensures EdgesSoFar(edges, edges, t, [])
  {
  }

  lemma CountWithOneMore(s: seq<string>, x: string, y: string)
    ensures multiset(s + [x])[y] == multiset(s)[y] + if x == y then 1 else 0
  {
  }

  lemma EdgeCountAfter(edges: map<string, seq<string>>, t: string, dep: string, x: string, d: string)
    ensures EdgeCount(edges[dep := Targets(edges, dep) + [t]], x, d)
            == EdgeCount(edges, x, d) + if x == t && d == dep then 1 else 0
  {
    if d == dep {
      CountWithOneMore(Targets(edges, dep), t, x);
    }
  }

  lemma NextEdge(edges: map<string, seq<string>>, edges0: map<string, seq<string>>, t: string,
                 deps: seq<string>, dep: string)
    requires EdgesSoFar(edges, edges0, t, deps)
    ensures EdgesSoFar(edges[dep := Targets(edges, dep) + [t]], edges0, t, deps + [dep])
  {
    var more := edges[dep := Targets(edges, dep) + [t]];
    forall x, d
      ensures EdgeCount(more, x, d) == if x == t then multiset(deps + [dep])[d] else EdgeCount(edges0, x, d)
    {
      EdgeCountAfter(edges, t, dep, x, d);
      CountWithOneMore(deps, dep, d);
    }
  }

  lemma EdgesDone(tasks: Tasks, edges: map<string, seq<string>>, edges0: map<string, seq<string>>,
                  keys: seq<string>, t: string)
    requires t in tasks && EdgesMirror(tasks, edges0, keys)
    requires EdgesSoFar(edges, edges0, t, tasks[t].dependsOn)
    ensures EdgesMirror(tasks, edges, keys + [t])
  {
    forall x, d
      ensures EdgeCount(edges, x, d) == Entries(tasks, keys + [t], x, d)
    {
      assert x in keys + [t] <==> x in keys || x == t;
    }
  }

  /** Enter the dependencies of one task into both tables. */
  method AddTask(tasks: Tasks, t: string, indegree0: map<string, nat>, edges0: map<string, seq<string>>,
                 ghost keys: seq<string>)
    returns (indegree: map<string, nat>, edges: map<string, seq<string>>)
    requires t in tasks && t !in keys
    requires Counted(tasks, indegree0, keys) && EdgesMirror(tasks, edges0, keys)
    ensures Counted(tasks, indegree, keys + [t]) && EdgesMirror(tasks, edges, keys + [t])
  {
    indegree, edges := indegree0, edges0;
    var deps := tasks[t].dependsOn;
    NoEdgeYet(tasks, edges, keys, t);
    for j := 0 to |deps|
      invariant indegree == indegree0[t := j]
      invariant EdgesSoFar(edges, edges0, t, deps[..j])
    {
      var d := deps[j];
      NextEdge(edges, edges0, t, deps[..j], d);
      assert deps[..j + 1] == deps[..j] + [d];
      edges := edges[d := Targets(edges, d) + [t]];
      indegree := indegree[t := indegree[t] + 1];
    }
    assert deps[..|deps|] == deps;
    EdgesDone(tasks, edges, edges0, keys, t);
  }

  method FindMissing(tasks: Tasks, keys: seq<string>) returns (r: Validation)
    requires forall k :: k in keys <==> k in tasks
    ensures r == Valid <==> AllNamed(tasks)
    ensures r.Invalid? ==> (
              && r.error.MissingDependency?
              && DependsOn(tasks, r.error.task, r.error.dependency) && r.error.dependency !in tasks)
  {
    for i := 0 to |keys|
      invariant forall t, d :: t in keys[..i] && DependsOn(tasks, t, d) ==> d in tasks
    {
      var deps := tasks[keys[i]].dependsOn;
      assert keys[..i + 1] == keys[..i] + [keys[i]];
      for j := 0 to |deps|
        invariant forall d :: d in deps[..j] ==> d in tasks
      {
        if deps[j] !in tasks {
          assert DependsOn(tasks, keys[i], deps[j]);
          return Invalid(MissingDependency(keys[i], deps[j]));
        }
        assert deps[..j + 1] == deps[..j] + [deps[j]];
      }
      assert deps[..|deps|] == deps;
    }
    assert keys[..|keys|] == keys;
    r := Valid;
  }

  lemma NotBefore(keys: seq<string>, i: nat)
    requires StrictlySorted(keys) && i < |keys|
    ensures keys[i] !in keys[..i]
  {
    LessIrreflexive(keys[i]);
    forall k | 0 <= k < i
      ensures keys[k] != keys[i]
    {
      assert Less(keys[k], keys[i]);
    }
  }

  method BuildTables(tasks: Tasks, keys: seq<string>)
    returns (indegree: map<string, nat>, edges: map<string, seq<string>>)
    requires StrictlySorted(keys) && forall k :: k in keys <==> k in tasks
    ensures Counted(tasks, indegree, keys) && EdgesMirror(tasks, edges, keys)
  {
    indegree := map t | t in tasks :: 0;
    edges := map[];
    for i := 0 to |keys|
      invariant Counted(tasks, indegree, keys[..i]) && EdgesMirror(tasks, edges, keys[..i])
    {
      var t := keys[i];
      NotBefore(keys, i);
      assert keys[..i + 1] == keys[..i] + [t];
      assert t in keys;
      indegree, edges := AddTask(tasks, t, indegree, edges, keys[..i]);
    }
    assert keys[..|keys|] == keys;
  }

  // ---- The queue loop ----

  ghost predicate NoDuplicates(s: seq<string>) {
    forall i, j :: 0 <= i < j < |s| ==> s[i] != s[j]
  }

  /** In-degrees count the dependencies not visited, plus the edges pending of the
      last visited task that are still to be taken off. */
  ghost predicate Counts(tasks: Tasks, indegree: map<string, nat>, seen: set<string>, pending: seq<string>) {
    && indegree.Keys == tasks.Keys
    && forall t :: t in tasks ==> indegree[t] == Open(tasks[t].dependsOn, seen) + multiset(pending)[t]
  }

  /** A task is visited or queued exactly when nothing holds it back. */
  ghost predicate Lists(tasks: Tasks, indegree: map<string, nat>, queue: seq<string>, order: seq<string>)
    requires indegree.Keys == tasks.Keys
  {
    && NoDuplicates(order) && NoDuplicates(queue)
    && (forall t :: t in order ==> t in tasks && t !in queue)
    && (forall t :: t in queue ==> t in tasks && indegree[t] == 0)
    && (forall t :: t in tasks && indegree[t] == 0 ==> t in order || t in queue)
  }

  ghost predicate QueueInv(tasks: Tasks, indegree: map<string, nat>, queue: seq<string>,
                           order: seq<string>, pending: seq<string>) {
    && Counts(tasks, indegree, Seen(order), pending)
    && Lists(tasks, indegree, queue, order)
    && DependenciesFirst(tasks, order)
  }

  ghost function Seen(order: seq<string>): set<string> {
    set t | t in order
  }

  lemma SeenAppend(order: seq<string>, node: string)
    ensures Seen(order + [node]) == Seen(order) + {node}
  {
  }

  lemma SeenSize(order: seq<string>)
    requires NoDuplicates(order)
    ensures |Seen(order)| == |order|
  {
    if order != [] {
      var init := order[..|order| - 1];
      SeenSize(init);
      assert Seen(order) == Seen(init) + {order[|order| - 1]};
    }
  }

  lemma VisitCounts(tasks: Tasks, indegree: map<string, nat>, seen: set<string>, node: string,
                    edges: map<string, seq<string>>)
    requires Counts(tasks, indegree, seen, []) && node !in seen
    requires EdgesMirror(tasks, edges, Ordered.SortedKeys(tasks.Keys))
    ensures Counts(tasks, indegree, seen + {node}, Targets(edges, node))
  {
    forall t | t in tasks
      ensures indegree[t] == Open(tasks[t].dependsOn, seen + {node}) + multiset(Targets(edges, node))[t]
    {
      OpenAfter(tasks[t].dependsOn, seen, node);
      assert Entries(tasks, Ordered.SortedKeys(tasks.Keys), t, node) == multiset(tasks[t].dependsOn)[node];
    }
  }

  lemma VisitOrder(tasks: Tasks, order: seq<string>, node: string)
    requires DependenciesFirst(tasks, order) && node in tasks
    requires forall d :: d in tasks[node].dependsOn ==> d in order
    ensures DependenciesFirst(tasks, order + [node])
  {
    var after := order + [node];
    forall i: nat | i < |after|
      ensures ReadyAt(tasks, after, i)
    {
      assert after[..i] == order[..i];
      if i < |order| {
        assert ReadyAt(tasks, order, i);
      } else {
        assert order[..i] == order;
      }
    }
  }

  lemma VisitLists(tasks: Tasks, indegree: map<string, nat>, queue: seq<string>, order: seq<string>)
    requires indegree.Keys == tasks.Keys && Lists(tasks, indegree, queue, order) && queue != []
    ensures Lists(tasks, indegree, queue[1..], order + [queue[0]])
  {
    assert queue == [queue[0]] + queue[1..];
    assert forall t :: t in queue <==> t == queue[0] || t in queue[1..];
    assert queue[0] in queue;
  }

  lemma QueuedIsReady(tasks: Tasks, indegree: map<string, nat>, queue: seq<string>, order: seq<string>, node: string)
    requires Counts(tasks, indegree, Seen(order), []) && Lists(tasks, indegree, queue, order) && node in queue
    ensures node in tasks && node !in Seen(order)
    ensures forall d :: d in tasks[node].dependsOn ==> d in order
  {
    OpenZero(tasks[node].dependsOn, Seen(order));
  }

  /** Visiting the front of the queue turns its edges into pending decrements. */
  lemma Visit(tasks: Tasks, indegree: map<string, nat>, queue: seq<string>, order: seq<string>,
              edges: map<string, seq<string>>)
    requires QueueInv(tasks, indegree, queue, order, []) && queue != []
    requires EdgesMirror(tasks, edges, Ordered.SortedKeys(tasks.Keys))
    ensures QueueInv(tasks, indegree, queue[1..], order + [queue[0]], Targets(edges, queue[0]))
  {
    var node := queue[0];
    QueuedIsReady(tasks, indegree, queue, order, node);
    SeenAppend(order, node);
    VisitCounts(tasks, indegree, Seen(order), node, edges);
    VisitLists(tasks, indegree, queue, order);
    VisitOrder(tasks, order, node);
  }

  lemma DecrementCounts(tasks: Tasks, indegree: map<string, nat>, seen: set<string>, pending: seq<string>)
    requires Counts(tasks, indegree, seen, pending) && pending != [] && pending[0] in tasks
    ensures indegree[pending[0]] > 0
    ensures Counts(tasks, indegree[pending[0] := indegree[pending[0]] - 1], seen, pending[1..])
  {
    assert pending == [pending[0]] + pending[1..];
  }

  lemma DecrementLists(tasks: Tasks, indegree: map<string, nat>, queue: seq<string>, order: seq<string>, n: string)
    requires indegree.Keys == tasks.Keys && Lists(tasks, indegree, queue, order)
    requires n in tasks && indegree[n] > 0 && n !in order
    ensures var less := indegree[n := indegree[n] - 1];
            Lists(tasks, less, if less[n] == 0 then queue + [n] else queue, order)
  {
  }

  /** Taking one pending edge off never drops below zero, and keeps the invariant. */
  lemma Decrement(tasks: Tasks, indegree: map<string, nat>, queue: seq<string>, order: seq<string>, pending: seq<string>)
    requires QueueInv(tasks, indegree, queue, order, pending) && pending != [] && pending[0] in tasks
    requires pending[0] !in order
    ensures indegree[pending[0]] > 0
    ensures var n := pending[0];
            var less := indegree[n := indegree[n] - 1];
            QueueInv(tasks, less, if less[n] == 0 then queue + [n] else queue, order, pending[1..])
  {
    var n := pending[0];
    DecrementCounts(tasks, indegree, Seen(order), pending);
    DecrementLists(tasks, indegree, queue, order, n);
  }

  /** No edge leads back to a task that has been visited. */
  lemma NoEdgeBack(tasks: Tasks, edges: map<string, seq<string>>, order: seq<string>, node: string)
    requires DependenciesFirst(tasks, order + [node]) && NoDuplicates(order + [node])
    requires EdgesMirror(tasks, edges, Ordered.SortedKeys(tasks.Keys))
    ensures forall t :: t in Targets(edges, node) ==> t !in order + [node]
  {
    var after := order + [node];
    forall t | t in after
      ensures t !in Targets(edges, node)
    {
      var i :| 0 <= i < |after| && after[i] == t;
      LastNotBefore(order, node, i);
      assert ReadyAt(tasks, after, i);
      assert EdgeCount(edges, t, node) == Entries(tasks, Ordered.SortedKeys(tasks.Keys), t, node) == 0;
    }
  }

  lemma LastNotBefore(order: seq<string>, node: string, i: nat)
    requires NoDuplicates(order + [node]) && i <= |order|
    ensures node !in (order + [node])[..i]
  {
    var after := order + [node];
    assert forall k :: 0 <= k < i ==> after[..i][k] == after[k] && after[k] != after[|order|];
  }

  method Relax(tasks: Tasks, neighbors: seq<string>, indegree0: map<string, nat>, queue0: seq<string>, ghost order: seq<string>)
    returns (indegree: map<string, nat>, queue: seq<string>)
    requires QueueInv(tasks, indegree0, queue0, order, neighbors)
    requires forall n :: n in neighbors ==> n in tasks && n !in order
    ensures QueueInv(tasks, indegree, queue, order, [])
  {
    indegree, queue := indegree0, queue0;
    assert neighbors[0..] == neighbors;
    for k := 0 to |neighbors|
      invariant QueueInv(tasks, indegree, queue, order, neighbors[k..])
    {
      var n := neighbors[k];
      assert neighbors[k..][0] == n;
      Decrement(tasks, indegree, queue, order, neighbors[k..]);
      assert neighbors[k..][1..] == neighbors[k + 1..];
      indegree := indegree[n := indegree[n] - 1];
      if indegree[n] == 0 {
        queue := queue + [n];
      }
    }
    assert neighbors[|neighbors|..] == [];
  }

  lemma TargetsAreTasks(tasks: Tasks, edges: map<string, seq<string>>, d: string)
    requires EdgesMirror(tasks, edges, Ordered.SortedKeys(tasks.Keys))
    ensures forall n :: n in Targets(edges, d) ==> n in tasks
  {
    forall n | n in Targets(edges, d)
      ensures n in tasks
    {
      assert multiset(Targets(edges, d))[n] > 0;
      assert Entries(tasks, Ordered.SortedKeys(tasks.Keys), n, d) > 0;
    }
  }

  /** When the queue runs dry early, the tasks never visited wait for each other. */
  lemma UnvisitedAreStuck(tasks: Tasks, indegree: map<string, nat>, order: seq<string>)
    requires AllNamed(tasks) && QueueInv(tasks, indegree, [], order, [])
    ensures Stuck(tasks, tasks.Keys - Seen(order))
  {
    var u := tasks.Keys - Seen(order);
    forall t | t in u
      ensures WaitsFor(tasks, t, u)
    {
      OpenZero(tasks[t].dependsOn, Seen(order));
      var d :| d in tasks[t].dependsOn && d !in Seen(order);
      assert DependsOn(tasks, t, d);
      assert d in u;
    }
  }

  lemma VerdictIsRight(tasks: Tasks, indegree: map<string, nat>, order: seq<string>)
    requires AllNamed(tasks) && QueueInv(tasks, indegree, [], order, [])
    ensures |order| == |tasks| <==> Acyclic(tasks)
  {
    SeenSize(order);
    assert Seen(order) <= tasks.Keys;
    assert |tasks.Keys| == |tasks|;
    if Seen(order) == tasks.Keys {
      OrderedIsAcyclic(tasks, order);
    } else {
      var u := tasks.Keys - Seen(order);
      assert tasks.Keys == Seen(order) + u;
      UnvisitedAreStuck(tasks, indegree, order);
      StuckSetHasCycle(tasks, u);
    }
  }

  method InitialQueue(tasks: Tasks, keys: seq<string>, indegree: map<string, nat>) returns (queue: seq<string>)
    requires StrictlySorted(keys) && (forall k :: k in keys <==> k in tasks)
    requires Counted(tasks, indegree, keys)
    ensures QueueInv(tasks, indegree, queue, [], [])
  {
    queue := [];
    for i := 0 to |keys|
      invariant NoDuplicates(queue)
      invariant forall t :: t in queue <==> t in keys[..i] && indegree[t] == 0
    {
      assert keys[i] !in keys[..i] by {
        LessIrreflexive(keys[i]);
      }
      assert keys[..i + 1] == keys[..i] + [keys[i]];
      if indegree[keys[i]] == 0 {
        queue := queue + [keys[i]];
      }
    }
    assert keys[..|keys|] == keys;
    forall t | t in tasks
      ensures indegree[t] == Open(tasks[t].dependsOn, Seen([]))
    {
      OpenNothingDone(tasks[t].dependsOn);
      assert Seen([]) == {};
    }
  }

  /** A plan is valid exactly when every dependency names a task and no task depends
      on itself through any chain; a missing name is reported before a cycle. */
  method Validate(tasks: Tasks) returns (r: Validation)
    ensures r == Valid <==> AllNamed(tasks) && Acyclic(tasks)
    ensures r == Invalid(CycleDetected) <==> AllNamed(tasks) && !Acyclic(tasks)
    ensures r.Invalid? && r.error.MissingDependency? ==> (
              && DependsOn(tasks, r.error.task, r.error.dependency) && r.error.dependency !in tasks)
  {
    var keys := SortedKeys(tasks.Keys);
    r := FindMissing(tasks, keys);
    if r != Valid {
      return;
    }
    var indegree, edges := BuildTables(tasks, keys);
    var queue := InitialQueue(tasks, keys, indegree);
    var visited := 0;
    ghost var order := [];
    while queue != []
      invariant QueueInv(tasks, indegree, queue, order, [])
      invariant visited == |order| <= |tasks|
      decreases |tasks| - |order|
    {
      var node := queue[0];
      Visit(tasks, indegree, queue, order, edges);
      TargetsAreTasks(tasks, edges, node);
      NoEdgeBack(tasks, edges, order, node);
      order := order + [node];
      SeenSize(order);
      CardinalitySubset(Seen(order), tasks.Keys);
      visited := visited + 1;
      indegree, queue := Relax(tasks, Targets(edges, node), indegree, queue[1..], order);
    }
    VerdictIsRight(tasks, indegree, order);
    if visited != |tasks| {
      return Invalid(CycleDetected);
    }
    r := Valid;
  }

  lemma CardinalitySubset(a: set<string>, b: set<string>)
    requires a <= b
    ensures |a| <= |b|
  {
    assert b == a + (b - a);
  }
}
