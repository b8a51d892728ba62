/** Scheduling ready tasks of a valid plan, round after round. */
module Scheduler {
  import opened TaskGraph
  import opened Ordered
  import opened Planner

  datatype Constraints = Constraints(maxParallel: nat, blocked: set<string>)

  datatype Scheduled = Batch(ids: seq<string>) | Refused(error: PlanningError)

  predicate DependenciesDone(tasks: Tasks, t: string)
    requires t in tasks
  {
    forall d :: d in tasks[t].dependsOn ==> d in tasks && tasks[d].status == Done
  }

  predicate IsReady(tasks: Tasks, c: Constraints, t: string) {
    t in tasks && tasks[t].status == Pending && t !in c.blocked && DependenciesDone(tasks, t)
  }

  function ReadyTasks(tasks: Tasks, c: Constraints): set<string> {
    set t | t in tasks && IsReady(tasks, c, t)
  }

  /** The ready tasks in id order, as many as may run in parallel. */
  function Next(tasks: Tasks, c: Constraints): seq<string> {
    var ready := SortedKeys(ReadyTasks(tasks, c));
    if |ready| <= c.maxParallel then ready else ready[..c.maxParallel]
  }

  method CollectReady(tasks: Tasks, c: Constraints) returns (ready: seq<string>)
    ensures ready == SortedKeys(ReadyTasks(tasks, c))
  {
    ready := [];
    var keys := SortedKeys(tasks.Keys);
    ghost var chosen := ReadyTasks(tasks, c);
    for i := 0 to |keys|
      invariant PickedSoFar(ready, keys, i, chosen)
    {
      assert keys[i] in keys;
      PickNext(ready, keys, i, chosen);
      if tasks[keys[i]].status == Pending && keys[i] !in c.blocked && DependenciesDone(tasks, keys[i]) {
        ready := ready + [keys[i]];
      }
    }
    PickedAll(ready, keys, chosen);
  }

  /** What may start: a pending task that is not blocked and has nothing left to wait for. */
  ghost predicate MayStart(tasks: Tasks, blocked: set<string>, t: string) {
    t in tasks && tasks[t].status == Pending && t !in blocked
    && forall d :: d in tasks[t].dependsOn ==> d in tasks && tasks[d].status == Done
  }

  /** A batch in id order, of tasks that may start, no larger than allowed; a task that may
      start is left out only of a full batch, and then comes after all its members. */
  ghost predicate RightBatch(tasks: Tasks, c: Constraints, ids: seq<string>) {
    && StrictlySorted(ids) && |ids| <= c.maxParallel
    && (forall t :: t in ids ==> MayStart(tasks, c.blocked, t))
    && (forall t :: MayStart(tasks, c.blocked, t) && t !in ids ==>
          |ids| == c.maxParallel && forall u :: u in ids ==> Less(u, t))
  }

  lemma LeftOutComesLater(ready: seq<string>, n: nat, t: string)
    requires StrictlySorted(ready) && n <= |ready| && t in ready && t !in ready[..n]
    ensures n < |ready| && forall u :: u in ready[..n] ==> Less(u, t)
  {
    var i :| 0 <= i < |ready| && ready[i] == t;
    assert forall k :: 0 <= k < n ==> ready[..n][k] == ready[k];
  }

  lemma NextIsRight(tasks: Tasks, c: Constraints)
    ensures RightBatch(tasks, c, Next(tasks, c))
  {
    NextIsReady(tasks, c);
    var ready := SortedKeys(ReadyTasks(tasks, c));
    var n := if |ready| <= c.maxParallel then |ready| else c.maxParallel;
    assert Next(tasks, c) == ready[..n];
    forall t | MayStart(tasks, c.blocked, t) && t !in ready[..n]
      ensures n == c.maxParallel && forall u :: u in ready[..n] ==> Less(u, t)
    {
      assert t in ready;
      LeftOutComesLater(ready, n, t);
    }
  }

  method ScheduleNextReadyTasks(tasks: Tasks, c: Constraints) returns (r: Scheduled)
    ensures r.Batch? <==> AllNamed(tasks) && Acyclic(tasks)
    ensures r.Batch? ==> r.ids == Next(tasks, c)
    ensures r.Batch? ==> RightBatch(tasks, c, r.ids)
  {
    NextIsRight(tasks, c);
    var validation := Validate(tasks);
    if validation.Invalid? {
      return Refused(validation.error);
    }
    if c.maxParallel == 0 {
      return Batch([]);
    }
    var ready := CollectReady(tasks, c);
    r := Batch(if |ready| <= c.maxParallel then ready else ready[..c.maxParallel]);
  }

  lemma NextIsReady(tasks: Tasks, c: Constraints)
    ensures |Next(tasks, c)| <= c.maxParallel && StrictlySorted(Next(tasks, c))
    ensures forall t :: t in Next(tasks, c) ==> IsReady(tasks, c, t)
    ensures c.maxParallel > 0 && ReadyTasks(tasks, c) != {} ==> Next(tasks, c) != []
  {
    var ready := SortedKeys(ReadyTasks(tasks, c));
    TakeKeepsSorted(ready, if |ready| <= c.maxParallel then |ready| else c.maxParallel);
    assert ready[..|ready|] == ready;
  }

  lemma TakeKeepsSorted(s: seq<string>, n: nat)
    requires StrictlySorted(s) && n <= |s|
    ensures StrictlySorted(s[..n]) && forall t :: t in s[..n] ==> t in s
  {
  }

  // ---- When nothing can be scheduled ----

  /** Something other than an unfinished dependency stops this task or stops it from
      ever counting as done. */
  predicate Obstacle(tasks: Tasks, c: Constraints, t: string) {
    t in tasks && tasks[t].status != Done && (tasks[t].status != Pending || t in c.blocked)
  }

  /** A chain of pending tasks, each waiting for the next, that ends in an obstacle. */
  ghost predicate HeldUpBy(tasks: Tasks, c: Constraints, p: seq<string>) {
    && IsPath(tasks, p)
    && Obstacle(tasks, c, p[|p| - 1])
    && forall i :: 0 <= i < |p| - 1 ==> p[i] in tasks && tasks[p[i]].status == Pending
  }

  ghost predicate HeldUp(tasks: Tasks, c: Constraints, t: string) {
    exists p :: HeldUpBy(tasks, c, p) && p[0] == t
  }

  lemma HeldUpThrough(tasks: Tasks, c: Constraints, t: string, d: string)
    requires t in tasks && tasks[t].status == Pending && DependsOn(tasks, t, d) && HeldUp(tasks, c, d)
    ensures HeldUp(tasks, c, t)
  {
    var p :| HeldUpBy(tasks, c, p) && p[0] == d;
    PathCons(tasks, t, p);
    assert HeldUpBy(tasks, c, [t] + p);
  }

  lemma ObstacleHoldsUp(tasks: Tasks, c: Constraints, t: string)
    requires Obstacle(tasks, c, t)
    ensures HeldUp(tasks, c, t)
  {
    assert HeldUpBy(tasks, c, [t]);
  }

  ghost function FreePending(tasks: Tasks, c: Constraints): set<string> {
    set t | t in tasks && tasks[t].status == Pending && !HeldUp(tasks, c, t)
  }

  /** A pending task that neither is ready nor is held up waits for another such one. */
  lemma FreePendingWaits(tasks: Tasks, c: Constraints, t: string)
    requires AllNamed(tasks) && t in FreePending(tasks, c) && !IsReady(tasks, c, t)
    ensures WaitsFor(tasks, t, FreePending(tasks, c))
  {
    if t in c.blocked {
      ObstacleHoldsUp(tasks, c, t);
    }
    var d :| d in tasks[t].dependsOn && !(d in tasks && tasks[d].status == Done);
    assert DependsOn(tasks, t, d);
    if HeldUp(tasks, c, d) {
      HeldUpThrough(tasks, c, t, d);
    } else if tasks[d].status != Pending {
      ObstacleHoldsUp(tasks, c, d);
    }
    assert d in FreePending(tasks, c);
  }

  lemma ReadyIsNotHeldUp(tasks: Tasks, c: Constraints, t: string)
    requires IsReady(tasks, c, t)
    ensures !HeldUp(tasks, c, t)
  {
    forall p | IsPath(tasks, p) && p[0] == t
      ensures !HeldUpBy(tasks, c, p)
    {
      if |p| > 1 {
        assert Link(tasks, p, 0);
        assert tasks[p[1]].status == Done;
      }
    }
  }

  /** On a valid plan a scheduler that may run anything at all comes back empty
      exactly when every pending task is held up: a chain of unfinished
      dependencies leads from it to a blocked, failed or running task. */
  lemma EmptyBatchIff(tasks: Tasks, c: Constraints)
    requires AllNamed(tasks) && Acyclic(tasks) && c.maxParallel > 0
    ensures Next(tasks, c) == []
            <==> forall t :: t in tasks && tasks[t].status == Pending ==> HeldUp(tasks, c, t)
  {
    NextIsReady(tasks, c);
    if ReadyTasks(tasks, c) != {} {
      var t :| t in ReadyTasks(tasks, c);
      ReadyIsNotHeldUp(tasks, c, t);
    } else {
      var u := FreePending(tasks, c);
      forall t | t in u
        ensures WaitsFor(tasks, t, u)
      {
        assert t !in ReadyTasks(tasks, c);
        FreePendingWaits(tasks, c, t);
      }
      if u != {} {
        StuckSetHasCycle(tasks, u);
      }
      assert forall t :: t in tasks && tasks[t].status == Pending ==> t in u || HeldUp(tasks, c, t);
      assert SortedKeys({}) == [];
    }
  }

  // ---- Rounds: schedule a batch, complete it, schedule again ----

  function Complete(tasks: Tasks, batch: seq<string>): Tasks {
    map t | t in tasks :: if t in batch then tasks[t].(status := Done) else tasks[t]
  }

  predicate RoundAt(states: seq<Tasks>, c: Constraints, i: nat)
    requires i + 1 < |states|
  {
    states[i + 1] == Complete(states[i], Next(states[i], c))
  }

  ghost predicate IsExecution(states: seq<Tasks>, c: Constraints) {
    |states| >= 1 && forall i: nat :: i + 1 < |states| ==> RoundAt(states, c, i)
  }

  function PendingTasks(tasks: Tasks): set<string> {
    set t | t in tasks && tasks[t].status == Pending
  }

  ghost predicate SameGraph(a: Tasks, b: Tasks) {
    a.Keys == b.Keys && forall t :: t in a ==> a[t].dependsOn == b[t].dependsOn
  }

  lemma SameGraphKeepsValidity(a: Tasks, b: Tasks)
    requires SameGraph(a, b) && AllNamed(a) && Acyclic(a)
    ensures AllNamed(b) && Acyclic(b)
  {
    forall t, d | DependsOn(b, t, d)
      ensures d in b
    {
      assert DependsOn(a, t, d);
    }
    forall p
      ensures !IsCycle(b, p)
    {
      if IsCycle(b, p) {
        forall i: nat | i + 1 < |p|
          ensures Link(a, p, i)
        {
          assert Link(b, p, i);
        }
        assert IsCycle(a, p);
      }
    }
  }

  lemma {:induction false} ExecutionKeepsGraph(states: seq<Tasks>, c: Constraints, n: nat)
    requires IsExecution(states, c) && n < |states|
    ensures SameGraph(states[0], states[n])
  {
    if n > 0 {
      ExecutionKeepsGraph(states, c, n - 1);
      assert RoundAt(states, c, n - 1);
    }
  }

  /** A task on a chain to an obstacle is not ready. */
  lemma ChainIsNotReady(tasks: Tasks, c: Constraints, p: seq<string>, i: nat)
    requires HeldUpBy(tasks, c, p) && i < |p|
    ensures !IsReady(tasks, c, p[i])
  {
    if i + 1 < |p| {
      assert Link(tasks, p, i);
      assert i + 1 < |p| - 1 ==> tasks[p[i + 1]].status == Pending;
    }
  }

  /** A round changes no chain to an obstacle: what is on one cannot run, and nothing that
      has run is on one afterwards. */
  lemma RoundKeepsChains(tasks: Tasks, c: Constraints, p: seq<string>)
    ensures HeldUpBy(Complete(tasks, Next(tasks, c)), c, p) <==> HeldUpBy(tasks, c, p)
  {
    var after := Complete(tasks, Next(tasks, c));
    NextIsReady(tasks, c);
    SamePaths(tasks, after, p);
    if HeldUpBy(tasks, c, p) {
      forall i: nat | i < |p|
        ensures p[i] !in Next(tasks, c)
      {
        ChainIsNotReady(tasks, c, p, i);
      }
    }
  }

  lemma SamePaths(a: Tasks, b: Tasks, p: seq<string>)
    requires SameGraph(a, b)
    ensures IsPath(a, p) <==> IsPath(b, p)
  {
    assert forall i: nat :: i + 1 < |p| ==> (Link(a, p, i) <==> Link(b, p, i));
  }

  lemma RoundKeepsHeldUp(tasks: Tasks, c: Constraints, t: string)
    ensures HeldUp(Complete(tasks, Next(tasks, c)), c, t) <==> HeldUp(tasks, c, t)
  {
    forall p
      ensures HeldUpBy(Complete(tasks, Next(tasks, c)), c, p) <==> HeldUpBy(tasks, c, p)
    {
      RoundKeepsChains(tasks, c, p);
    }
  }

  /** A round takes its batch, and nothing else, off the pending tasks nothing holds up. */
  lemma RoundTakesFreeTasks(tasks: Tasks, c: Constraints)
    ensures var after := FreePending(Complete(tasks, Next(tasks, c)), c);
            after == FreePending(tasks, c) - (set t | t in Next(tasks, c))
    ensures forall t :: t in Next(tasks, c) ==> t in FreePending(tasks, c)
  {
    NextIsReady(tasks, c);
    forall t
      ensures HeldUp(Complete(tasks, Next(tasks, c)), c, t) <==> HeldUp(tasks, c, t)
    {
      RoundKeepsHeldUp(tasks, c, t);
    }
    forall t | t in Next(tasks, c)
      ensures t in FreePending(tasks, c)
    {
      ReadyIsNotHeldUp(tasks, c, t);
    }
  }

  lemma RoundShrinksFreeTasks(tasks: Tasks, c: Constraints)
    requires AllNamed(tasks) && Acyclic(tasks) && c.maxParallel > 0
    ensures var after := FreePending(Complete(tasks, Next(tasks, c)), c);
            FreePending(tasks, c) == {} == after || |after| < |FreePending(tasks, c)|
  {
    RoundTakesFreeTasks(tasks, c);
    if FreePending(tasks, c) != {} {
      EmptyBatchIff(tasks, c);
      var t :| t in FreePending(tasks, c);
      assert Next(tasks, c)[0] in Next(tasks, c);
      ProperSubsetIsSmaller(FreePending(Complete(tasks, Next(tasks, c)), c), FreePending(tasks, c));
    }
  }

  lemma ProperSubsetIsSmaller(a: set<string>, b: set<string>)
    requires a < b
    ensures |a| < |b|
  {
    assert b == a + (b - a);
    assert b - a != {};
  }

  lemma {:induction false} FreeTasksShrink(states: seq<Tasks>, c: Constraints, n: nat)
    requires IsExecution(states, c) && n < |states|
    requires AllNamed(states[0]) && Acyclic(states[0]) && c.maxParallel > 0
    ensures |FreePending(states[n], c)| <= if |FreePending(states[0], c)| <= n then 0 else |FreePending(states[0], c)| - n
  {
    if n > 0 {
      FreeTasksShrink(states, c, n - 1);
      ExecutionKeepsGraph(states, c, n - 1);
      SameGraphKeepsValidity(states[0], states[n - 1]);
      assert RoundAt(states, c, n - 1);
      RoundShrinksFreeTasks(states[n - 1], c);
    }
  }

  /** A round leaves the held-up tasks as they were. */
  lemma RoundLeavesHeldUp(tasks: Tasks, c: Constraints, t: string)
    ensures var after := Complete(tasks, Next(tasks, c));
            && (HeldUp(tasks, c, t) && t in PendingTasks(tasks) ==> t in PendingTasks(after))
            && (t in PendingTasks(after) ==> t in PendingTasks(tasks))
  {
    NextIsReady(tasks, c);
    if t in Next(tasks, c) {
      ReadyIsNotHeldUp(tasks, c, t);
    }
  }

  lemma {:induction false} HeldUpStays(states: seq<Tasks>, c: Constraints, n: nat, t: string)
    requires IsExecution(states, c) && n < |states|
    ensures HeldUp(states[n], c, t) <==> HeldUp(states[0], c, t)
    ensures HeldUp(states[0], c, t) && t in PendingTasks(states[0]) ==> t in PendingTasks(states[n])
    ensures t in PendingTasks(states[n]) ==> t in PendingTasks(states[0])
  {
    if n > 0 {
      HeldUpStays(states, c, n - 1, t);
      assert RoundAt(states, c, n - 1);
      RoundKeepsHeldUp(states[n - 1], c, t);
      RoundLeavesHeldUp(states[n - 1], c, t);
    }
  }

  /** Whatever the statuses and the blocked set of a valid plan, once there was a round for
      every pending task that nothing holds up, the tasks still pending are exactly those
      that were held up at the start. */
  lemma HeldUpTasksAreLeft(states: seq<Tasks>, c: Constraints, t: string)
    requires IsExecution(states, c) && AllNamed(states[0]) && Acyclic(states[0]) && c.maxParallel > 0
    requires |states| > |FreePending(states[0], c)|
    ensures t in PendingTasks(states[|states| - 1])
            <==> t in PendingTasks(states[0]) && HeldUp(states[0], c, t)
  {
    var n := |states| - 1;
    FreeTasksShrink(states, c, n);
    HeldUpStays(states, c, n, t);
    assert FreePending(states[n], c) == {};
    assert t in PendingTasks(states[n]) ==> t in FreePending(states[n], c) || HeldUp(states[n], c, t);
  }

  ghost predicate OnlyPendingOrDone(tasks: Tasks) {
    forall t :: t in tasks ==> tasks[t].status in {Pending, Done}
  }

  lemma {:induction false} NothingRuns(states: seq<Tasks>, c: Constraints, n: nat)
    requires IsExecution(states, c) && n < |states| && c.maxParallel == 0
    ensures states[n] == states[0]
  {
    if n > 0 {
      NothingRuns(states, c, n - 1);
      NextIsReady(states[n - 1], c);
      assert RoundAt(states, c, n - 1);
    }
  }

  ghost predicate AllDone(tasks: Tasks) {
    forall t :: t in tasks ==> tasks[t].status == Done
  }

  /** A valid plan of pending and done tasks with nothing blocked is finished after
      one round per pending task, if and only if at least one task may run at a
      time (or there was nothing to do). */
  lemma SchedulerFinishes(states: seq<Tasks>, c: Constraints)
    requires IsExecution(states, c)
    requires AllNamed(states[0]) && Acyclic(states[0]) && OnlyPendingOrDone(states[0]) && c.blocked == {}
    requires |states| == |PendingTasks(states[0])| + 1
    ensures AllDone(states[|states| - 1]) <==> c.maxParallel > 0 || PendingTasks(states[0]) == {}
  {
    var n := |states| - 1;
    if c.maxParallel > 0 {
      EverythingRuns(states, c, n);
    } else {
      NothingRuns(states, c, n);
      if PendingTasks(states[0]) != {} {
        var t :| t in PendingTasks(states[0]);
        assert states[n][t].status == Pending;
      } else {
        assert forall t :: t in states[0] ==> t !in PendingTasks(states[0]);
      }
    }
  }

  lemma EverythingRuns(states: seq<Tasks>, c: Constraints, n: nat)
    requires IsExecution(states, c) && n == |states| - 1 == |PendingTasks(states[0])|
    requires AllNamed(states[0]) && Acyclic(states[0]) && OnlyPendingOrDone(states[0])
    requires c.blocked == {} && c.maxParallel > 0
    ensures AllDone(states[n])
  {
    assert forall p :: !HeldUpBy(states[0], c, p);
    assert FreePending(states[0], c) == PendingTasks(states[0]);
    ExecutionKeepsGraph(states, c, n);
    forall t | t in states[n]
      ensures states[n][t].status == Done
    {
      HeldUpTasksAreLeft(states, c, t);
      OnlyPendingBecomesDone(states, c, n, t);
    }
  }

  lemma {:induction false} OnlyPendingBecomesDone(states: seq<Tasks>, c: Constraints, n: nat, t: string)
    requires IsExecution(states, c) && n < |states| && t in states[n]
    ensures t in states[0] && states[n][t].status in {states[0][t].status, Done}
  {
    if n > 0 {
      assert RoundAt(states, c, n - 1);
      OnlyPendingBecomesDone(states, c, n - 1, t);
    }
  }

  ghost predicate RanBefore(states: seq<Tasks>, c: Constraints, n: nat, d: string)
    requires n < |states|
  {
    exists k: nat :: k < n && d in Next(states[k], c)
  }

  /** No task runs before its dependencies: whatever is scheduled in round n was
      pending, and each of its dependencies was done at the start or scheduled in an
      earlier round. */
  lemma DependenciesRanBefore(states: seq<Tasks>, c: Constraints, n: nat, t: string, d: string)
    requires IsExecution(states, c) && n < |states|
    requires t in Next(states[n], c) && DependsOn(states[0], t, d)
    ensures d in states[0] && (states[0][d].status == Done || RanBefore(states, c, n, d))
  {
    NextIsReady(states[n], c);
    ExecutionKeepsGraph(states, c, n);
    DoneHasAReason(states, c, n, d);
  }

  lemma {:induction false} DoneHasAReason(states: seq<Tasks>, c: Constraints, n: nat, d: string)
    requires IsExecution(states, c) && n < |states| && d in states[n] && states[n][d].status == Done
    ensures d in states[0] && (states[0][d].status == Done || RanBefore(states, c, n, d))
  {
    if n > 0 {
      assert RoundAt(states, c, n - 1);
      if d in Next(states[n - 1], c) {
        ExecutionKeepsGraph(states, c, n);
      } else {
        DoneHasAReason(states, c, n - 1, d);
      }
    }
  }

  predicate IsDone(tasks: Tasks, t: string) {
    t in tasks && tasks[t].status == Done
  }

  lemma RoundKeepsDone(states: seq<Tasks>, c: Constraints, n: nat, t: string)
    requires n + 1 < |states| && RoundAt(states, c, n)
    requires IsDone(states[n], t) || t in Next(states[n], c)
    ensures IsDone(states[n + 1], t)
  {
    NextIsReady(states[n], c);
  }

  lemma {:induction false} StaysDone(states: seq<Tasks>, c: Constraints, m: nat, n: nat, t: string)
    requires IsExecution(states, c) && m <= n < |states| && IsDone(states[m], t)
    ensures IsDone(states[n], t)
  {
    if m < n {
      StaysDone(states, c, m, n - 1, t);
      RoundKeepsDone(states, c, n - 1, t);
    }
  }

  /** A scheduled task stays done and is never scheduled again. */
  lemma ScheduledOnce(states: seq<Tasks>, c: Constraints, m: nat, n: nat, t: string)
    requires IsExecution(states, c) && m < n < |states| && t in Next(states[m], c)
    ensures IsDone(states[n], t) && t !in Next(states[n], c)
  {
    RoundKeepsDone(states, c, m, t);
    StaysDone(states, c, m + 1, n, t);
    NextIsReady(states[n], c);
  }

  // ---- Plans made from goals ----

  datatype TaskPlan = TaskPlan(id: string, dependsOn: seq<string>)

  /** Tasks keyed by id; a later task replaces an earlier one of the same id. */
  function TasksOf(plans: seq<TaskPlan>): Tasks {
    if plans == [] then map[]
    else TasksOf(plans[..|plans| - 1])[plans[|plans| - 1].id := Task(plans[|plans| - 1].dependsOn, Pending)]
  }

  function Flatten(epics: seq<seq<TaskPlan>>): seq<TaskPlan> {
    if epics == [] then [] else Flatten(epics[..|epics| - 1]) + epics[|epics| - 1]
  }

  method DecomposeGoal(epics: seq<seq<TaskPlan>>) returns (tasks: Tasks, r: Validation)
    ensures tasks == TasksOf(Flatten(epics))
    ensures r == Valid <==> AllNamed(tasks) && Acyclic(tasks)
  {
    tasks := map[];
    for i := 0 to |epics|
      invariant tasks == TasksOf(Flatten(epics[..i]))
    {
      var epic := epics[i];
      assert epics[..i + 1][..i] == epics[..i];
      ghost var before := Flatten(epics[..i]);
      assert before + epic[..0] == before;
      for j := 0 to |epic|
        invariant tasks == TasksOf(before + epic[..j])
      {
        tasks := tasks[epic[j].id := Task(epic[j].dependsOn, Pending)];
        assert (before + epic[..j + 1])[..|before| + j] == before + epic[..j];
      }
      assert epic[..|epic|] == epic;
    }
    assert epics[..|epics|] == epics;
    r := Validate(tasks);
  }

  lemma {:induction false} PlannedTasksArePending(plans: seq<TaskPlan>)
    ensures forall t :: t in TasksOf(plans) ==> TasksOf(plans)[t].status == Pending
  {
    if plans != [] {
      PlannedTasksArePending(plans[..|plans| - 1]);
    }
  }

  /** Every goal that decomposes finishes, in at most as many rounds as it has tasks. */
  lemma DecomposedGoalFinishes(plans: seq<TaskPlan>, states: seq<Tasks>, maxParallel: nat)
    requires AllNamed(TasksOf(plans)) && Acyclic(TasksOf(plans)) && maxParallel > 0
    requires IsExecution(states, Constraints(maxParallel, {})) && states[0] == TasksOf(plans)
    requires |states| == |TasksOf(plans)| + 1
    ensures states[|states| - 1].Keys == TasksOf(plans).Keys && AllDone(states[|states| - 1])
  {
    PlannedTasksArePending(plans);
    assert PendingTasks(states[0]) == states[0].Keys;
    ExecutionKeepsGraph(states, Constraints(maxParallel, {}), |states| - 1);
    SchedulerFinishes(states, Constraints(maxParallel, {}));
  }
}
