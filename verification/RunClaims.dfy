/** Engines claiming runs concurrently: the query, the re-read and the keyed create
    of `claim_next_queued` are separate requests, interleaved with other engines,
    enqueues and status changes, and any reply may be lost. */
module RunClaims {
  import opened Options
  import opened RunModel

  datatype Engine =
    | Idle
    | Scanning(todo: seq<Run>, seen: set<string>)
    | Claiming(current: Run, todo: seq<Run>, seen: set<string>)

  datatype State = State(
    events: seq<Run>, keys: set<string>,
    engines: map<nat, Engine>,
    changes: set<Run>,        // status documents about to be appended
    returned: seq<Run>)       // what the claim calls have returned so far

  datatype Action =
    | Enqueue(run: Run)
    | ReadForChange(id: string, status: Status)
    | AppendChange(run: Run)
    | QueryQueued(engine: nat)
    | Reread(engine: nat)
    | CreateClaim(engine: nat)
    | CreateClaimReplyLost(engine: nat)
    | Stop(engine: nat)

  predicate Enabled(s: State, a: Action) {
    match a
    case Enqueue(run) => run.status == Queued && !Mentions(s.events, run.id)
    case ReadForChange(id, _) => Latest(s.events, id).Some?
    case AppendChange(run) => run in s.changes
    case QueryQueued(e) => e !in s.engines || s.engines[e].Idle?
    case Reread(e) => e in s.engines && s.engines[e].Scanning? && s.engines[e].todo != []
    case CreateClaim(e) => e in s.engines && s.engines[e].Claiming?
    case CreateClaimReplyLost(e) => e in s.engines && s.engines[e].Claiming?
    case Stop(e) => e in s.engines
  }

  function Set(s: State, e: nat, engine: Engine): State {
    s.(engines := s.engines[e := engine])
  }

  /** One turn of the candidate loop up to the keyed create. */
  function Considered(s: State, engine: Engine): Engine
    requires engine.Scanning? && engine.todo != []
  {
    var candidate, rest := engine.todo[0], engine.todo[1..];
    if candidate.id in engine.seen then Scanning(rest, engine.seen)
    else
      var seen := engine.seen + {candidate.id};
      match Latest(s.events, candidate.id)
      case None => Scanning(rest, seen)
      case Some(current) =>
        if current.status == Queued then Claiming(current, rest, seen) else Scanning(rest, seen)
  }

  /** The keyed create stores the Running document once per key. */
  function Created(s: State, running: Run): State {
    if ClaimKey(running.id) in s.keys then s
    else s.(events := s.events + [running], keys := s.keys + {ClaimKey(running.id)})
  }

  function Apply(s: State, a: Action): State
    requires Enabled(s, a)
  {
    match a
    case Enqueue(run) => s.(events := s.events + [run])
    case ReadForChange(id, status) =>
      s.(changes := s.changes + {Latest(s.events, id).value.(status := status)})
    case AppendChange(run) => s.(events := s.events + [run], changes := s.changes - {run})
    case QueryQueued(e) => Set(s, e, Scanning(Candidates(s.events), {}))
    case Reread(e) => Set(s, e, Considered(s, s.engines[e]))
    case CreateClaim(e) =>
      var engine := s.engines[e];
      var running := engine.current.(status := Running);
      if ClaimKey(running.id) in s.keys
      then Set(s, e, Scanning(engine.todo, engine.seen))
      else Set(Created(s, running), e, Idle).(returned := s.returned + [running])
    case CreateClaimReplyLost(e) =>
      Set(Created(s, s.engines[e].current.(status := Running)), e, Idle)
    case Stop(e) => Set(s, e, Idle)
  }

  ghost predicate Initial(s: State) {
    s.keys == {} && s.events == [] && s.engines == map[] && s.changes == {} && s.returned == []
  }

  predicate StepAt(states: seq<State>, actions: seq<Action>, i: nat)
    requires i < |actions| < |states|
  {
    Enabled(states[i], actions[i]) && states[i + 1] == Apply(states[i], actions[i])
  }

  ghost predicate Steps(states: seq<State>, actions: seq<Action>) {
    |states| == |actions| + 1 && forall i: nat :: i < |actions| ==> StepAt(states, actions, i)
  }

  ghost predicate IsRun(states: seq<State>, actions: seq<Action>) {
    Steps(states, actions) && Initial(states[0])
  }

  ghost predicate Inv(s: State) {
    && DistinctIds(s.returned)
    && (forall r :: r in s.returned ==> ClaimKey(r.id) in s.keys && r.status == Running && r in s.events)
    && (forall e :: e in s.engines && s.engines[e].Claiming? ==>
          s.engines[e].current.status == Queued && s.engines[e].current in s.events)
  }

  lemma StepKeepsInv(s: State, a: Action)
    requires Inv(s) && Enabled(s, a)
    ensures Inv(Apply(s, a))
  {
    if a.Reread? && s.engines[a.engine].todo[0].id !in s.engines[a.engine].seen {
      LatestIsOneOf(s.events, s.engines[a.engine].todo[0].id);
    }
  }

  lemma {:induction false} RunKeepsInv(states: seq<State>, actions: seq<Action>, i: nat)
    requires IsRun(states, actions) && i < |states|
    ensures Inv(states[i])
  {
    if i > 0 {
      RunKeepsInv(states, actions, i - 1);
      assert StepAt(states, actions, i - 1);
      StepKeepsInv(states[i - 1], actions[i - 1]);
    }
  }

  /** At most one claim: whatever the interleaving, no two claim calls ever return
      the same run, and every returned run is recorded as Running. */
  lemma AtMostOneClaim(states: seq<State>, actions: seq<Action>, i: nat)
    requires IsRun(states, actions) && i < |states|
    ensures forall j, k :: 0 <= j < k < |states[i].returned| ==>
              states[i].returned[j].id != states[i].returned[k].id
    ensures forall r :: r in states[i].returned ==> r in states[i].events && r.status == Running
  {
    RunKeepsInv(states, actions, i);
  }

  /** The claim calls of one run exclude each other also across lost replies: once
      its claim document is stored, no later step returns it. */
  lemma ClaimIsFinal(states: seq<State>, actions: seq<Action>, i: nat, j: nat, id: string)
    requires IsRun(states, actions) && i <= j < |states| && ClaimKey(id) in states[i].keys
    ensures ClaimKey(id) in states[j].keys
    ensures states[i].returned <= states[j].returned
    ensures forall k :: |states[i].returned| <= k < |states[j].returned| ==> states[j].returned[k].id != id
  {
    if i < j {
      ClaimIsFinal(states, actions, i, j - 1, id);
      assert StepAt(states, actions, j - 1);
    }
  }

  // ---- A status set between the re-read and the claim ----

  /** The engine re-read this run in step k and holds it unchanged up to step i. */
  ghost predicate HeldSince(states: seq<State>, actions: seq<Action>, e: nat, current: Run, k: nat, i: nat)
    requires k < i < |states| && |actions| < |states| && k < |actions|
  {
    actions[k] == Reread(e)
    && forall n :: k < n <= i ==> e in states[n].engines && states[n].engines[e].Claiming?
                                  && states[n].engines[e].current == current
  }

  lemma {:induction false} LatestAfter(events: seq<Run>, added: seq<Run>, id: string)
    ensures Latest(events + added, id) == if Latest(added, id).Some? then Latest(added, id) else Latest(events, id)
  {
    if added == [] {
      assert events + added == events;
    } else {
      var init, last := added[..|added| - 1], added[|added| - 1];
      assert added == init + [last] && events + added == (events + init) + [last];
      LatestAfter(events, init, id);
      LatestAppend(events + init, last, id);
      LatestAppend(init, last, id);
    }
  }

  lemma {:induction false} EventsGrow(states: seq<State>, actions: seq<Action>, k: nat, i: nat)
    requires IsRun(states, actions) && k <= i < |states|
    ensures states[k].events <= states[i].events
  {
    if k < i {
      EventsGrow(states, actions, k, i - 1);
      assert StepAt(states, actions, i - 1);
    }
  }

  lemma RereadIsLatest(s: State, e: nat)
    requires Enabled(s, Reread(e)) && Considered(s, s.engines[e]).Claiming?
    ensures var run := Considered(s, s.engines[e]).current;
            Latest(s.events, run.id) == Some(run) && run.status == Queued
  {
    LatestIsOneOf(s.events, s.engines[e].todo[0].id);
  }

  /** The documents appended between the re-read and the claim. */
  ghost function Between(states: seq<State>, k: nat, i: nat): seq<Run>
    requires k <= i < |states| && states[k].events <= states[i].events
  {
    states[i].events[|states[k].events|..]
  }

  /** A run is still queued when it is claimed exactly when no document was appended to it
      since the re-read, or the last one set it back to queued. Otherwise its status is
      overwritten: the claim stores the run as running all the same. */
  lemma QueuedWhenClaimedIff(states: seq<State>, actions: seq<Action>, e: nat, current: Run, k: nat, i: nat)
    requires IsRun(states, actions) && k < i < |actions| && HeldSince(states, actions, e, current, k, i)
    requires actions[i] == CreateClaim(e) && ClaimKey(current.id) !in states[i].keys
    ensures states[k].events <= states[i].events && Latest(states[i].events, current.id).Some?
    ensures Latest(states[i].events, current.id).value.status == Queued
            <==> match Latest(Between(states, k, i), current.id)
                 case None => true
                 case Some(last) => last.status == Queued
    ensures states[i + 1].returned == states[i].returned + [current.(status := Running)]
    ensures Latest(states[i + 1].events, current.id) == Some(current.(status := Running))
  {
    EventsGrow(states, actions, k, i);
    assert StepAt(states, actions, k) && StepAt(states, actions, i);
    assert states[k + 1].engines[e].current == current;
    RereadIsLatest(states[k], e);
    var since := Between(states, k, i);
    assert states[i].events == states[k].events + since;
    LatestAfter(states[k].events, since, current.id);
    LatestAppend(states[i].events, current.(status := Running), current.id);
  }

  lemma Extend(states: seq<State>, actions: seq<Action>, a: Action) returns (ss: seq<State>, aa: seq<Action>)
    requires IsRun(states, actions) && Enabled(states[|actions|], a)
    ensures IsRun(ss, aa) && ss == states + [Apply(states[|actions|], a)] && aa == actions + [a]
    ensures ss[|aa|] == Apply(states[|actions|], a)
  {
    ss, aa := MoreSteps(states, actions, a);
  }

  lemma OneQueuedRun(run: Run)
    requires run.status == Queued
    ensures Candidates([run]) == [run] && Latest([run], run.id) == Some(run)
  {
    assert [] + [run] == [run];
    LatestAppend([], run, run.id);
    OneCandidate(run);
  }

  lemma OneCandidate(run: Run)
    requires run.status == Queued
    ensures Candidates([run]) == [run]
  {
    NewestAppend([], run, (r: Run) => r.status == Queued);
    assert [] + [run] == [run];
    assert QueuedDocs([run]) == [run];
    assert Limited([run], CLAIM_LIMIT) == [run] && Reverse([run]) == [run];
  }

  /** A run fails between the re-read and the claim; the claim returns it all the same, and
      the failure is no longer its state. */
  lemma FailureIsOverwritten(run: Run) returns (states: seq<State>, actions: seq<Action>)
    requires run.status == Queued
    ensures IsRun(states, actions)
    ensures var (failed, running) := (run.(status := Failed), run.(status := Running));
            && states[|actions|].events == [run, failed, running] && states[|actions|].returned == [running]
            && Latest(states[|actions|].events, run.id) == Some(running)
  {
    var failed, running := run.(status := Failed), run.(status := Running);
    states, actions := EnqueueAndReread(run);
    states, actions := FailAndClaim(states, actions, run);
    LatestAppend([run, failed], running, run.id);
    assert [run, failed] + [running] == [run, failed, running];
  }

  function AfterReread(run: Run): State {
    State([run], {}, map[0 := Claiming(run, [], {run.id})], {}, [])
  }

  lemma EnqueueAndReread(run: Run) returns (states: seq<State>, actions: seq<Action>)
    requires run.status == Queued
    ensures IsRun(states, actions) && states[|actions|] == AfterReread(run)
  {
    OneQueuedRun(run);
    states, actions := [State([], {}, map[], {}, [])], [];
    states, actions := Extend(states, actions, Action.Enqueue(run));
    assert states[1] == State([run], {}, map[], {}, []);
    states, actions := Extend(states, actions, QueryQueued(0));
    assert states[2] == State([run], {}, map[0 := Scanning([run], {})], {}, []);
    RereadOne(states[2], run);
    states, actions := Extend(states, actions, Reread(0));
  }

  lemma RereadOne(s: State, run: Run)
    requires s == State([run], {}, map[0 := Scanning([run], {})], {}, []) && run.status == Queued
    ensures Enabled(s, Reread(0)) && Apply(s, Reread(0)) == AfterReread(run)
  {
    OneQueuedRun(run);
    assert [run][1..] == [] && {} + {run.id} == {run.id};
  }

  lemma FailAndClaim(before: seq<State>, done: seq<Action>, run: Run)
    returns (states: seq<State>, actions: seq<Action>)
    requires IsRun(before, done) && run.status == Queued && before[|done|] == AfterReread(run)
    ensures IsRun(states, actions)
    ensures var (failed, running) := (run.(status := Failed), run.(status := Running));
            states[|actions|].events == [run, failed, running] && states[|actions|].returned == [running]
  {
    OneQueuedRun(run);
    states, actions := Extend(before, done, ReadForChange(run.id, Failed));
    states, actions := Extend(states, actions, AppendChange(run.(status := Failed)));
    states, actions := Extend(states, actions, CreateClaim(0));
  }

  // ---- A claim without interruption ----

  function MeshOf(s: State): Mesh {
    Mesh(s.events, s.keys)
  }

  /** What the claim loop of an engine would still pick, with nothing in between. */
  function StillPicks(s: State, engine: Engine): Option<Run> {
    match engine
    case Idle => None
    case Scanning(todo, _) => Pick(todo, s.events, s.keys)
    case Claiming(current, todo, _) =>
      if ClaimKey(current.id) in s.keys then Pick(todo, s.events, s.keys) else Some(current)
  }

  /** The engine is in its claim loop: what it has seen cannot be claimed, and the run it is
      about to claim is queued. */
  ghost predicate InLoop(s: State, engine: Engine) {
    && !engine.Idle?
    && (forall id :: id in engine.seen ==>
          Claimable(s.events, s.keys, id) ==> engine.Claiming? && id == engine.current.id)
    && (engine.Claiming? ==> engine.current.status == Queued && Latest(s.events, engine.current.id) == Some(engine.current))
  }

  /** The engine takes only turns of its own loop from step k on. */
  ghost predicate OnlyTurns(actions: seq<Action>, e: nat, k: nat) {
    forall i :: k <= i < |actions| ==> actions[i] == Reread(e) || actions[i] == CreateClaim(e)
  }

  /** The call is over: it has claimed a run, or has run out of candidates. */
  predicate Over(s: State, e: nat) {
    e in s.engines && (s.engines[e].Idle? || (s.engines[e].Scanning? && s.engines[e].todo == []))
  }

  /** Up to step i the loop has claimed the run of the one step, or will still do so. */
  ghost predicate OnTheWay(s: State, t: State, e: nat) {
    e in t.engines
    && if t.engines[e].Idle? then
         var (m, reply) := MeshStep(MeshOf(s), Claim);
         reply.run.Some? && MeshOf(t) == m && t.returned == s.returned + [reply.run.value]
       else
         MeshOf(t) == MeshOf(s) && t.returned == s.returned && InLoop(t, t.engines[e])
         && StillPicks(t, t.engines[e]) == Pick(Candidates(s.events), s.events, s.keys)
  }

  lemma RereadStaysInLoop(s: State, engine: Engine)
    requires InLoop(s, engine) && engine.Scanning? && engine.todo != []
    ensures InLoop(s, Considered(s, engine)) && StillPicks(s, Considered(s, engine)) == StillPicks(s, engine)
  {
    LatestIsOneOf(s.events, engine.todo[0].id);
  }

  lemma TurnStaysOnTheWay(s: State, t: State, e: nat, a: Action)
    requires OnTheWay(s, t, e) && Enabled(t, a) && (a == Reread(e) || a == CreateClaim(e))
    ensures OnTheWay(s, Apply(t, a), e)
  {
    if a == Reread(e) {
      RereadStaysInLoop(t, t.engines[e]);
    }
  }

  lemma {:induction false} LoopStaysOnTheWay(states: seq<State>, actions: seq<Action>, e: nat, i: nat)
    requires Steps(states, actions) && 0 < i <= |actions|
    requires actions[0] == QueryQueued(e) && OnlyTurns(actions, e, 1)
    ensures OnTheWay(states[0], states[i], e)
  {
    assert StepAt(states, actions, i - 1);
    if i > 1 {
      LoopStaysOnTheWay(states, actions, e, i - 1);
      TurnStaysOnTheWay(states[0], states[i - 1], e, actions[i - 1]);
    }
  }

  /** From any state, a claim call that nothing interrupts is the one step of the
      event-sourced store: same documents, same keys, and the same run returned or none. */
  lemma UninterruptedClaimIsOneStep(states: seq<State>, actions: seq<Action>, e: nat)
    requires Steps(states, actions) && actions != []
    requires actions[0] == QueryQueued(e) && OnlyTurns(actions, e, 1) && Over(states[|actions|], e)
    ensures var (m, reply) := MeshStep(MeshOf(states[0]), Claim);
            var last := states[|actions|];
            && MeshOf(last) == m && reply.One?
            && last.returned == states[0].returned + if reply.run.Some? then [reply.run.value] else []
  {
    LoopStaysOnTheWay(states, actions, e, |actions|);
  }

  /** And it always comes to its end: from any state in which the engine is not busy its
      turns lead to such a last state. */
  lemma ClaimEnds(s: State, e: nat) returns (states: seq<State>, actions: seq<Action>)
    requires Enabled(s, QueryQueued(e))
    ensures Steps(states, actions) && actions != [] && states[0] == s
    ensures actions[0] == QueryQueued(e) && OnlyTurns(actions, e, 1) && Over(states[|actions|], e)
  {
    states, actions := [s, Apply(s, QueryQueued(e))], [QueryQueued(e)];
    while !Over(states[|actions|], e)
      invariant Steps(states, actions) && actions != [] && states[0] == s
      invariant actions[0] == QueryQueued(e) && OnlyTurns(actions, e, 1) && e in states[|actions|].engines
      decreases TurnsLeft(states[|actions|].engines[e])
    {
      var t := states[|actions|];
      var a := if t.engines[e].Scanning? then Reread(e) else CreateClaim(e);
      states, actions := MoreSteps(states, actions, a);
    }
  }

  function TurnsLeft(engine: Engine): nat {
    match engine
    case Idle => 0
    case Scanning(todo, _) => 2 * |todo|
    case Claiming(_, todo, _) => 2 * |todo| + 1
  }

  lemma MoreSteps(states: seq<State>, actions: seq<Action>, a: Action) returns (ss: seq<State>, aa: seq<Action>)
    requires Steps(states, actions) && Enabled(states[|actions|], a)
    ensures Steps(ss, aa) && ss == states + [Apply(states[|actions|], a)] && aa == actions + [a]
  {
    ss, aa := states + [Apply(states[|actions|], a)], actions + [a];
    forall i: nat | i < |aa|
      ensures StepAt(ss, aa, i)
    {
      if i < |actions| {
        assert StepAt(states, actions, i);
      }
    }
  }
}
