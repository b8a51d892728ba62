/** Whole runs of the gateway: any number of calls in flight, interleaved with new
    approvals and the passing of time. A call reads the clock before it gets the lock. */
module GatewayRuns {
  import opened Options
  import opened Authority

  datatype Phase =
    | Waiting(call: Call, readAt: int)                       // for the approvals lock
    | Ready(call: Call, risk: Risk, approvalId: Option<nat>) // cleared, record not yet minted
    | Done(authorityId: nat)
    | Refused

  /** Who took an approval, and the clock it had read. */
  datatype Taking = Taking(call: Call, readAt: int, takenAt: int)

  datatype State = State(
    clock: int,
    approvals: map<nat, Approval>,
    records: map<nat, Record>,
    calls: map<nat, Phase>,
    takings: map<nat, Taking>)   // history: one entry per consumed approval

  datatype Action =
    | Tick(to: int)
    | Approve(id: nat, request: Approval, readAt: int)
    | Arrive(callId: nat, call: Call)
    | Decide(callId: nat, decision: Decision)
    | MintRecord(callId: nat, authorityId: nat)

  /** Steps 1 and 2 of a call: known tool, scope present, risk under the ceiling. */
  predicate Admitted(call: Call) {
    match PolicyOf(call.tool)
    case None => false
    case Some(p) => p.scope in call.claims.scopes && !ExceedsMaxRisk(p.risk, call.claims.maxRisk)
  }

  /** The scope a tool asks for: a repository tool's own name, and for the memory tools one
      of three. */
  function ScopeFor(tool: string): string {
    if tool == "memory::write" then "memory.write"
    else if tool == "memory::delete" then "memory.delete"
    else if tool in {"memory::query", "memory::context_pack"} then "memory.read"
    else tool
  }

  /** Who may do what, said by kind of tool: a token with the tool's scope may read in any
      case, may write unless its ceiling is "read", and may destroy under "write" only. */
  predicate Entitled(call: Call) {
    ScopeFor(call.tool) in call.claims.scopes
    && (call.tool in READING
        || (call.tool in WRITING && call.claims.maxRisk != "read")
        || (call.tool in DESTRUCTIVE && call.claims.maxRisk == "write"))
  }

  lemma AdmittedIff(call: Call)
    ensures Admitted(call) <==> Entitled(call)
    ensures Admitted(call) ==> (PolicyOf(call.tool).value.risk == Destructive <==> call.tool in DESTRUCTIVE)
  {
  }

  predicate IsWaiting(s: State, callId: nat) {
    callId in s.calls && s.calls[callId].Waiting?
  }

  predicate IsReady(s: State, callId: nat) {
    callId in s.calls && s.calls[callId].Ready?
  }

  predicate CanTake(s: State, callId: nat, approvalId: nat) {
    IsWaiting(s, callId) && approvalId in s.approvals
    && IsFresh(s.approvals[approvalId], s.calls[callId].call, s.calls[callId].readAt)
  }

  ghost predicate Enabled(s: State, a: Action) {
    match a
    case Tick(to) => to >= s.clock
    case Approve(id, _, readAt) => id !in s.approvals && readAt <= s.clock
    case Arrive(callId, _) => callId !in s.calls
    case Decide(callId, d) =>
      IsWaiting(s, callId) && Decides(s.approvals, s.calls[callId].call, s.calls[callId].readAt, d)
    case MintRecord(callId, authorityId) => IsReady(s, callId) && authorityId !in s.records
  }

  function Arrived(s: State, call: Call): Phase {
    if !Admitted(call) then Refused
    else
      var risk := PolicyOf(call.tool).value.risk;
      if risk == Destructive then Waiting(call, s.clock) else Ready(call, risk, None)
  }

  ghost function Apply(s: State, a: Action): State
    requires Enabled(s, a)
  {
    match a
    case Tick(to) => s.(clock := to)
    case Approve(id, request, readAt) =>
      s.(approvals := WithApproval(s.approvals, id, request, readAt))
    case Arrive(callId, call) => s.(calls := s.calls[callId := Arrived(s, call)])
    case Decide(callId, Held(_)) =>
      s.(approvals := AfterDecision(s.approvals, a.decision), calls := s.calls[callId := Refused])
    case Decide(callId, Taken(id)) =>
      var call, readAt := s.calls[callId].call, s.calls[callId].readAt;
      s.(approvals := AfterDecision(s.approvals, a.decision),
         calls := s.calls[callId := Ready(call, Destructive, Some(id))],
         takings := s.takings[id := Taking(call, readAt, s.clock)])
    case MintRecord(callId, authorityId) =>
      var p := s.calls[callId];
      s.(records := WithRecord(s.records, authorityId, p.call, p.risk, p.approvalId),
         calls := s.calls[callId := Done(authorityId)])
  }

  ghost predicate StepAt(states: seq<State>, actions: seq<Action>, i: nat)
    requires i < |actions| < |states|
  {
    Enabled(states[i], actions[i]) && states[i + 1] == Apply(states[i], actions[i])
  }

  predicate Initial(s: State) {
    s.approvals == map[] && s.records == map[] && s.calls == map[] && s.takings == map[]
  }

  ghost predicate IsRun(states: seq<State>, actions: seq<Action>) {
    && |states| == |actions| + 1
    && Initial(states[0])
    && forall i: nat :: i < |actions| ==> StepAt(states, actions, i)
  }

  // ---- The invariant ----

  /** A consumed approval was fresh and matching when its taker read the clock. */
  ghost predicate WellTaken(s: State, id: nat) {
    id in s.takings && id in s.approvals && s.approvals[id].used
    && Matches(s.approvals[id], s.takings[id].call)
    && s.takings[id].readAt - s.approvals[id].createdAt <= TTL
    && s.takings[id].readAt <= s.takings[id].takenAt <= s.clock
    && s.approvals[id].createdAt <= s.takings[id].takenAt
  }

  ghost predicate TakingsInv(s: State) {
    && (forall id :: id in s.takings ==> WellTaken(s, id))
    && (forall id :: id in s.approvals && s.approvals[id].used ==> id in s.takings)
    && (forall id :: id in s.approvals ==> s.approvals[id].createdAt <= s.clock)
  }

  /** The tool is known and has this risk. */
  predicate HasRisk(tool: string, risk: Risk) {
    PolicyOf(tool).Some? && PolicyOf(tool).value.risk == risk
  }

  ghost predicate WellAwaited(s: State, call: Call, readAt: int) {
    Admitted(call) && HasRisk(call.tool, Destructive) && readAt <= s.clock
  }

  /** An admitted call at its tool's own risk; if that is destructive, the approval was
      consumed for this very call. */
  ghost predicate Cleared(s: State, call: Call, risk: Risk, approvalId: Option<nat>) {
    && Admitted(call) && HasRisk(call.tool, risk)
    && (risk == Destructive <==> approvalId.Some?)
    && (approvalId.Some? ==> approvalId.value in s.takings && s.takings[approvalId.value].call == call)
  }

  ghost predicate CallsInv(s: State) {
    && (forall c :: c in s.calls && s.calls[c].Waiting? ==> WellAwaited(s, s.calls[c].call, s.calls[c].readAt))
    && (forall c :: c in s.calls && s.calls[c].Ready? ==>
          Cleared(s, s.calls[c].call, s.calls[c].risk, s.calls[c].approvalId))
  }

  /** The record was minted for a cleared call. */
  ghost predicate MintedFor(s: State, r: Record, call: Call) {
    Cleared(s, call, r.risk, r.approvalId) && r == RecordOf(call, r.risk, r.approvalId)
  }

  ghost predicate Authorised(s: State, r: Record) {
    exists call :: MintedFor(s, r, call)
  }

  ghost predicate RecordsInv(s: State) {
    forall r :: r in s.records ==> Authorised(s, s.records[r])
  }

  /** The holder of an approval: a record, or a call about to mint one. */
  ghost predicate HeldByRecord(s: State, r: nat, id: nat) {
    r in s.records && s.records[r].approvalId == Some(id)
  }

  ghost predicate HeldByCall(s: State, c: nat, id: nat) {
    IsReady(s, c) && s.calls[c].approvalId == Some(id)
  }

  ghost predicate SoleHolder(s: State) {
    && (forall r, q, id :: HeldByRecord(s, r, id) && HeldByRecord(s, q, id) ==> r == q)
    && (forall c, d, id :: HeldByCall(s, c, id) && HeldByCall(s, d, id) ==> c == d)
    && (forall r, c, id :: HeldByRecord(s, r, id) ==> !HeldByCall(s, c, id))
  }

  ghost function UsedApprovals(s: State): set<nat> {
    set id | id in s.approvals && s.approvals[id].used
  }

  ghost function ApprovedRecords(s: State): set<nat> {
    set r | r in s.records && s.records[r].approvalId.Some?
  }

  ghost function ApprovedInFlight(s: State): set<nat> {
    set c | c in s.calls && s.calls[c].Ready? && s.calls[c].approvalId.Some?
  }

  ghost predicate Balanced(s: State) {
    |UsedApprovals(s)| == |ApprovedRecords(s)| + |ApprovedInFlight(s)|
  }

  ghost predicate Inv(s: State) {
    TakingsInv(s) && CallsInv(s) && RecordsInv(s) && SoleHolder(s) && Balanced(s)
  }

  lemma TakeKeepsTakings(s: State, callId: nat, id: nat)
    requires CanTake(s, callId, id) && TakingsInv(s) && CallsInv(s)
    ensures TakingsInv(Apply(s, Decide(callId, Taken(id))))
  {
    var t := Apply(s, Decide(callId, Taken(id)));
    forall i | i in t.takings
      ensures WellTaken(t, i)
    {
      assert i != id ==> WellTaken(s, i);
    }
  }

  /** What is taken stays well taken when approvals are only added and time passes. */
  lemma TakingsStay(s: State, t: State)
    requires TakingsInv(s) && t.takings == s.takings && s.clock <= t.clock
    requires forall id :: id in s.approvals ==> id in t.approvals && t.approvals[id] == s.approvals[id]
    requires forall id :: id in t.approvals && id !in s.approvals ==>
               !t.approvals[id].used && t.approvals[id].createdAt <= t.clock
    ensures TakingsInv(t)
  {
    forall id | id in t.takings
      ensures WellTaken(t, id)
    {
      assert WellTaken(s, id);
    }
  }

  lemma StepKeepsTakings(s: State, a: Action)
    requires Enabled(s, a) && TakingsInv(s) && CallsInv(s)
    ensures TakingsInv(Apply(s, a))
  {
    match a
    case Decide(callId, Taken(id)) => TakeKeepsTakings(s, callId, id);
    case _ => TakingsStay(s, Apply(s, a));
  }

  lemma StepKeepsCalls(s: State, a: Action)
    requires Enabled(s, a) && TakingsInv(s) && CallsInv(s)
    ensures CallsInv(Apply(s, a))
  {
    if a.Decide? && a.decision.Taken? {
      NotTakenBefore(s, a.callId, a.decision.approvalId);
    }
  }

  lemma StepKeepsRecords(s: State, a: Action)
    requires Enabled(s, a) && TakingsInv(s) && CallsInv(s) && RecordsInv(s)
    ensures RecordsInv(Apply(s, a))
  {
    var t := Apply(s, a);
    forall r | r in t.records
      ensures Authorised(t, t.records[r])
    {
      if r in s.records {
        StaysAuthorised(s, a, s.records[r]);
      } else {
        assert MintedFor(t, t.records[r], s.calls[a.callId].call);
      }
    }
  }

  lemma StaysAuthorised(s: State, a: Action, r: Record)
    requires Enabled(s, a) && TakingsInv(s) && Authorised(s, r)
    ensures Authorised(Apply(s, a), r)
  {
    var call :| MintedFor(s, r, call);
    if a.Decide? && a.decision.Taken? {
      NotTakenBefore(s, a.callId, a.decision.approvalId);
    }
    assert MintedFor(Apply(s, a), r, call);
  }

  lemma NotTakenBefore(s: State, callId: nat, id: nat)
    requires TakingsInv(s) && CanTake(s, callId, id)
    ensures id !in s.takings
  {
    assert id in s.takings ==> WellTaken(s, id);
  }

  lemma FreeApproval(s: State, callId: nat, id: nat)
    requires TakingsInv(s) && CallsInv(s) && RecordsInv(s) && CanTake(s, callId, id)
    ensures forall r :: !HeldByRecord(s, r, id)
    ensures forall c :: !HeldByCall(s, c, id)
  {
    NotTakenBefore(s, callId, id);
    forall r
      ensures !HeldByRecord(s, r, id)
    {
      if r in s.records {
        assert Authorised(s, s.records[r]);
      }
    }
  }

  lemma TakeKeepsHolders(s: State, callId: nat, id: nat)
    requires CanTake(s, callId, id) && TakingsInv(s) && CallsInv(s) && RecordsInv(s) && SoleHolder(s)
    ensures SoleHolder(Apply(s, Decide(callId, Taken(id))))
  {
    var t := Apply(s, Decide(callId, Taken(id)));
    FreeApproval(s, callId, id);
    forall r, i ensures HeldByRecord(t, r, i) <==> HeldByRecord(s, r, i) {}
    forall c, i ensures HeldByCall(t, c, i) <==> HeldByCall(s, c, i) || (c == callId && i == id) {}
  }

  lemma MintKeepsHolders(s: State, callId: nat, authorityId: nat)
    requires IsReady(s, callId) && authorityId !in s.records && SoleHolder(s)
    ensures SoleHolder(Apply(s, MintRecord(callId, authorityId)))
  {
    var t := Apply(s, MintRecord(callId, authorityId));
    forall r, i ensures HeldByRecord(t, r, i)
                        <==> HeldByRecord(s, r, i) || (r == authorityId && HeldByCall(s, callId, i)) {}
    forall c, i ensures HeldByCall(t, c, i) <==> HeldByCall(s, c, i) && c != callId {}
  }

  lemma SameHolders(s: State, t: State)
    requires SoleHolder(s)
    requires forall r, i :: HeldByRecord(t, r, i) <==> HeldByRecord(s, r, i)
    requires forall c, i :: HeldByCall(t, c, i) <==> HeldByCall(s, c, i)
    ensures SoleHolder(t)
  {
  }

  lemma StepKeepsHolders(s: State, a: Action)
    requires Enabled(s, a) && TakingsInv(s) && CallsInv(s) && RecordsInv(s) && SoleHolder(s)
    ensures SoleHolder(Apply(s, a))
  {
    match a
    case Decide(callId, Taken(id)) => TakeKeepsHolders(s, callId, id);
    case MintRecord(callId, authorityId) => MintKeepsHolders(s, callId, authorityId);
    case _ =>
      OthersHoldNothing(s, a);
      SameHolders(s, Apply(s, a));
  }

  lemma OthersHoldNothing(s: State, a: Action)
    requires Enabled(s, a) && !a.MintRecord? && !(a.Decide? && a.decision.Taken?)
    ensures forall r, i :: HeldByRecord(Apply(s, a), r, i) <==> HeldByRecord(s, r, i)
    ensures forall c, i :: HeldByCall(Apply(s, a), c, i) <==> HeldByCall(s, c, i)
  {
  }

  lemma TakeKeepsBalance(s: State, callId: nat, id: nat)
    requires CanTake(s, callId, id) && Balanced(s)
    ensures Balanced(Apply(s, Decide(callId, Taken(id))))
  {
    TakeUsesOne(s, callId, id);
    TakeClearsOneCall(s, callId, id);
  }

  lemma TakeUsesOne(s: State, callId: nat, id: nat)
    requires CanTake(s, callId, id)
    ensures UsedApprovals(Apply(s, Decide(callId, Taken(id)))) == UsedApprovals(s) + {id} && id !in UsedApprovals(s)
  {
  }

  lemma TakeClearsOneCall(s: State, callId: nat, id: nat)
    requires CanTake(s, callId, id)
    ensures var t := Apply(s, Decide(callId, Taken(id)));
            && ApprovedInFlight(t) == ApprovedInFlight(s) + {callId} && callId !in ApprovedInFlight(s)
            && ApprovedRecords(t) == ApprovedRecords(s)
  {
  }

  lemma MintWithApprovalMovesIt(s: State, callId: nat, authorityId: nat)
    requires IsReady(s, callId) && authorityId !in s.records && s.calls[callId].approvalId.Some?
    ensures var t := Apply(s, MintRecord(callId, authorityId));
            ApprovedInFlight(s) == ApprovedInFlight(t) + {callId} && callId !in ApprovedInFlight(t)
            && ApprovedRecords(t) == ApprovedRecords(s) + {authorityId} && authorityId !in ApprovedRecords(s)
  {
  }

  lemma MintWithoutApprovalMovesNothing(s: State, callId: nat, authorityId: nat)
    requires IsReady(s, callId) && authorityId !in s.records && s.calls[callId].approvalId.None?
    ensures var t := Apply(s, MintRecord(callId, authorityId));
            ApprovedInFlight(s) == ApprovedInFlight(t) && ApprovedRecords(t) == ApprovedRecords(s)
  {
  }

  lemma MintKeepsBalance(s: State, callId: nat, authorityId: nat)
    requires IsReady(s, callId) && authorityId !in s.records && Balanced(s)
    ensures Balanced(Apply(s, MintRecord(callId, authorityId)))
  {
    assert UsedApprovals(Apply(s, MintRecord(callId, authorityId))) == UsedApprovals(s);
    if s.calls[callId].approvalId.Some? {
      MintWithApprovalMovesIt(s, callId, authorityId);
    } else {
      MintWithoutApprovalMovesNothing(s, callId, authorityId);
    }
  }

  lemma StepKeepsBalance(s: State, a: Action)
    requires Enabled(s, a) && Balanced(s)
    ensures Balanced(Apply(s, a))
  {
    match a
    case Decide(callId, Taken(id)) => TakeKeepsBalance(s, callId, id);
    case MintRecord(callId, authorityId) => MintKeepsBalance(s, callId, authorityId);
    case _ =>
      var t := Apply(s, a);
      assert UsedApprovals(t) == UsedApprovals(s);
      assert ApprovedInFlight(t) == ApprovedInFlight(s);
      assert ApprovedRecords(t) == ApprovedRecords(s);
  }

  lemma StepKeepsInv(s: State, a: Action)
    requires Enabled(s, a) && Inv(s)
    ensures Inv(Apply(s, a))
  {
    StepKeepsTakings(s, a);
    StepKeepsCalls(s, a);
    StepKeepsRecords(s, a);
    StepKeepsHolders(s, a);
    StepKeepsBalance(s, a);
  }

  lemma NextHasInv(s: State, a: Action, t: State)
    requires Inv(s) && Enabled(s, a) && t == Apply(s, a)
    ensures Inv(t)
  {
    StepKeepsInv(s, a);
  }

  lemma InitialHasInv(s: State)
    requires Initial(s)
    ensures Inv(s)
  {
    assert UsedApprovals(s) == {} && ApprovedRecords(s) == {} && ApprovedInFlight(s) == {};
  }

  lemma RunKeepsInv(states: seq<State>, actions: seq<Action>, i: nat)
    requires IsRun(states, actions) && i < |states|
    ensures Inv(states[i])
  {
    var s := states[0];
    InitialHasInv(s);
    for k := 0 to i
      invariant s == states[k] && Inv(s)
    {
      assert StepAt(states, actions, k);
      NextHasInv(s, actions[k], states[k + 1]);
      s := states[k + 1];
    }
  }

  // ---- What every run guarantees ----

  /** The record carries a consumed approval for its run, task, action and digest, taken by
      the very call it was minted for and not expired at the clock that call read. */
  ghost predicate Approved(s: State, r: Record) {
    r.approvalId.Some? && r.approvalId.value in s.approvals && r.approvalId.value in s.takings
    && var a, taking := s.approvals[r.approvalId.value], s.takings[r.approvalId.value];
       && a.used
       && (a.runId, a.taskId, a.action, a.digest) == (r.runId, r.taskId, r.tool, r.digest)
       && r == RecordOf(taking.call, Destructive, r.approvalId)
       && taking.readAt - a.createdAt <= TTL
  }

  /** The record is that of an admitted call, at the risk of its tool. */
  ghost predicate ForAdmittedCall(r: Record) {
    exists call :: Entitled(call) && HasRisk(call.tool, r.risk) && r == RecordOf(call, r.risk, r.approvalId)
  }

  lemma AuthorisedMeans(s: State, r: Record)
    requires TakingsInv(s) && Authorised(s, r)
    ensures ForAdmittedCall(r)
    ensures r.tool in DESTRUCTIVE <==> r.approvalId.Some?
    ensures r.tool in DESTRUCTIVE ==> Approved(s, r)
  {
    var call :| MintedFor(s, r, call);
    AdmittedIff(call);
    assert r.approvalId.Some? ==> WellTaken(s, r.approvalId.value);
  }

  /** In every state of every run, each authority record was minted for an admitted call;
      if its tool is destructive it carries the consumed approval of that very call, and
      otherwise none; and no two records share one. */
  lemma DestructiveRecordsAreApproved(states: seq<State>, actions: seq<Action>, i: nat)
    requires IsRun(states, actions) && i < |states|
    ensures var s := states[i];
            && (forall r :: r in s.records ==> ForAdmittedCall(s.records[r]))
            && (forall r :: r in s.records ==>
                  (s.records[r].tool in DESTRUCTIVE <==> s.records[r].approvalId.Some?))
            && (forall r :: r in s.records && s.records[r].tool in DESTRUCTIVE ==> Approved(s, s.records[r]))
            && (forall r, q :: r in s.records && q in s.records && r != q && s.records[r].approvalId.Some?
                               ==> s.records[r].approvalId != s.records[q].approvalId)
  {
    var s := states[i];
    RunKeepsInv(states, actions, i);
    forall r | r in s.records
      ensures ForAdmittedCall(s.records[r])
      ensures s.records[r].tool in DESTRUCTIVE <==> s.records[r].approvalId.Some?
      ensures s.records[r].tool in DESTRUCTIVE ==> Approved(s, s.records[r])
    {
      AuthorisedMeans(s, s.records[r]);
    }
    forall r, q | r in s.records && q in s.records && r != q && s.records[r].approvalId.Some?
      ensures s.records[r].approvalId != s.records[q].approvalId
    {
      assert HeldByRecord(s, r, s.records[r].approvalId.value);
      assert !HeldByRecord(s, q, s.records[r].approvalId.value);
    }
  }

  /** Consumed approvals are accounted for, one by one: by records that carry one and by
      calls still about to mint. */
  lemma ConsumedApprovalsAreAccountedFor(states: seq<State>, actions: seq<Action>, i: nat)
    requires IsRun(states, actions) && i < |states|
    ensures |UsedApprovals(states[i])| == |ApprovedRecords(states[i])| + |ApprovedInFlight(states[i])|
  {
    RunKeepsInv(states, actions, i);
  }

  lemma StepKeepsApproval(s: State, a: Action, id: nat)
    requires Enabled(s, a) && id in s.approvals
    ensures var t := Apply(s, a);
            id in t.approvals && (t.approvals[id] == s.approvals[id] || t.approvals[id] == s.approvals[id].(used := true))
    ensures s.approvals[id].used ==> Apply(s, a).approvals[id].used
  {
  }

  /** An approval is never altered except to be used up, and stays used. */
  lemma {:induction false} ApprovalsOnlyGetUsed(states: seq<State>, actions: seq<Action>, i: nat, j: nat, id: nat)
    requires IsRun(states, actions) && i <= j < |states| && id in states[i].approvals
    ensures id in states[j].approvals
    ensures states[j].approvals[id].(used := true) == states[i].approvals[id].(used := true)
    ensures states[i].approvals[id].used ==> states[j].approvals[id].used
  {
    if i < j {
      ApprovalsOnlyGetUsed(states, actions, i, j - 1, id);
      assert StepAt(states, actions, j - 1);
      StepKeepsApproval(states[j - 1], actions[j - 1], id);
    }
  }

  // ---- Waiting for the lock ----

  /** At the end of the run an approval is consumed, of this age, by a call of this kind
      that waited this long for the lock. */
  ghost predicate ConsumedAtAge(s: State, id: nat, call: Call, wait: int, age: int) {
    id in s.takings && id in s.approvals && s.takings[id].call == call
    && s.takings[id].takenAt - s.takings[id].readAt == wait
    && s.takings[id].takenAt - s.approvals[id].createdAt == age
  }

  ghost predicate CanBeConsumedAtAge(call: Call, wait: int, age: int) {
    exists states, actions, id :: IsRun(states, actions) && ConsumedAtAge(states[|actions|], id, call, wait, age)
  }

  /** An approval can be consumed at an age exactly when that age is within the lifetime
      plus the time its call waited for the lock: the clock was read before the wait. */
  lemma AgeAtConsumptionIff(call: Call, wait: nat, age: int)
    requires Admitted(call) && PolicyOf(call.tool).value.risk == Destructive
    ensures CanBeConsumedAtAge(call, wait, age) <==> 0 <= age <= 7200 + wait
  {
    forall states, actions, id | IsRun(states, actions) && ConsumedAtAge(states[|actions|], id, call, wait, age)
      ensures 0 <= age <= TTL + wait
    {
      RunKeepsInv(states, actions, |actions|);
      assert WellTaken(states[|actions|], id);
    }
    if 0 <= age <= TTL + wait {
      var states, actions := RunWithAge(call, wait, age);
      assert ConsumedAtAge(states[|actions|], 0, call, wait, age);
    }
  }

  function RequestFor(call: Call): Approval {
    Approval(call.claims.runId, call.claims.taskId, call.tool, DigestOf(call), "", 0, false)
  }

  lemma RunWithAge(call: Call, wait: nat, age: nat) returns (states: seq<State>, actions: seq<Action>)
    requires Admitted(call) && PolicyOf(call.tool).value.risk == Destructive && age <= TTL + wait
    ensures IsRun(states, actions) && ConsumedAtAge(states[|actions|], 0, call, wait, age)
  {
    if age >= wait {
      states, actions := ApprovedFirst(call, wait, age);
    } else {
      states, actions := ApprovedWhileWaiting(call, wait, age);
    }
  }

  lemma OneByOne(states: seq<State>, actions: seq<Action>, a: Action) returns (ss: seq<State>, aa: seq<Action>)
    requires IsRun(states, actions) && Enabled(states[|actions|], a)
    ensures IsRun(ss, aa) && ss[|aa|] == Apply(states[|actions|], a)
  {
    ss, aa := states + [Apply(states[|actions|], a)], actions + [a];
    forall i: nat | i < |aa|
      ensures StepAt(ss, aa, i)
    {
      if i < |actions| {
        assert StepAt(states, actions, i);
      }
    }
  }

  lemma ApprovedFirst(call: Call, wait: nat, age: nat) returns (states: seq<State>, actions: seq<Action>)
    requires Admitted(call) && PolicyOf(call.tool).value.risk == Destructive && wait <= age <= TTL + wait
    ensures IsRun(states, actions) && ConsumedAtAge(states[|actions|], 0, call, wait, age)
  {
    states, actions := [State(0, map[], map[], map[], map[])], [];
    states, actions := OneByOne(states, actions, Approve(0, RequestFor(call), 0));
    states, actions := OneByOne(states, actions, Tick(age - wait));
    states, actions := OneByOne(states, actions, Arrive(0, call));
    states, actions := OneByOne(states, actions, Tick(age));
    states, actions := OneByOne(states, actions, Decide(0, Taken(0)));
  }

  lemma ApprovedWhileWaiting(call: Call, wait: nat, age: nat) returns (states: seq<State>, actions: seq<Action>)
    requires Admitted(call) && PolicyOf(call.tool).value.risk == Destructive && age < wait
    ensures IsRun(states, actions) && ConsumedAtAge(states[|actions|], 0, call, wait, age)
  {
    states, actions := [State(0, map[], map[], map[], map[])], [];
    states, actions := OneByOne(states, actions, Arrive(0, call));
    states, actions := OneByOne(states, actions, Tick(wait - age));
    states, actions := OneByOne(states, actions, Approve(0, RequestFor(call), wait - age));
    states, actions := OneByOne(states, actions, Tick(wait));
    states, actions := OneByOne(states, actions, Decide(0, Taken(0)));
  }

  // ---- What an approval does not look at ----

  /** Every part of the two calls that an approval does not fix is different; the ceiling
      has to be "write" in both, or a destructive tool is not admitted. */
  predicate NothingElseInCommon(call: Call, other: Call) {
    var a, b := call.claims.identity, other.claims.identity;
    a.actor != b.actor && a.agentInstance != b.agentInstance && a.onBehalfOf != b.onBehalfOf
    && a.tenantId != b.tenantId && a.workspaceId != b.workspaceId && call.repo != other.repo
    && call.claims.scopes != other.claims.scopes
  }

  /** A run in which the approval written for one call clears another of the same run, task,
      tool and arguments, whoever makes it and on whichever repository, and the record that
      is minted names that other caller and repository. */
  lemma ApprovalServesAnyCaller(call: Call, other: Call) returns (states: seq<State>, actions: seq<Action>)
    requires SameWork(call, other) && Admitted(other) && PolicyOf(other.tool).value.risk == Destructive
    ensures IsRun(states, actions) && |states| == 5
    ensures 0 in states[1].approvals && Matches(states[1].approvals[0], call)
    ensures 0 in states[4].records && states[4].records[0] == RecordOf(other, Destructive, Some(0))
  {
    var s0 := State(0, map[], map[], map[], map[]);
    var a0 := Approve(0, RequestFor(call), 0);
    var s1 := Apply(s0, a0);
    var a1 := Arrive(0, other);
    var s2 := Apply(s1, a1);
    var a2 := Decide(0, Taken(0));
    ApprovalFixesTheWorkOnly(s2.approvals[0], call, other);
    var s3 := Apply(s2, a2);
    var a3 := MintRecord(0, 0);
    var s4 := Apply(s3, a3);
    states, actions := [s0, s1, s2, s3, s4], [a0, a1, a2, a3];
    assert IsRun(states, actions) by {
      forall i: nat | i < |actions|
        ensures StepAt(states, actions, i)
      {
      }
    }
  }

  /** There are such calls with nothing else in common: for every destructive call that is
      admitted, another admitted one that differs in every unmatched part. */
  lemma ApprovalServesAStranger(call: Call) returns (other: Call)
    requires Admitted(call) && PolicyOf(call.tool).value.risk == Destructive
    ensures SameWork(call, other) && Admitted(other) && NothingElseInCommon(call, other)
  {
    var c := call.claims;
    var i := c.identity;
    var identity := Identity(i.actor + "'", i.agentInstance + "'", i.onBehalfOf + "'",
                             i.tenantId + "'", i.workspaceId + "'");
    var scope := PolicyOf(call.tool).value.scope;
    var scopes := if c.scopes == {scope} then {scope, scope + "'"} else {scope};
    other := Call(Claims(identity, c.runId, c.taskId, scopes, c.maxRisk), call.tool, call.arguments, call.repo + "'");
    assert |scope + "'"| != |scope|;
    assert scope + "'" in {scope, scope + "'"};
    assert |i.actor + "'"| != |i.actor| && |i.agentInstance + "'"| != |i.agentInstance|;
    assert |i.onBehalfOf + "'"| != |i.onBehalfOf| && |i.tenantId + "'"| != |i.tenantId|;
    assert |i.workspaceId + "'"| != |i.workspaceId| && |call.repo + "'"| != |call.repo|;
  }
}
