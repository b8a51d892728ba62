/** The gateway's policy tables and its locked approval and authority tables. */
module Authority {
  import opened Options

  // ---- Policy ----

  datatype Risk = Read | Write | Destructive

  datatype ToolPolicy = ToolPolicy(risk: Risk, scope: string)

  function PolicyOf(tool: string): Option<ToolPolicy> {
    if tool == "repo.diff.read" then Some(ToolPolicy(Read, "repo.diff.read"))
    else if tool == "repo.diff.write" then Some(ToolPolicy(Write, "repo.diff.write"))
    else if tool == "repo.merge.execute" then Some(ToolPolicy(Destructive, "repo.merge.execute"))
    else if tool == "memory::write" then Some(ToolPolicy(Write, "memory.write"))
    else if tool == "memory::query" then Some(ToolPolicy(Read, "memory.read"))
    else if tool == "memory::context_pack" then Some(ToolPolicy(Read, "memory.read"))
    else if tool == "memory::delete" then Some(ToolPolicy(Destructive, "memory.delete"))
    else None
  }

  /** The ceiling in a token is free text. */
  predicate ExceedsMaxRisk(risk: Risk, maxRisk: string) {
    match risk
    case Read => false
    case Write => maxRisk == "read"
    case Destructive => maxRisk != "write"
  }

  function Level(risk: Risk): nat {
    match risk
    case Read => 0
    case Write => 1
    case Destructive => 2
  }

  /** The risk a ceiling text really allows. */
  function Allows(maxRisk: string): Risk {
    if maxRisk == "read" then Read else if maxRisk == "write" then Destructive else Write
  }

  /** Every text acts as a ceiling in the order of the risks, but not by its name: "write"
      allows everything, and any text that is neither "read" nor "write", the text
      "destructive" included, stops at write. */
  lemma EveryTextIsACeiling(risk: Risk, maxRisk: string)
    ensures ExceedsMaxRisk(risk, maxRisk) <==> Level(risk) > Level(Allows(maxRisk))
  {
    assert |"read"| != |"write"|;
  }

  /** The tools that change what cannot be brought back. */
  const DESTRUCTIVE: set<string> := {"repo.merge.execute", "memory::delete"}

  const WRITING: set<string> := {"repo.diff.write", "memory::write"}

  const READING: set<string> := {"repo.diff.read", "memory::query", "memory::context_pack"}

  // ---- Approvals and authority records ----

  /** The hash of the tool's name followed by the arguments; injective. */
  datatype Digest = Digest(text: string)

  /** Who calls: the identities a token names and an authority record keeps. */
  datatype Identity = Identity(actor: string, agentInstance: string, onBehalfOf: string,
                               tenantId: string, workspaceId: string)

  datatype Claims = Claims(identity: Identity, runId: string, taskId: string, scopes: set<string>, maxRisk: string)

  datatype Call = Call(claims: Claims, tool: string, arguments: string, repo: string)

  function DigestOf(call: Call): Digest {
    Digest(call.tool + call.arguments)
  }

  datatype Approval = Approval(runId: string, taskId: string, action: string, digest: Digest,
                               approvedBy: string, createdAt: int, used: bool)

  datatype Record = Record(identity: Identity, runId: string, taskId: string, tool: string, digest: Digest, repo: string,
                           risk: Risk, approvalId: Option<nat>)

  /** Two hours, in the clock's seconds. */
  const TTL: int := 7200

  predicate Matches(a: Approval, call: Call) {
    a.runId == call.claims.runId && a.taskId == call.claims.taskId
    && a.action == call.tool && a.digest == DigestOf(call)
  }

  predicate IsFresh(a: Approval, call: Call, now: int) {
    Matches(a, call) && !a.used && now - a.createdAt <= TTL
  }

  /** The calls one approval can serve: same run, task, tool and argument text. */
  predicate SameWork(call: Call, other: Call) {
    other.claims.runId == call.claims.runId && other.claims.taskId == call.claims.taskId
    && other.tool == call.tool && other.arguments == call.arguments
  }

  /** An approval fixes the run, the task, the tool and the argument text of the calls it
      fits, and nothing else: not who calls, for whom, in which tenant and workspace, with
      which scopes and ceiling, nor on which repository. */
  lemma ApprovalFixesTheWorkOnly(a: Approval, call: Call, other: Call)
    requires Matches(a, call)
    ensures Matches(a, other) <==> SameWork(call, other)
  {
    if Matches(a, other) {
      var n := |call.tool|;
      assert call.arguments == (call.tool + call.arguments)[n..];
      assert other.arguments == (other.tool + other.arguments)[n..];
    }
  }

  function RecordOf(call: Call, risk: Risk, approvalId: Option<nat>): Record {
    Record(call.claims.identity, call.claims.runId, call.claims.taskId, call.tool, DigestOf(call), call.repo, risk, approvalId)
  }

  function WithUsed(approvals: map<nat, Approval>, id: nat): map<nat, Approval>
    requires id in approvals
  {
    approvals[id := approvals[id].(used := true)]
  }

  /** Why a destructive call is held back. */
  datatype Refusal = Escalated | Expired | Consumed

  ghost predicate Explains(r: Refusal, approvals: map<nat, Approval>, call: Call, now: int) {
    match r
    case Escalated => forall id :: id in approvals ==> !Matches(approvals[id], call)
    case Consumed => exists id :: id in approvals && Matches(approvals[id], call) && approvals[id].used
    case Expired =>
      exists id :: id in approvals && Matches(approvals[id], call) && !approvals[id].used
                   && now - approvals[id].createdAt > TTL
  }

  datatype Decision = Taken(approvalId: nat) | Held(refusal: Refusal)

  // ---- The steps on the two tables, shared by the class and by whole runs ----

  /** A decision is right when it takes a fresh matching approval, or there is none and it
      gives a true reason. */
  ghost predicate Decides(approvals: map<nat, Approval>, call: Call, now: int, d: Decision) {
    match d
    case Taken(id) => id in approvals && IsFresh(approvals[id], call, now)
    case Held(refusal) =>
      (forall id :: id in approvals ==> !IsFresh(approvals[id], call, now)) && Explains(refusal, approvals, call, now)
  }

  ghost function AfterDecision(approvals: map<nat, Approval>, d: Decision): map<nat, Approval> {
    if d.Taken? && d.approvalId in approvals then WithUsed(approvals, d.approvalId) else approvals
  }

  function WithApproval(approvals: map<nat, Approval>, id: nat, request: Approval, now: int): map<nat, Approval> {
    approvals[id := request.(createdAt := now, used := false)]
  }

  function WithRecord(records: map<nat, Record>, authorityId: nat, call: Call, risk: Risk,
                      approvalId: Option<nat>): map<nat, Record> {
    records[authorityId := RecordOf(call, risk, approvalId)]
  }

  class GatewayState {
    var approvals: map<nat, Approval>
    var records: map<nat, Record>

    constructor ()
      ensures approvals == map[] && records == map[]
    {
      approvals := map[];
      records := map[];
    }

    /** Approval ids are drawn at random; here a fresh one is given. */
    method CreateApproval(id: nat, request: Approval, now: int)
      requires id !in approvals
      modifies this`approvals
      ensures approvals == WithApproval(old(approvals), id, request, now)
    {
      approvals := approvals[id := request.(createdAt := now, used := false)];
    }

    /** The section under the approvals lock. It takes some fresh matching approval when
        there is one, marking that one and no other; otherwise it changes nothing and names
        a true reason, which is never the one the source calls unreachable. */
    method DecideApproval(call: Call, now: int) returns (d: Decision)
      modifies this`approvals
      ensures Decides(old(approvals), call, now, d) && approvals == AfterDecision(old(approvals), d)
    {
      var candidates := set id | id in approvals && IsFresh(approvals[id], call, now);
      if candidates != {} {
        var id :| id in candidates;
        approvals := approvals[id := approvals[id].(used := true)];
        return Taken(id);
      }
      forall id | id in approvals
        ensures !IsFresh(approvals[id], call, now)
      {
        assert id !in candidates;
      }
      var matching := set id | id in approvals && Matches(approvals[id], call);
      if matching == {} {
        forall id | id in approvals
          ensures !Matches(approvals[id], call)
        {
          assert id !in matching;
        }
        return Held(Escalated);
      }
      var id :| id in matching;
      d := Held(if approvals[id].used then Consumed else Expired);
    }

    method Mint(authorityId: nat, call: Call, risk: Risk, approvalId: Option<nat>)
      requires authorityId !in records
      modifies this`records
      ensures records == WithRecord(old(records), authorityId, call, risk, approvalId)
    {
      records := records[authorityId := RecordOf(call, risk, approvalId)];
    }
  }
}
