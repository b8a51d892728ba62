/** The branch ledger of one issue: commits on named branches, and merging by id. */
module IssueLedger {
  import opened Options

  datatype IssueState = Planned | Exploration | Executing | Verified | Closed

  /** What a commit records besides its identity and its parent. */
  datatype Snapshot = Snapshot(issueRef: nat, state: IssueState, intent: string, acceptanceCriteria: seq<string>,
                               createdBy: string, message: string)

  datatype Commit = CommitRecord(id: nat, parent: Option<nat>, snapshot: Snapshot)

  datatype Action =
    | CheckedOut(name: string)
    | Created(name: string, from: string)
    | Committed(id: nat)
    | Merged(source: string, target: string)

  datatype LedgerEntry = LedgerEntry(actor: string, action: Action)

  datatype Result = Ok | BranchMissing | BranchExists | SourceMissing | TargetMissing

  // ---- Commit lists ----

  function Ids(cs: seq<Commit>): set<nat> {
    set c | c in cs :: c.id
  }

  function Latest(cs: seq<Commit>): Option<nat> {
    if cs == [] then None else Some(cs[|cs| - 1].id)
  }

  /** The source's commits whose ids are not among the existing ones, in order. */
  function NewFrom(source: seq<Commit>, existing: set<nat>): seq<Commit> {
    if source == [] then []
    else
      var last := source[|source| - 1];
      NewFrom(source[..|source| - 1], existing) + if last.id in existing then [] else [last]
  }

  function MergedCommits(target: seq<Commit>, source: seq<Commit>): seq<Commit> {
    target + NewFrom(source, Ids(target))
  }

  // ---- The branches as a value ----

  datatype Graph = Graph(branches: map<string, seq<Commit>>, current: string)

  datatype Op =
    | Checkout(name: string)
    | CreateBranch(name: string)
    | AddCommit(commit: Commit)
    | SemanticMerge(target: string, source: string)

  const MAIN := "main"

  function Empty(): Graph {
    Graph(map[MAIN := []], MAIN)
  }

  /** A commit's parent is always set to the latest commit of the current branch. */
  function Placed(g: Graph, c: Commit): Commit
    requires g.current in g.branches
  {
    c.(parent := Latest(g.branches[g.current]))
  }

  /** What a call does to the branches; the current branch always exists. A call that
      fails changes nothing, and a merge looks for its source first. */
  function Apply(g: Graph, op: Op): (r: (Graph, Result))
    requires g.current in g.branches
    ensures r.0.current in r.0.branches
  {
    match op
    case Checkout(name) =>
      if name in g.branches then (g.(current := name), Ok) else (g, BranchMissing)
    case CreateBranch(name) =>
      if name in g.branches then (g, BranchExists)
      else (g.(branches := g.branches[name := g.branches[g.current]]), Ok)
    case AddCommit(c) =>
      (g.(branches := g.branches[g.current := g.branches[g.current] + [Placed(g, c)]]), Ok)
    case SemanticMerge(target, source) =>
      if source !in g.branches then (g, SourceMissing)
      else if target !in g.branches then (g, TargetMissing)
      else (g.(branches := g.branches[target := MergedCommits(g.branches[target], g.branches[source])]), Ok)
  }

  class IssueGraph {
    const id: nat
    var state: IssueState
    var intent: string
    var constraints: seq<string>
    var branches: map<string, seq<Commit>>
    var currentBranch: string
    var ledger: seq<LedgerEntry>

    ghost predicate Valid()
      reads this
    {
      currentBranch in branches
    }

    ghost function Value(): Graph
      reads this
    {
      Graph(branches, currentBranch)
    }

    constructor (id: nat, intent: string)
      ensures Valid() && Value() == Empty() && branches == map["main" := []] && currentBranch == "main"
      ensures this.id == id && this.intent == intent && state == Planned && constraints == [] && ledger == []
    {
      this.id := id;
      this.intent := intent;
      state := Planned;
      constraints := [];
      branches := map[MAIN := []];
      currentBranch := MAIN;
      ledger := [];
    }

    method AddConstraint(constraint: string)
      modifies this`constraints
      ensures constraints == old(constraints) + [constraint]
    {
      constraints := constraints + [constraint];
    }

    method Checkout(name: string) returns (r: Result)
      requires Valid()
      modifies this`currentBranch, this`ledger
      ensures Valid() && (Value(), r) == Apply(old(Value()), Op.Checkout(name))
      ensures ledger == old(ledger) + if r == Ok then [LedgerEntry("system", CheckedOut(name))] else []
    {
      if name !in branches {
        return BranchMissing;
      }
      currentBranch := name;
      ledger := ledger + [LedgerEntry("system", CheckedOut(name))];
      r := Ok;
    }

    method CreateBranch(name: string) returns (r: Result)
      requires Valid()
      modifies this`branches, this`ledger
      ensures Valid() && (Value(), r) == Apply(old(Value()), Op.CreateBranch(name))
      ensures ledger == old(ledger) + if r == Ok then [LedgerEntry("system", Created(name, currentBranch))] else []
    {
      if name in branches {
        return BranchExists;
      }
      branches := branches[name := branches[currentBranch]];
      ledger := ledger + [LedgerEntry("system", Created(name, currentBranch))];
      r := Ok;
    }

    /** The next commit id is drawn at random; here it is a parameter. */
    method Commit(message: string, createdBy: string, drawn: nat) returns (commitId: nat)
      requires Valid()
      modifies this`branches, this`ledger
      ensures Valid() && commitId == drawn
      ensures var c := CommitRecord(drawn, None, Snapshot(id, state, intent, constraints, createdBy, message));
              Value() == Apply(old(Value()), AddCommit(c)).0
      ensures var was, now := old(branches)[currentBranch], branches[currentBranch];
              && branches == old(branches)[currentBranch := now] && |now| == |was| + 1 && now[..|was|] == was
              && now[|was|] == CommitRecord(drawn, if |was| == 0 then None else Some(was[|was| - 1].id),
                                            Snapshot(id, state, intent, constraints, createdBy, message))
      ensures ledger == old(ledger) + [LedgerEntry(createdBy, Committed(drawn))]
    {
      var parent := Latest(branches[currentBranch]);
      var commit := CommitRecord(drawn, parent, Snapshot(id, state, intent, constraints, createdBy, message));
      branches := branches[currentBranch := branches[currentBranch] + [commit]];
      ledger := ledger + [LedgerEntry(createdBy, Committed(commit.id))];
      commitId := commit.id;
    }

    /** The caller supplies everything but the parent, the id included. */
    method CommitDetailed(given: Commit) returns (commitId: nat)
      requires Valid()
      modifies this`branches, this`ledger
      ensures Valid() && commitId == given.id
      ensures Value() == Apply(old(Value()), AddCommit(given)).0
      ensures var was, now := old(branches)[currentBranch], branches[currentBranch];
              && branches == old(branches)[currentBranch := now] && |now| == |was| + 1 && now[..|was|] == was
              && now[|was|] == CommitRecord(given.id, if |was| == 0 then None else Some(was[|was| - 1].id), given.snapshot)
      ensures ledger == old(ledger) + [LedgerEntry(given.snapshot.createdBy, Committed(given.id))]
    {
      var commit := given.(parent := Latest(branches[currentBranch]));
      branches := branches[currentBranch := branches[currentBranch] + [commit]];
      ledger := ledger + [LedgerEntry(commit.snapshot.createdBy, Committed(commit.id))];
      commitId := commit.id;
    }

    method SemanticMerge(target: string, source: string) returns (r: Result)
      requires Valid()
      modifies this`branches, this`ledger
      ensures Valid() && (Value(), r) == Apply(old(Value()), Op.SemanticMerge(target, source))
      ensures ledger == old(ledger) + if r == Ok then [LedgerEntry("system", Merged(source, target))] else []
    {
      if source !in branches {
        return SourceMissing;
      }
      var incoming := branches[source];
      if target !in branches {
        return TargetMissing;
      }
      var commits := branches[target];
      var existing := Ids(commits);
      for i := 0 to |incoming|
        invariant commits == branches[target] + NewFrom(incoming[..i], existing)
      {
        assert incoming[..i + 1][..i] == incoming[..i];
        if incoming[i].id !in existing {
          commits := commits + [incoming[i]];
        }
      }
      assert incoming[..|incoming|] == incoming;
      branches := branches[target := commits];
      ledger := ledger + [LedgerEntry("system", Merged(source, target))];
      r := Ok;
    }
  }

  // ---- Merging ----

  lemma {:induction false} NewFromMember(source: seq<Commit>, existing: set<nat>, c: Commit)
    ensures c in NewFrom(source, existing) <==> c in source && c.id !in existing
  {
    if source != [] {
      var init, last := source[..|source| - 1], source[|source| - 1];
      assert source == init + [last];
      NewFromMember(init, existing, c);
    }
  }

  /** A merge keeps the target's commits in place as a prefix and ends with the ids of
      both branches. */
  lemma MergeKeepsTargetAndAddsSource(target: seq<Commit>, source: seq<Commit>)
    ensures target <= MergedCommits(target, source)
    ensures Ids(MergedCommits(target, source)) == Ids(target) + Ids(source)
  {
    var merged := MergedCommits(target, source);
    forall id | id in Ids(target) + Ids(source)
      ensures id in Ids(merged)
    {
      if id in Ids(target) {
        var c :| c in target && c.id == id;
        assert c in merged;
      } else {
        var c :| c in source && c.id == id;
        NewFromMember(source, Ids(target), c);
        assert c in merged;
      }
    }
    forall c | c in merged
      ensures c.id in Ids(target) + Ids(source)
    {
      NewFromMember(source, Ids(target), c);
    }
  }

  lemma MergeAddsNothingIff(target: seq<Commit>, source: seq<Commit>)
    ensures MergedCommits(target, source) == target <==> Ids(source) <= Ids(target)
  {
    var added := NewFrom(source, Ids(target));
    if added != [] {
      NewFromMember(source, Ids(target), added[0]);
      assert added[0].id in Ids(source);
    }
    if !(Ids(source) <= Ids(target)) {
      var id :| id in Ids(source) && id !in Ids(target);
      var c :| c in source && c.id == id;
      NewFromMember(source, Ids(target), c);
    }
  }

  /** Merging the same source again, or a branch into itself, adds no commits. */
  lemma RepeatedMergeAddsNothing(target: seq<Commit>, source: seq<Commit>)
    ensures MergedCommits(MergedCommits(target, source), source) == MergedCommits(target, source)
    ensures MergedCommits(target, target) == target
  {
    MergeKeepsTargetAndAddsSource(target, source);
    MergeAddsNothingIff(MergedCommits(target, source), source);
    MergeAddsNothingIff(target, target);
  }

  ghost predicate Identifies(cs: seq<Commit>, ds: seq<Commit>) {
    forall c, d :: c in cs && d in ds && c.id == d.id ==> c == d
  }

  /** A merge carries over every source commit exactly when no id stands for one commit
      on the source and only for others on the target. */
  lemma MergeLosesNoCommitIff(target: seq<Commit>, source: seq<Commit>)
    ensures (forall c :: c in source ==> c in MergedCommits(target, source))
            <==> forall c :: c in source && c.id in Ids(target) ==> c in target
  {
    forall c
      ensures c in MergedCommits(target, source) <==> c in target || (c in source && c.id !in Ids(target))
    {
      NewFromMember(source, Ids(target), c);
    }
  }

  // ---- Every reachable state ----

  ghost predicate DistinctIds(cs: seq<Commit>) {
    forall i, j :: 0 <= i < j < |cs| ==> cs[i].id != cs[j].id
  }

  ghost predicate ParentEarlier(cs: seq<Commit>, i: nat)
    requires i < |cs|
  {
    cs[i].parent.Some? ==> exists j :: 0 <= j < i && cs[j].id == cs[i].parent.value
  }

  ghost predicate ParentsEarlier(cs: seq<Commit>) {
    forall i: nat :: i < |cs| ==> ParentEarlier(cs, i)
  }

  ghost function Reached(ops: seq<Op>): (g: Graph)
    ensures g.current in g.branches
  {
    if ops == [] then Empty() else Apply(Reached(ops[..|ops| - 1]), ops[|ops| - 1]).0
  }

  lemma {:induction false} NewFromDistinct(source: seq<Commit>, existing: set<nat>)
    requires DistinctIds(source)
    ensures DistinctIds(NewFrom(source, existing))
  {
    if source != [] {
      var init, last := source[..|source| - 1], source[|source| - 1];
      NewFromDistinct(init, existing);
      forall c | c in NewFrom(init, existing)
        ensures c.id != last.id
      {
        NewFromMember(init, existing, c);
        var i :| 0 <= i < |init| && init[i] == c;
        assert source[i] == c;
      }
    }
  }

  lemma MergeKeepsDistinct(target: seq<Commit>, source: seq<Commit>)
    requires DistinctIds(target) && DistinctIds(source)
    ensures DistinctIds(MergedCommits(target, source))
  {
    var added := NewFrom(source, Ids(target));
    NewFromDistinct(source, Ids(target));
    forall i, j | 0 <= i < |target| && 0 <= j < |added|
      ensures target[i].id != added[j].id
    {
      NewFromMember(source, Ids(target), added[j]);
      assert target[i] in target;
    }
  }

  /** Appending one commit keeps parents earlier when its own parent is there. */
  lemma AppendKeepsParents(cs: seq<Commit>, c: Commit)
    requires ParentsEarlier(cs) && (c.parent.Some? ==> c.parent.value in Ids(cs))
    ensures ParentsEarlier(cs + [c])
  {
    var more := cs + [c];
    forall i: nat | i < |more|
      ensures ParentEarlier(more, i)
    {
      if i < |cs| {
        assert ParentEarlier(cs, i);
        if cs[i].parent.Some? {
          var j :| 0 <= j < i && cs[j].id == cs[i].parent.value;
          assert more[j].id == more[i].parent.value;
        }
      } else if c.parent.Some? {
        var d :| d in cs && d.id == c.parent.value;
        var j :| 0 <= j < |cs| && cs[j] == d;
        assert more[j].id == more[i].parent.value;
      }
    }
  }

  lemma {:induction false} MergeKeepsParents(target: seq<Commit>, source: seq<Commit>, n: nat)
    requires ParentsEarlier(target) && ParentsEarlier(source) && n <= |source|
    ensures ParentsEarlier(target + NewFrom(source[..n], Ids(target)))
  {
    if n == 0 {
      assert target + NewFrom(source[..0], Ids(target)) == target;
    } else {
      MergeKeepsParents(target, source, n - 1);
      var init, last := source[..n - 1], source[n - 1];
      assert source[..n][..n - 1] == init;
      var before := target + NewFrom(init, Ids(target));
      if last.id !in Ids(target) {
        if last.parent.Some? {
          assert ParentEarlier(source, n - 1);
          var j :| 0 <= j < n - 1 && source[j].id == last.parent.value;
          assert init[j] == source[j];
          MergeKeepsTargetAndAddsSource(target, init);
          assert source[j].id in Ids(init);
        }
        AppendKeepsParents(before, last);
        assert before + [last] == target + NewFrom(source[..n], Ids(target));
      } else {
        assert before == target + NewFrom(source[..n], Ids(target));
      }
    }
  }

  ghost predicate AllParentsEarlier(g: Graph) {
    forall name :: name in g.branches ==> ParentsEarlier(g.branches[name])
  }

  /** In every reachable state, even after merges and whatever ids were supplied, a
      commit's parent stands earlier on the same branch. */
  lemma {:induction false} ParentsStayEarlier(ops: seq<Op>)
    ensures AllParentsEarlier(Reached(ops))
  {
    if ops != [] {
      var g, op := Reached(ops[..|ops| - 1]), ops[|ops| - 1];
      ParentsStayEarlier(ops[..|ops| - 1]);
      match op
      case Checkout(_) =>
      case CreateBranch(_) =>
      case AddCommit(c) =>
        var cs := g.branches[g.current];
        assert cs != [] ==> cs[|cs| - 1] in cs;
        AppendKeepsParents(cs, Placed(g, c));
      case SemanticMerge(target, source) =>
        if source in g.branches && target in g.branches {
          var s := g.branches[source];
          MergeKeepsParents(g.branches[target], s, |s|);
          assert s[..|s|] == s;
        }
    }
  }

  /** The commit's parent is the one right before it. */
  predicate ParentBefore(cs: seq<Commit>, i: nat)
    requires i < |cs|
  {
    cs[i].parent == if i == 0 then None else Some(cs[i - 1].id)
  }

  ghost predicate Straight(cs: seq<Commit>) {
    forall i: nat :: i < |cs| ==> ParentBefore(cs, i)
  }

  /** The branches a merge was made into, and the copies made of them afterwards. */
  ghost function MergedInto(ops: seq<Op>): set<string> {
    if ops == [] then {}
    else
      var init, op := ops[..|ops| - 1], ops[|ops| - 1];
      MergedInto(init)
      + if op.SemanticMerge? then {op.target}
        else if op.CreateBranch? && Reached(init).current in MergedInto(init) then {op.name}
        else {}
  }

  /** Away from merges history is a chain: on every branch that no merge was made into and
      that is no copy of such a one, each commit's parent is the commit right before it. */
  lemma {:induction false} HistoryIsAChain(ops: seq<Op>, name: string)
    requires name in Reached(ops).branches && name !in MergedInto(ops)
    ensures Straight(Reached(ops).branches[name])
  {
    if ops != [] {
      var init, op := ops[..|ops| - 1], ops[|ops| - 1];
      if name in Reached(init).branches {
        HistoryIsAChain(init, name);
      }
      var g := Reached(init);
      if op.CreateBranch? && name !in g.branches {
        HistoryIsAChain(init, g.current);
      } else if op.AddCommit? && name == g.current {
        AppendKeepsStraight(g.branches[name], Placed(g, op.commit));
      }
    }
  }

  lemma AppendKeepsStraight(cs: seq<Commit>, c: Commit)
    requires Straight(cs) && c.parent == if cs == [] then None else Some(cs[|cs| - 1].id)
    ensures Straight(cs + [c])
  {
    var more := cs + [c];
    forall i: nat | i < |more|
      ensures ParentBefore(more, i)
    {
      assert i < |cs| ==> ParentBefore(cs, i);
    }
  }

  ghost predicate AllDistinct(g: Graph) {
    forall name :: name in g.branches ==> DistinctIds(g.branches[name])
  }

  ghost predicate DistinctThroughout(ops: seq<Op>) {
    forall n: nat :: n <= |ops| ==> AllDistinct(Reached(ops[..n]))
  }

  /** The id of the n-th call's commit, if it makes one, is new to the current branch. */
  ghost predicate FreshAt(ops: seq<Op>, n: nat)
    requires n < |ops|
  {
    ops[n].AddCommit? ==>
      var g := Reached(ops[..n]);
      ops[n].commit.id !in Ids(g.branches[g.current])
  }

  lemma StepKeepsDistinctIff(g: Graph, op: Op)
    requires g.current in g.branches && AllDistinct(g)
    ensures AllDistinct(Apply(g, op).0) <==> op.AddCommit? ==> op.commit.id !in Ids(g.branches[g.current])
  {
    match op
    case Checkout(_) =>
    case CreateBranch(_) =>
    case AddCommit(c) =>
      var cs := g.branches[g.current];
      var h := Apply(g, op).0;
      assert h.branches[g.current] == cs + [Placed(g, c)];
      if c.id in Ids(cs) {
        var d :| d in cs && d.id == c.id;
        var i :| 0 <= i < |cs| && cs[i] == d;
        assert !DistinctIds(cs + [Placed(g, c)]) by {
          assert (cs + [Placed(g, c)])[i].id == (cs + [Placed(g, c)])[|cs|].id;
        }
      } else {
        assert forall i :: 0 <= i < |cs| ==> cs[i] in cs;
      }
    case SemanticMerge(target, source) =>
      if source in g.branches && target in g.branches {
        MergeKeepsDistinct(g.branches[target], g.branches[source]);
      }
  }

  lemma {:induction false} DistinctUpTo(ops: seq<Op>, n: nat)
    requires n <= |ops| && forall k: nat :: k < |ops| ==> FreshAt(ops, k)
    ensures AllDistinct(Reached(ops[..n]))
  {
    if n > 0 {
      DistinctUpTo(ops, n - 1);
      assert ops[..n][..n - 1] == ops[..n - 1];
      assert FreshAt(ops, n - 1);
      StepKeepsDistinctIff(Reached(ops[..n - 1]), ops[n - 1]);
    }
  }

  /** Ids stay distinct on every branch throughout a run exactly when every commit's id
      was new to the branch it was made on. Merging never needs more than that. */
  lemma IdsStayDistinctIff(ops: seq<Op>)
    ensures DistinctThroughout(ops) <==> forall n: nat :: n < |ops| ==> FreshAt(ops, n)
  {
    if forall n: nat :: n < |ops| ==> FreshAt(ops, n) {
      forall n: nat | n <= |ops|
        ensures AllDistinct(Reached(ops[..n]))
      {
        DistinctUpTo(ops, n);
      }
    }
    if DistinctThroughout(ops) {
      forall n: nat | n < |ops|
        ensures FreshAt(ops, n)
      {
        assert AllDistinct(Reached(ops[..n])) && AllDistinct(Reached(ops[..n + 1]));
        assert ops[..n + 1][..n] == ops[..n];
        StepKeepsDistinctIff(Reached(ops[..n]), ops[n]);
      }
    }
  }

  // ---- Ids drawn fresh over the whole graph ----

  ghost predicate KnownId(g: Graph, id: nat) {
    exists name :: name in g.branches && id in Ids(g.branches[name])
  }

  ghost predicate IdsNameCommits(g: Graph) {
    forall name, other :: name in g.branches && other in g.branches ==>
      Identifies(g.branches[name], g.branches[other])
  }

  ghost predicate FreshEverywhere(ops: seq<Op>, n: nat)
    requires n < |ops|
  {
    ops[n].AddCommit? ==> !KnownId(Reached(ops[..n]), ops[n].commit.id)
  }

  lemma CommitsOfMerge(target: seq<Commit>, source: seq<Commit>, c: Commit)
    ensures c in MergedCommits(target, source) ==> c in target || c in source
  {
    NewFromMember(source, Ids(target), c);
  }

  /** The branch a commit stood on before a call, unless the call made it. */
  lemma Provenance(g: Graph, op: Op, name: string, c: Commit) returns (was: string)
    requires g.current in g.branches
    requires name in Apply(g, op).0.branches && c in Apply(g, op).0.branches[name]
    requires !(op.AddCommit? && c == Placed(g, op.commit))
    ensures was in g.branches && c in g.branches[was]
  {
    was := if name in g.branches && c in g.branches[name] then name
           else if op.SemanticMerge? then op.source
           else g.current;
    if op.SemanticMerge? && op.source in g.branches && op.target in g.branches {
      CommitsOfMerge(g.branches[op.target], g.branches[op.source], c);
    }
  }

  lemma StepKeepsNames(g: Graph, op: Op)
    requires g.current in g.branches && IdsNameCommits(g)
    requires op.AddCommit? ==> !KnownId(g, op.commit.id)
    ensures IdsNameCommits(Apply(g, op).0)
  {
    var h := Apply(g, op).0;
    forall name, other, c, d | name in h.branches && other in h.branches && c in h.branches[name]
                               && d in h.branches[other] && c.id == d.id
      ensures c == d
    {
      OldIdsAreKnown(g, op, name, c);
      OldIdsAreKnown(g, op, other, d);
      if !IsNew(g, op, c) && !IsNew(g, op, d) {
        var m := Provenance(g, op, name, c);
        var n := Provenance(g, op, other, d);
        assert Identifies(g.branches[m], g.branches[n]);
      }
    }
  }

  ghost predicate IsNew(g: Graph, op: Op, c: Commit)
    requires g.current in g.branches
  {
    op.AddCommit? && c == Placed(g, op.commit)
  }

  lemma OldIdsAreKnown(g: Graph, op: Op, name: string, c: Commit)
    requires g.current in g.branches
    requires name in Apply(g, op).0.branches && c in Apply(g, op).0.branches[name]
    ensures IsNew(g, op, c) || KnownId(g, c.id)
  {
    if !IsNew(g, op, c) {
      var was := Provenance(g, op, name, c);
      assert c.id in Ids(g.branches[was]);
    }
  }

  /** When ids are drawn fresh, an id stands for one commit on all branches, in every
      reachable state; so a merge loses no commit. */
  lemma {:induction false} FreshIdsNameCommits(ops: seq<Op>)
    requires forall n: nat :: n < |ops| ==> FreshEverywhere(ops, n)
    ensures IdsNameCommits(Reached(ops))
  {
    if ops != [] {
      var init := ops[..|ops| - 1];
      forall n: nat | n < |init|
        ensures FreshEverywhere(init, n)
      {
        assert FreshEverywhere(ops, n) && init[..n] == ops[..n];
      }
      FreshIdsNameCommits(init);
      assert FreshEverywhere(ops, |ops| - 1);
      StepKeepsNames(Reached(init), ops[|ops| - 1]);
    }
  }

  ghost predicate MergeIsLossless(g: Graph, target: string, source: string)
    requires g.current in g.branches && target in g.branches && source in g.branches
  {
    var merged := Apply(g, SemanticMerge(target, source)).0.branches[target];
    forall c :: c in merged <==> c in g.branches[target] || c in g.branches[source]
  }

  lemma NamedMergeIsLossless(g: Graph, target: string, source: string)
    requires g.current in g.branches && target in g.branches && source in g.branches
    requires IdsNameCommits(g)
    ensures MergeIsLossless(g, target, source)
  {
    assert Identifies(g.branches[source], g.branches[target]);
    MergeIsUnion(g.branches[target], g.branches[source]);
  }

  lemma MergeLosesNothing(ops: seq<Op>, target: string, source: string)
    requires forall n: nat :: n < |ops| ==> FreshEverywhere(ops, n)
    requires target in Reached(ops).branches && source in Reached(ops).branches
    ensures MergeIsLossless(Reached(ops), target, source)
  {
    FreshIdsNameCommits(ops);
    NamedMergeIsLossless(Reached(ops), target, source);
  }

  lemma MergeIsUnion(t: seq<Commit>, s: seq<Commit>)
    requires Identifies(s, t)
    ensures forall c :: c in MergedCommits(t, s) <==> c in t || c in s
  {
    forall c | c in s && c.id in Ids(t)
      ensures c in t
    {
      var d :| d in t && d.id == c.id;
    }
    MergeLosesNoCommitIff(t, s);
    forall c
      ensures c in MergedCommits(t, s) ==> c in t || c in s
    {
      CommitsOfMerge(t, s, c);
    }
  }
}
