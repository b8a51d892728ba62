/** Where the two run stores differ, and exactly when. */
module RunLimits {
  import opened Options
  import opened RunModel
  import opened RunRefinement
  import Text

  // ---- Repositories that share a query key ----

  /** Within its limit, listing a repository agrees exactly when no run of a differently
      named repository has the same `owner/repo` text. */
  lemma SharedKeyIff(runs: seq<Run>, m: Mesh, owner: string, repo: string)
    requires Tracked(runs, m) && |RepoDocs(m.events, RepoKey(owner, repo))| <= REPO_LIMIT
    ensures multiset(NewestFirst(OfRepo(runs, owner, repo)))
            == multiset(Firsts(Limited(RepoDocs(m.events, RepoKey(owner, repo)), REPO_LIMIT)))
            <==> Unambiguous(runs, owner, repo)
  {
    ListByRepoAgreesIff(runs, m, owner, repo);
    forall r | r in runs
      ensures RepoKey(r.owner, r.repo) == RepoKey(owner, repo)
              <==> Mentions(Limited(RepoDocs(m.events, RepoKey(owner, repo)), REPO_LIMIT), r.id)
    {
      WholeWindow(runs, m, (x: Run) => RepoKey(x.owner, x.repo) == RepoKey(owner, repo), REPO_LIMIT, r);
    }
  }

  lemma SlashFreeKeysDiffer(owner: string, repo: string, owner': string, repo': string)
    requires '/' !in owner && '/' !in owner' && RepoKey(owner, repo) == RepoKey(owner', repo')
    ensures owner == owner' && repo == repo'
  {
    var k := RepoKey(owner, repo);
    Text.IndexOfAfter(owner, '/', repo);
    Text.IndexOfAfter(owner', '/', repo');
    assert owner == k[..|owner|] && repo == k[|owner| + 1..];
    assert owner' == k[..|owner'|] && repo' == k[|owner'| + 1..];
  }

  /** Owners without a slash make every key unambiguous. */
  lemma SlashFreeOwnersAreUnambiguous(runs: seq<Run>, owner: string, repo: string)
    requires '/' !in owner && forall r :: r in runs ==> '/' !in r.owner
    ensures Unambiguous(runs, owner, repo)
  {
    forall r | r in runs && RepoKey(r.owner, r.repo) == RepoKey(owner, repo)
      ensures r.owner == owner && r.repo == repo
    {
      SlashFreeKeysDiffer(r.owner, r.repo, owner, repo);
    }
  }

  lemma NothingTracked()
    ensures Tracked([], Mesh([], {}))
  {
  }

  lemma OneRunTracked(r: Run)
    requires r.status == Queued
    ensures Tracked([r], Mesh([r], {}))
  {
    assert [] + [r] == [r];
    NothingTracked();
    EnqueueKeepsTracked([], Mesh([], {}), r);
  }

  lemma TwoRunsTracked(r: Run, q: Run)
    requires r.id != q.id && r.status == q.status == Queued && r.createdAt <= q.createdAt
    ensures Tracked([r, q], Mesh([r, q], {}))
  {
    assert [r] + [q] == [r, q];
    OneRunTracked(r);
    EnqueueKeepsTracked([r], Mesh([r], {}), q);
  }

  /** Two runs, one of owner "a/b" with repository "c" and one of owner "a" with repository
      "b/c", whatever the texts a, b and c: asked for the first repository, the event-sourced
      store does not list the same runs as the other one. */
  lemma SlashesShareAKey(a: string, b: string, c: string, x: string, y: string)
    requires x != y
    ensures var runs := [Run(x, RepoKey(a, b), c, Queued, 0), Run(y, a, RepoKey(b, c), Queued, 0)];
            Tracked(runs, Mesh(runs, {})) && !Unambiguous(runs, RepoKey(a, b), c)
            && multiset(NewestFirst(OfRepo(runs, RepoKey(a, b), c)))
               != multiset(Firsts(Limited(RepoDocs(runs, RepoKey(RepoKey(a, b), c)), REPO_LIMIT)))
  {
    var r, q := Run(x, RepoKey(a, b), c, Queued, 0), Run(y, a, RepoKey(b, c), Queued, 0);
    TwoRunsTracked(r, q);
    KeysNest(a, b, c);
    assert q in [r, q];
    SharedKeyIff([r, q], Mesh([r, q], {}), RepoKey(a, b), c);
  }

  lemma KeysNest(a: string, b: string, c: string)
    ensures RepoKey(RepoKey(a, b), c) == RepoKey(a, RepoKey(b, c)) && RepoKey(a, b) != a
  {
    assert RepoKey(RepoKey(a, b), c) == RepoKey(a, RepoKey(b, c));
    assert |RepoKey(a, b)| > |a|;
  }

  // ---- Claiming, whatever the limits and whoever took a key ----

  lemma {:induction false} PickIsCandidate(candidates: seq<Run>, events: seq<Run>, keys: set<string>)
    ensures Pick(candidates, events, keys).Some? ==>
              var r := Pick(candidates, events, keys).value;
              Mentions(candidates, r.id) && Claimable(events, keys, r.id) && Latest(events, r.id) == Some(r)
  {
    if candidates != [] {
      PickIsCandidate(candidates[1..], events, keys);
      if Claimable(events, keys, candidates[0].id) {
        LatestIsOneOf(events, candidates[0].id);
        assert candidates[0].id == candidates[0].id;
      } else if Pick(candidates[1..], events, keys).Some? {
        var r := Pick(candidates[1..], events, keys).value;
        var i :| 0 <= i < |candidates| - 1 && candidates[1..][i].id == r.id;
        assert candidates[i + 1].id == r.id;
      }
    }
  }

  /** The run of an id is queued and its key is free. */
  predicate FreeId(runs: seq<Run>, keys: set<string>, id: string) {
    exists k :: 0 <= k < |runs| && runs[k].id == id && Free(runs[k], keys)
  }

  /** The k-th candidate of the claim query is a document of this run, and no candidate
      before it belongs to a run that could be claimed. */
  predicate LeadsAt(runs: seq<Run>, m: Mesh, k: nat, id: string) {
    var c := Candidates(m.events);
    k < |c| && c[k].id == id && forall j :: 0 <= j < k ==> !FreeId(runs, m.keys, c[j].id)
  }

  ghost predicate OldestLeads(runs: seq<Run>, m: Mesh, i: nat)
    requires i < |runs|
  {
    Free(runs[i], m.keys) && exists k: nat :: LeadsAt(runs, m, k, runs[i].id)
  }

  lemma ClaimableIffFree(runs: seq<Run>, m: Mesh, c: Run)
    requires Tracked(runs, m) && c in Candidates(m.events)
    ensures Claimable(m.events, m.keys, c.id) <==> FreeId(runs, m.keys, c.id)
  {
    CandidateIsRun(runs, m, c);
    var k :| 0 <= k < |runs| && runs[k].id == c.id;
    ClaimableMeansFree(runs, m, k);
  }

  /** The scan finds a first claimable candidate, or there is none. */
  lemma {:induction false} PickFinds(candidates: seq<Run>, events: seq<Run>, keys: set<string>) returns (k: nat)
    requires Pick(candidates, events, keys).Some?
    ensures k < |candidates| && Claimable(events, keys, candidates[k].id)
    ensures forall j :: 0 <= j < k ==> !Claimable(events, keys, candidates[j].id)
    ensures Pick(candidates, events, keys) == Latest(events, candidates[k].id)
  {
    if Claimable(events, keys, candidates[0].id) {
      k := 0;
    } else {
      k := PickFinds(candidates[1..], events, keys);
      k := k + 1;
    }
  }

  /** The event-sourced store claims the oldest queued run exactly when its key is free and
      it leads the query's window among the runs that could be claimed. */
  lemma ClaimAgreesIff(runs: seq<Run>, m: Mesh, i: nat)
    requires Tracked(runs, m) && IsOldestQueued(runs, i)
    ensures MeshStep(m, Claim).1 == One(Some(runs[i].(status := Running)))
            <==> OldestLeads(runs, m, i)
  {
    var c := Candidates(m.events);
    assert runs[i] in runs;
    forall j | 0 <= j < |c|
      ensures Claimable(m.events, m.keys, c[j].id) <==> FreeId(runs, m.keys, c[j].id)
    {
      ClaimableIffFree(runs, m, c[j]);
    }
    ClaimableMeansFree(runs, m, i);
    if MeshStep(m, Claim).1 == One(Some(runs[i].(status := Running))) {
      var k := PickFinds(c, m.events, m.keys);
      LatestIsOneOf(m.events, c[k].id);
      assert LeadsAt(runs, m, k, runs[i].id);
    }
    if Free(runs[i], m.keys) && exists k: nat :: LeadsAt(runs, m, k, runs[i].id) {
      var k: nat :| LeadsAt(runs, m, k, runs[i].id);
      PickIndex(c, m.events, m.keys, k);
    }
  }

  /** Within the claim limit only the key matters: the oldest queued run is claimed exactly
      when no earlier claim of it took the key. */
  lemma RequeuedRunIsClaimedIff(runs: seq<Run>, m: Mesh, i: nat)
    requires Tracked(runs, m) && |QueuedDocs(m.events)| <= CLAIM_LIMIT && IsOldestQueued(runs, i)
    ensures MeshStep(m, Claim).1 == One(Some(runs[i].(status := Running))) <==> ClaimKey(runs[i].id) !in m.keys
  {
    ClaimAgreesIff(runs, m, i);
    if ClaimKey(runs[i].id) !in m.keys {
      ClaimAgrees(runs, m, i);
    }
  }

  /** A queued run whose Queued documents have all dropped out of that window is not
      claimed, however long it has waited; the list store would claim it. */
  lemma RunBeyondTheLimitIsNotClaimed(runs: seq<Run>, m: Mesh, i: nat)
    requires Tracked(runs, m) && IsOldestQueued(runs, i)
    requires !Mentions(Limited(QueuedDocs(m.events), 100), runs[i].id)
    ensures MeshStep(m, Claim).1 != One(Some(runs[i].(status := Running)))
  {
    var window := Limited(QueuedDocs(m.events), CLAIM_LIMIT);
    PickIsCandidate(Candidates(m.events), m.events, m.keys);
    ReverseMentions(window, runs[i].id);
  }

  lemma ReverseMentions(docs: seq<Run>, id: string)
    ensures Mentions(Reverse(docs), id) ==> Mentions(docs, id)
  {
    if Mentions(Reverse(docs), id) {
      var k :| 0 <= k < |docs| && Reverse(docs)[k].id == id;
      assert docs[|docs| - 1 - k].id == id;
    }
  }

  // ---- Every operation, and every history ----

  /** What the surroundings guarantee: ids are drawn fresh and the clock does not go back. */
  ghost predicate Surroundings(runs: seq<Run>, op: Op) {
    op.Enqueue? ==> !Mentions(runs, op.id) && forall r :: r in runs ==> r.createdAt <= op.now
  }

  /** Exactly when an operation gets the same answer from both stores. */
  ghost predicate Agreeable(runs: seq<Run>, m: Mesh, op: Op) {
    match op
    case Enqueue(_, _, _, _) => true
    case SetStatus(_, _) => true
    case Get(_) => true
    case Claim => forall i: nat :: IsOldestQueued(runs, i) ==> OldestLeads(runs, m, i)
    case ListAll => forall r :: r in runs ==> Mentions(Limited(AllDocs(m.events), 1000), r.id)
    case ListByRepo(owner, repo) =>
      forall r :: r in runs ==>
        (r.owner == owner && r.repo == repo
         <==> Mentions(Limited(RepoDocs(m.events, RepoKey(owner, repo)), 500), r.id))
  }

  lemma OneOldest(runs: seq<Run>, i: nat, j: nat)
    requires IsOldestQueued(runs, i) && IsOldestQueued(runs, j)
    ensures i == j
  {
  }

  lemma AgreeableClaim(runs: seq<Run>, m: Mesh, i: nat)
    requires IsOldestQueued(runs, i)
    ensures Agreeable(runs, m, Claim) <==> OldestLeads(runs, m, i)
  {
    forall j: nat | IsOldestQueued(runs, j)
      ensures j == i
    {
      OneOldest(runs, i, j);
    }
  }

  lemma ClaimKeepsTracked(runs: seq<Run>, m: Mesh, i: nat)
    requires Tracked(runs, m) && i < |runs|
    requires MeshStep(m, Claim).1 == One(Some(runs[i].(status := Running)))
    ensures Tracked(runs[i := runs[i].(status := Running)], MeshStep(m, Claim).0)
  {
    var running := runs[i].(status := Running);
    UpdateKeepsTracked(runs, m, i, running, m.keys + {ClaimKey(running.id)});
  }

  lemma ClaimStepIff(runs: seq<Run>, m: Mesh, after: seq<Run>, reply: Reply)
    requires Tracked(runs, m) && MemStep(runs, Claim, after, reply)
    ensures SameReply(reply, MeshStep(m, Claim).1) <==> Agreeable(runs, m, Claim)
    ensures SameReply(reply, MeshStep(m, Claim).1) ==> Tracked(after, MeshStep(m, Claim).0)
  {
    if !AnyQueued(runs) {
      NoClaimAgrees(runs, m);
    } else {
      var i: nat :| IsOldestQueued(runs, i)
                    && after == runs[i := runs[i].(status := Running)] && reply == One(Some(after[i]));
      AgreeableClaim(runs, m, i);
      ClaimAgreesIff(runs, m, i);
      if reply == MeshStep(m, Claim).1 {
        ClaimKeepsTracked(runs, m, i);
      }
    }
  }

  /** One operation from contents that tell of the same runs: the answers are the same
      exactly under its condition, and then the contents keep telling of the same runs. */
  lemma StepAgreesIff(runs: seq<Run>, m: Mesh, op: Op, after: seq<Run>, reply: Reply)
    requires Tracked(runs, m) && Surroundings(runs, op) && MemStep(runs, op, after, reply)
    ensures SameReply(reply, MeshStep(m, op).1) <==> Agreeable(runs, m, op)
    ensures SameReply(reply, MeshStep(m, op).1) ==> Tracked(after, MeshStep(m, op).0)
  {
    match op
    case Enqueue(owner, repo, id, now) => EnqueueKeepsTracked(runs, m, Run(id, owner, repo, Queued, now));
    case Claim => ClaimStepIff(runs, m, after, reply);
    case SetStatus(id, status) => SetStatusKeepsTracked(runs, m, id, status);
    case Get(id) => GetAgrees(runs, m, id);
    case ListAll => ListAllAgreesIff(runs, m);
    case ListByRepo(owner, repo) => ListByRepoAgreesIff(runs, m, owner, repo);
  }

  ghost predicate FreeStep(mem: seq<seq<Run>>, mesh: seq<Mesh>, ops: seq<Op>,
                           memReplies: seq<Reply>, meshReplies: seq<Reply>, i: nat)
    requires i < |ops| == |memReplies| == |meshReplies| && |mem| == |mesh| == |ops| + 1
  {
    && MemStep(mem[i], ops[i], mem[i + 1], memReplies[i])
    && (mesh[i + 1], meshReplies[i]) == MeshStep(mesh[i], ops[i])
    && Surroundings(mem[i], ops[i])
  }

  /** Both stores driven by one sequence of operations, with no limit on what they are. */
  ghost predicate IsFreeHistory(mem: seq<seq<Run>>, mesh: seq<Mesh>, ops: seq<Op>,
                                memReplies: seq<Reply>, meshReplies: seq<Reply>) {
    && |ops| == |memReplies| == |meshReplies| && |mem| == |mesh| == |ops| + 1
    && mem[0] == [] && mesh[0] == Mesh([], {})
    && forall i: nat :: i < |ops| ==> FreeStep(mem, mesh, ops, memReplies, meshReplies, i)
  }

  lemma FreeStepAgreesIff(
      mem: seq<seq<Run>>, mesh: seq<Mesh>, ops: seq<Op>, memReplies: seq<Reply>, meshReplies: seq<Reply>, i: nat)
    requires i < |ops| == |memReplies| == |meshReplies| && |mem| == |mesh| == |ops| + 1
    requires FreeStep(mem, mesh, ops, memReplies, meshReplies, i) && Tracked(mem[i], mesh[i])
    ensures SameReply(memReplies[i], meshReplies[i]) <==> Agreeable(mem[i], mesh[i], ops[i])
    ensures SameReply(memReplies[i], meshReplies[i]) ==> Tracked(mem[i + 1], mesh[i + 1])
  {
    StepAgreesIff(mem[i], mesh[i], ops[i], mem[i + 1], memReplies[i]);
  }

  ghost predicate FineAt(mem: seq<seq<Run>>, mesh: seq<Mesh>, ops: seq<Op>,
                         memReplies: seq<Reply>, meshReplies: seq<Reply>, i: nat)
    requires i < |ops| == |memReplies| == |meshReplies| && |mem| == |mesh| == |ops| + 1
  {
    SameReply(memReplies[i], meshReplies[i]) || Agreeable(mem[i], mesh[i], ops[i])
  }

  lemma {:induction false} AgreementKeepsTracked(
      mem: seq<seq<Run>>, mesh: seq<Mesh>, ops: seq<Op>, memReplies: seq<Reply>, meshReplies: seq<Reply>, n: nat)
    requires IsFreeHistory(mem, mesh, ops, memReplies, meshReplies) && n <= |ops|
    requires forall i: nat :: i < n ==> FineAt(mem, mesh, ops, memReplies, meshReplies, i)
    ensures Tracked(mem[n], mesh[n])
  {
    if n == 0 {
      NothingTracked();
    } else {
      AgreementKeepsTracked(mem, mesh, ops, memReplies, meshReplies, n - 1);
      FreeStepAgreesIff(mem, mesh, ops, memReplies, meshReplies, n - 1);
      assert FineAt(mem, mesh, ops, memReplies, meshReplies, n - 1);
    }
  }

  /** Over every sequential history, requeued runs, passed limits and shared keys included,
      the two stores answer every operation alike exactly when every operation meets its
      condition. */
  lemma HistoriesAgreeIff(mem: seq<seq<Run>>, mesh: seq<Mesh>, ops: seq<Op>,
                          memReplies: seq<Reply>, meshReplies: seq<Reply>)
    requires IsFreeHistory(mem, mesh, ops, memReplies, meshReplies)
    ensures (forall i: nat :: i < |ops| ==> SameReply(memReplies[i], meshReplies[i]))
            <==> forall i: nat :: i < |ops| ==> Agreeable(mem[i], mesh[i], ops[i])
  {
    if forall i: nat :: i < |ops| ==> FineAt(mem, mesh, ops, memReplies, meshReplies, i) {
      forall i: nat | i < |ops|
        ensures SameReply(memReplies[i], meshReplies[i]) <==> Agreeable(mem[i], mesh[i], ops[i])
      {
        AgreementKeepsTracked(mem, mesh, ops, memReplies, meshReplies, i);
        FreeStepAgreesIff(mem, mesh, ops, memReplies, meshReplies, i);
      }
    }
  }

  // ---- A claimed run set back to Queued ----

  /** The claim key stays taken, so the event-sourced store never hands the run out
      again. */
  lemma ClaimedRunIsNeverReclaimed(m: Mesh, id: string)
    requires ClaimKey(id) in m.keys
    ensures MeshStep(m, Claim).1.run.Some? ==> MeshStep(m, Claim).1.run.value.id != id
  {
    PickIsCandidate(Candidates(m.events), m.events, m.keys);
  }

  function QueuedRun(id: string, now: int): Run {
    Run(id, "o", "r", Queued, now)
  }

  function RunningRun(id: string, now: int): Run {
    Run(id, "o", "r", Running, now)
  }

  lemma MemReclaims(id: string, now: int)
    ensures var (queued, running) := (QueuedRun(id, now), RunningRun(id, now));
            && MemStep([], Enqueue("o", "r", id, now), [queued], One(Some(queued)))
            && MemStep([queued], Claim, [running], One(Some(running)))
            && MemStep([running], SetStatus(id, Queued), [queued], Known(true))
  {
    var queued, running := QueuedRun(id, now), RunningRun(id, now);
    assert IsOldestQueued([queued], 0) && [queued][0 := running] == [running];
    assert SetFirst([running], id, Queued) == [queued];
  }

  lemma MeshClaimsOnce(id: string, now: int)
    ensures MeshStep(Mesh([QueuedRun(id, now)], {}), Claim)
            == (Mesh([QueuedRun(id, now), RunningRun(id, now)], {ClaimKey(id)}), One(Some(RunningRun(id, now))))
  {
    var queued := QueuedRun(id, now);
    LatestAppend([], queued, id);
    assert [] + [queued] == [queued];
    NewestAppend([], queued, (r: Run) => r.status == Queued);
    assert Candidates([queued]) == [queued];
    var none: set<string> := {};
    assert Latest([queued], id) == Some(queued) && Claimable([queued], none, id);
    assert Pick([queued], [queued], none) == Some(queued);
    assert [queued] + [RunningRun(id, now)] == [queued, RunningRun(id, now)];
    assert none + {ClaimKey(id)} == {ClaimKey(id)};
  }

  lemma MeshRequeues(id: string, now: int)
    ensures MeshStep(Mesh([QueuedRun(id, now), RunningRun(id, now)], {ClaimKey(id)}), SetStatus(id, Queued))
            == (Mesh([QueuedRun(id, now), RunningRun(id, now), QueuedRun(id, now)], {ClaimKey(id)}), Known(true))
  {
    var queued, running := QueuedRun(id, now), RunningRun(id, now);
    LatestAppend([queued], running, id);
    assert [queued] + [running] == [queued, running];
    assert Latest([queued, running], id) == Some(running);
    assert [queued, running] + [queued] == [queued, running, queued];
  }

  lemma OnlyClaimedRuns(m: Mesh, id: string)
    requires ClaimKey(id) in m.keys && forall e :: e in m.events ==> e.id == id
    ensures MeshStep(m, Claim).1 == One(None)
  {
    ClaimedRunIsNeverReclaimed(m, id);
    var picked := Pick(Candidates(m.events), m.events, m.keys);
    PickIsCandidate(Candidates(m.events), m.events, m.keys);
    if picked.Some? {
      LatestIsOneOf(m.events, picked.value.id);
    }
  }

  /** Enqueue, claim, set back to Queued, claim: the list store hands the run out
      again and the event-sourced store does not, so that hypothesis is needed. */
  lemma RequeuedRunTellsTheStoresApart(id: string, now: int)
    ensures var (queued, running) := (QueuedRun(id, now), RunningRun(id, now));
            var m1 := MeshStep(Mesh([], {}), Enqueue("o", "r", id, now)).0;
            var (m2, claimed) := MeshStep(m1, Claim);
            var m3 := MeshStep(m2, SetStatus(id, Queued)).0;
            && MemStep([], Enqueue("o", "r", id, now), [queued], One(Some(queued)))
            && MemStep([queued], Claim, [running], One(Some(running)))
            && MemStep([running], SetStatus(id, Queued), [queued], Known(true))
            && MemStep([queued], Claim, [running], One(Some(running)))
            && claimed == One(Some(running))
            && MeshStep(m3, Claim).1 == One(None)
  {
    MemReclaims(id, now);
    MeshClaimsOnce(id, now);
    MeshRequeues(id, now);
    assert [] + [QueuedRun(id, now)] == [QueuedRun(id, now)];
    OnlyClaimedRuns(Mesh([QueuedRun(id, now), RunningRun(id, now), QueuedRun(id, now)], {ClaimKey(id)}), id);
  }
}
