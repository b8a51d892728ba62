/** What every step and every run of the publish protocol keeps. */
module ForgeSafety {
  import opened Options
  import opened ForgeObjects
  import opened ForgeProtocol

  // ---- Invariant: content is complete, requests tell the truth ----

  ghost predicate HeadsStored(s: State) {
    forall b :: b in s.heads ==> s.heads[b] in s.commits
  }

  ghost predicate PublisherOk(s: State, p: Publisher) {
    && (p.parent.Some? ==> p.parent.value in s.commits)
    && match p.phase
       case Uploading(waiting) => Digests(p.manifest) <= s.blobs + waiting
       case PostingCommit => Digests(p.manifest) <= s.blobs
       case PuttingBranch => CommitOf(p) in s.commits
       case Published => CommitOf(p) in s.commits
       case _ => true
  }

  predicate PastPosting(phase: Phase) {
    phase in {PuttingBranch, Published, Refused, Failed}
  }

  ghost predicate PutOk(s: State, id: nat)
    requires id in s.puts
  {
    && id in s.publishers
    && PastPosting(s.publishers[id].phase)
    && s.puts[id] == PutOf(s.publishers[id])
    && s.puts[id].commit in s.commits
  }

  ghost predicate Inv(s: State) {
    && Closed(s)
    && HeadsStored(s)
    && (forall id :: id in s.publishers ==> PublisherOk(s, s.publishers[id]))
    && (forall c :: c in s.commitPosts ==> Digests(c.manifest) <= s.blobs)
    && (forall id :: id in s.puts ==> PutOk(s, id))
    && (forall id: nat :: InPhase(s, id, PuttingBranch) || InPhase(s, id, Published) ==> id in s.puts)
    && (forall id, r :: (id, r) in s.replies ==> id in s.puts)
    && (forall id: nat :: InPhase(s, id, Published) ==> (id, Accepted) in s.replies)
  }

  lemma ValidatedCommitIsClosed(s: State, c: Commit)
    requires Closed(s) && Validated(s, c)
    ensures Digests(c.manifest) <= s.blobs
  {
    forall d | d in Digests(c.manifest)
      ensures d in s.blobs
    {
      if d in Inherited(s.commits, c) {
        var p, e :| p in c.parents && p in s.commits && e in p.manifest && e.digest == d;
        assert d in Digests(p.manifest);
      }
    }
  }

  /** A publisher waits only for digests its parent lacks, yet its whole tree is
      accounted for: what it skips is stored already. */
  lemma SkippedBlobsAreStored(s: State, p: Publisher, readable: bool)
    requires Closed(s) && PublisherOk(s, p)
    ensures Digests(p.manifest) <= s.blobs + Digests(BlobsToUpload(p.manifest, Known(p, readable)))
  {
    UploadsCoverNewDigests(p.manifest, Known(p, readable));
  }

  lemma PublisherOkGrows(s: State, t: State, p: Publisher)
    requires PublisherOk(s, p) && s.blobs <= t.blobs && s.commits <= t.commits
    ensures PublisherOk(t, p)
  {
  }

  lemma MovedPublishersOk(s: State, t: State, id: nat, p: Publisher)
    requires forall q :: q in s.publishers ==> PublisherOk(s, s.publishers[q])
    requires t.publishers == s.publishers[id := p] && PublisherOk(t, p)
    requires t.blobs == s.blobs && t.commits == s.commits
    ensures forall q :: q in t.publishers ==> PublisherOk(t, t.publishers[q])
  {
    forall q | q in t.publishers
      ensures PublisherOk(t, t.publishers[q])
    {
      if q != id {
        PublisherOkGrows(s, t, s.publishers[q]);
      }
    }
  }

  lemma MovedPutsOk(s: State, t: State, id: nat, p: Publisher)
    requires forall q :: q in s.puts ==> PutOk(s, q)
    requires t.publishers == s.publishers[id := p] && t.commits == s.commits
    requires t.puts == s.puts || t.puts == s.puts[id := PutOf(p)]
    requires id in t.puts ==> PutOk(t, id)
    ensures forall q :: q in t.puts ==> PutOk(t, q)
  {
    forall q | q in t.puts
      ensures PutOk(t, q)
    {
      if q != id {
        assert PutOk(s, q);
      }
    }
  }

  /** One publisher moves to p; at most its own update request is new. */
  lemma PublisherMoves(s: State, t: State, id: nat, p: Publisher)
    requires Inv(s)
    requires t.publishers == s.publishers[id := p] && PublisherOk(t, p)
    requires t.blobs == s.blobs && t.commits == s.commits && t.heads == s.heads
    requires t.commitPosts == s.commitPosts && t.replies == s.replies
    requires t.puts == s.puts || t.puts == s.puts[id := PutOf(p)]
    requires id in t.puts ==> PutOk(t, id)
    requires p.phase in {PuttingBranch, Published} ==> id in t.puts
    requires p.phase == Published ==> (id, Accepted) in s.replies
    ensures Inv(t)
  {
    MovedPublishersOk(s, t, id, p);
    MovedPutsOk(s, t, id, p);
    OthersStay(s, t, id, p);
  }

  lemma OthersStay(s: State, t: State, id: nat, p: Publisher)
    requires t.publishers == s.publishers[id := p] && t.replies == s.replies && s.puts.Keys <= t.puts.Keys
    requires p.phase in {PuttingBranch, Published} ==> id in t.puts
    requires p.phase == Published ==> (id, Accepted) in s.replies
    requires forall q: nat :: InPhase(s, q, PuttingBranch) || InPhase(s, q, Published) ==> q in s.puts
    requires forall q, r :: (q, r) in s.replies ==> q in s.puts
    requires forall q: nat :: InPhase(s, q, Published) ==> (q, Accepted) in s.replies
    ensures forall q: nat :: InPhase(t, q, PuttingBranch) || InPhase(t, q, Published) ==> q in t.puts
    ensures forall q, r :: (q, r) in t.replies ==> q in t.puts
    ensures forall q: nat :: InPhase(t, q, Published) ==> (q, Accepted) in t.replies
  {
    assert forall q: nat, phase: Phase :: q != id ==> (InPhase(t, q, phase) <==> InPhase(s, q, phase));
  }

  /** Before it asks for the branch a publisher has no update request out. */
  lemma NoPutYet(s: State, id: nat)
    requires Inv(s) && (id in s.publishers ==> !PastPosting(s.publishers[id].phase))
    ensures id !in s.puts
  {
    assert forall q :: q in s.puts ==> PutOk(s, q);
  }

  /** Stored content and replies only grow, so everything said about them keeps holding. */
  lemma ForgeMoves(s: State, t: State)
    requires Inv(s)
    requires t.publishers == s.publishers && t.puts == s.puts
    requires s.blobs <= t.blobs && s.commits <= t.commits && s.replies <= t.replies
    requires Closed(t) && HeadsStored(t)
    requires forall c :: c in t.commitPosts ==> Digests(c.manifest) <= t.blobs
    requires forall id, r :: (id, r) in t.replies ==> id in t.puts
    ensures Inv(t)
  {
    forall id | id in t.publishers
      ensures PublisherOk(t, t.publishers[id])
    {
      PublisherOkGrows(s, t, s.publishers[id]);
    }
    forall id | id in t.puts
      ensures PutOk(t, id)
    {
      assert PutOk(s, id);
    }
    assert forall id: nat, phase: Phase :: InPhase(t, id, phase) ==> InPhase(s, id, phase);
  }

  lemma StoringKeepsInv(s: State, a: Action)
    requires Inv(s) && Enabled(s, a)
    requires a.SendBlob? || a.CheckAbsent? || a.StoreBlob? || a.OtherBlob?
    ensures Inv(Apply(s, a))
  {
    ForgeMoves(s, Apply(s, a));
  }

  lemma OtherWriteKeepsInv(s: State, a: Action)
    requires Inv(s) && Enabled(s, a) && (a.MatchPut? || a.OtherWrite?)
    ensures Inv(Apply(s, a))
  {
    ForgeMoves(s, Apply(s, a));
  }

  lemma CommittingKeepsInv(s: State, a: Action)
    requires Inv(s) && Enabled(s, a)
    requires a.WriteRoot? || a.StoreCommit? || a.OtherCommit?
    ensures Inv(Apply(s, a))
  {
    if !a.WriteRoot? {
      ValidatedCommitIsClosed(s, a.commit);
    }
    ForgeMoves(s, Apply(s, a));
  }

  lemma StartingKeepsInv(s: State, a: Action)
    requires Inv(s) && Enabled(s, a) && a.Start?
    ensures Inv(Apply(s, a))
  {
    NoPutYet(s, a.id);
    PublisherMoves(s, Apply(s, a), a.id, Apply(s, a).publishers[a.id]);
  }

  lemma ResolvedIsOk(s: State, id: nat)
    requires HeadsStored(s) && id in s.publishers && PublisherOk(s, s.publishers[id])
    requires s.publishers[id].phase in {Resolving, ResolvingAgain}
    ensures var t := Resolved(s, id);
            && t == s.(publishers := t.publishers, createPosts := t.createPosts)
            && id in t.publishers && t.publishers == s.publishers[id := t.publishers[id]]
            && PublisherOk(t, t.publishers[id]) && t.publishers[id].phase in {CreatingRepo, ReadingParent}
  {
  }

  lemma ResolvingKeepsInv(s: State, a: Action)
    requires Inv(s) && Enabled(s, a) && a.ResolveHead?
    ensures Inv(Apply(s, a))
  {
    NoPutYet(s, a.id);
    ResolvedIsOk(s, a.id);
    PublisherMoves(s, Apply(s, a), a.id, Apply(s, a).publishers[a.id]);
  }

  lemma PreparingKeepsInv(s: State, a: Action)
    requires Inv(s) && Enabled(s, a) && (a.RepoCreated? || a.UploadsDone?)
    ensures Inv(Apply(s, a))
  {
    NoPutYet(s, a.id);
    PublisherMoves(s, Apply(s, a), a.id, Apply(s, a).publishers[a.id]);
  }

  lemma UploadingKeepsInv(s: State, a: Action)
    requires Inv(s) && Enabled(s, a) && a.BlobStored?
    ensures Inv(Apply(s, a))
  {
    NoPutYet(s, a.id);
    PublisherMoves(s, Apply(s, a), a.id, Apply(s, a).publishers[a.id]);
  }

  lemma ReadingKeepsInv(s: State, a: Action)
    requires Inv(s) && Enabled(s, a) && a.ReadParent?
    ensures Inv(Apply(s, a))
  {
    var t := Apply(s, a);
    NoPutYet(s, a.id);
    SkippedBlobsAreStored(s, s.publishers[a.id], a.readable);
    PublisherMoves(s, t, a.id, t.publishers[a.id]);
  }

  lemma AskingKeepsInv(s: State, a: Action)
    requires Inv(s) && Enabled(s, a) && a.CommitStored?
    ensures Inv(Apply(s, a))
  {
    PublisherMoves(s, Apply(s, a), a.id, Apply(s, a).publishers[a.id]);
  }

  lemma FinishingKeepsInv(s: State, a: Action)
    requires Inv(s) && Enabled(s, a) && a.SeeReply?
    ensures Inv(Apply(s, a))
  {
    assert PutOk(s, a.id);
    PublisherMoves(s, Apply(s, a), a.id, Apply(s, a).publishers[a.id]);
  }

  lemma GivingUpKeepsInv(s: State, a: Action)
    requires Inv(s) && Enabled(s, a) && a.GiveUp?
    ensures Inv(Apply(s, a))
  {
    if a.id in s.puts {
      assert PutOk(s, a.id);
    }
    PublisherMoves(s, Apply(s, a), a.id, Apply(s, a).publishers[a.id]);
  }

  lemma SendingCommitKeepsInv(s: State, a: Action)
    requires Inv(s) && Enabled(s, a) && a.SendCommit?
    ensures Inv(Apply(s, a))
  {
    assert PublisherOk(s, s.publishers[a.id]);
    ForgeMoves(s, Apply(s, a));
  }

  lemma DeliveryKeepsInv(s: State, a: Action)
    requires Inv(s) && Enabled(s, a) && a.DeliverPut?
    ensures Inv(Apply(s, a))
  {
    assert PutOk(s, a.id);
    ForgeMoves(s, Apply(s, a));
  }

  lemma MatchedWriteKeepsInv(s: State, a: Action)
    requires Inv(s) && Enabled(s, a) && a.WriteMatched?
    ensures Inv(Apply(s, a))
  {
    assert PutOk(s, a.id);
    ForgeMoves(s, Apply(s, a));
  }

  lemma {:induction false} UpdatedAt(heads: map<string, Commit>, updates: seq<(string, Commit)>, branch: string)
    ensures branch in Updated(heads, updates) <==> branch in heads || LastUpdate(updates, branch).Some?
    ensures branch in Updated(heads, updates) ==>
              Updated(heads, updates)[branch]
              == if LastUpdate(updates, branch).Some? then LastUpdate(updates, branch).value else heads[branch]
    ensures LastUpdate(updates, branch).Some? ==> (branch, LastUpdate(updates, branch).value) in updates
  {
    if updates != [] {
      var init, last := updates[..|updates| - 1], updates[|updates| - 1];
      assert updates == init + [last];
      UpdatedAt(heads, init, branch);
    }
  }

  lemma PublishKeepsInv(s: State, a: Action)
    requires Inv(s) && Enabled(s, a) && a.OtherPublish?
    ensures Inv(Apply(s, a))
  {
    var t := Apply(s, a);
    ValidatedCommitIsClosed(s.(blobs := s.blobs + a.blobs), a.commit);
    forall b | b in t.heads
      ensures t.heads[b] in t.commits
    {
      UpdatedAt(s.heads, a.updates, b);
    }
    ForgeMoves(s, t);
  }

  predicate AtTheForge(a: Action) {
    a.CheckAbsent? || a.WriteRoot? || a.StoreBlob? || a.StoreCommit? || a.DeliverPut? || a.MatchPut? || a.WriteMatched?
    || a.OtherBlob? || a.OtherCommit? || a.OtherWrite? || a.OtherPublish?
  }

  lemma ForgeKeepsInv(s: State, a: Action)
    requires Inv(s) && Enabled(s, a) && AtTheForge(a)
    ensures Inv(Apply(s, a))
  {
    if a.DeliverPut? {
      DeliveryKeepsInv(s, a);
    } else if a.WriteMatched? {
      MatchedWriteKeepsInv(s, a);
    } else if a.MatchPut? || a.OtherWrite? {
      OtherWriteKeepsInv(s, a);
    } else if a.WriteRoot? || a.StoreCommit? || a.OtherCommit? {
      CommittingKeepsInv(s, a);
    } else if a.OtherPublish? {
      PublishKeepsInv(s, a);
    } else {
      StoringKeepsInv(s, a);
    }
  }

  lemma ClientKeepsInv(s: State, a: Action)
    requires Inv(s) && Enabled(s, a) && !AtTheForge(a)
    ensures Inv(Apply(s, a))
  {
    match a
    case Start(_, _, _, _, _) => StartingKeepsInv(s, a);
    case ResolveHead(_) => ResolvingKeepsInv(s, a);
    case ReadParent(_, _) => ReadingKeepsInv(s, a);
    case CommitStored(_) => AskingKeepsInv(s, a);
    case SeeReply(_, _) => FinishingKeepsInv(s, a);
    case GiveUp(_) => GivingUpKeepsInv(s, a);
    case _ => WorkingKeepsInv(s, a);
  }

  lemma WorkingKeepsInv(s: State, a: Action)
    requires Inv(s) && Enabled(s, a)
    requires a.RepoCreated? || a.SendBlob? || a.BlobStored? || a.UploadsDone? || a.SendCommit?
    ensures Inv(Apply(s, a))
  {
    match a
    case SendBlob(_, _) => StoringKeepsInv(s, a);
    case BlobStored(_, _) => UploadingKeepsInv(s, a);
    case SendCommit(_) => SendingCommitKeepsInv(s, a);
    case _ => PreparingKeepsInv(s, a);
  }

  lemma StepKeepsInv(s: State, a: Action)
    requires Inv(s) && Enabled(s, a)
    ensures Inv(Apply(s, a))
  {
    if AtTheForge(a) {
      ForgeKeepsInv(s, a);
    } else {
      ClientKeepsInv(s, a);
    }
  }

  lemma {:induction false} RunKeepsInv(states: seq<State>, actions: seq<Action>, i: nat)
    requires IsRun(states, actions) && i < |states|
    ensures Inv(states[i])
  {
    if i > 0 {
      RunKeepsInv(states, actions, i - 1);
      assert StepAt(states, actions, i - 1);
      StepKeepsInv(states[i - 1], actions[i - 1]);
    }
  }

  /** Content closure: in every reachable state, every digest of every stored
      commit has a stored blob, whoever posted the commit. */
  lemma ContentClosure(states: seq<State>, actions: seq<Action>, i: nat, c: Commit)
    requires IsRun(states, actions) && i < |states| && c in states[i].commits
    ensures Digests(c.manifest) <= states[i].blobs
  {
    RunKeepsInv(states, actions, i);
  }

  /** Although it skips what its parent carries, a publisher's commit is never
      turned away for a missing blob: the forge's own check passes. */
  lemma PublisherCommitsPassValidation(states: seq<State>, actions: seq<Action>, i: nat, c: Commit)
    requires IsRun(states, actions) && i < |states| && c in states[i].commitPosts
    ensures Validated(states[i], c)
  {
    RunKeepsInv(states, actions, i);
  }

  /** Nothing stored, sent or answered is ever taken back. */
  lemma StepOnlyAdds(s: State, a: Action)
    requires Inv(s) && Enabled(s, a)
    ensures s.blobs <= Apply(s, a).blobs && s.commits <= Apply(s, a).commits
    ensures s.replies <= Apply(s, a).replies
    ensures forall id :: id in s.puts ==> id in Apply(s, a).puts && Apply(s, a).puts[id] == s.puts[id]
  {
    StorageOnlyGrows(s, a);
    if a.CommitStored? {
      AskingAddsOne(s, a);
    } else {
      OthersAskNothing(s, a);
    }
  }

  lemma StorageOnlyGrows(s: State, a: Action)
    requires Enabled(s, a)
    ensures s.blobs <= Apply(s, a).blobs && s.commits <= Apply(s, a).commits && s.replies <= Apply(s, a).replies
  {
  }

  lemma OthersAskNothing(s: State, a: Action)
    requires Enabled(s, a) && !a.CommitStored?
    ensures Apply(s, a).puts == s.puts
  {
  }

  lemma AskingAddsOne(s: State, a: Action)
    requires Inv(s) && Enabled(s, a) && a.CommitStored?
    ensures a.id !in s.puts && Apply(s, a).puts == s.puts[a.id := PutOf(s.publishers[a.id])]
  {
    NoPutYet(s, a.id);
  }

  lemma {:induction false} RunOnlyAdds(states: seq<State>, actions: seq<Action>, i: nat, j: nat)
    requires IsRun(states, actions) && i <= j < |states|
    ensures states[i].blobs <= states[j].blobs && states[i].commits <= states[j].commits
    ensures states[i].replies <= states[j].replies
    ensures forall id :: id in states[i].puts ==>
              id in states[j].puts && states[j].puts[id] == states[i].puts[id]
  {
    if i < j {
      RunOnlyAdds(states, actions, i, j - 1);
      RunKeepsInv(states, actions, j - 1);
      assert StepAt(states, actions, j - 1);
      StepOnlyAdds(states[j - 1], actions[j - 1]);
    }
  }

  // ---- No lost updates ----

  /** `create_repo` checks that the default branch is absent and writes it in two
      separate requests to the store. This is the step where the check has gone
      stale: the branch exists by now and has moved on from the root commit. */
  predicate StaleRootWrite(s: State, a: Action) {
    a.WriteRoot? && MAIN in s.heads && s.heads[MAIN] != ROOT
  }

  /** The head stays, or moves to a commit above it. */
  ghost predicate Keeps(s: State, t: State, branch: string) {
    branch in s.heads ==> branch in t.heads && IsAncestor(s.heads[branch], t.heads[branch])
  }

  /** Each accepted update installs a commit whose only parent is the head it
      replaces, or a parentless one where the branch was absent. */
  lemma UpdateReplacesItsParent(states: seq<State>, actions: seq<Action>, i: nat, branch: string)
    requires IsRun(states, actions) && i < |actions| && actions[i].DeliverPut?
    requires Head(states[i], branch) != Head(states[i + 1], branch)
    ensures branch in states[i + 1].heads
    ensures states[i + 1].heads[branch].parents
            == if branch in states[i].heads then [states[i].heads[branch]] else []
    ensures actions[i].id in states[i].publishers
    ensures var p := states[i].publishers[actions[i].id];
            p.branch == branch && states[i + 1].heads[branch] == CommitOf(p)
  {
    RunKeepsInv(states, actions, i);
    assert StepAt(states, actions, i);
  }

  /** The commit this step writes to the branch whether or not it lies above the head: the
      root of a new repository, an update whose check was a request of its own, and every
      write of another client, for no condition asks for a descendant. */
  function Written(s: State, a: Action, branch: string): Option<Commit> {
    match a
    case WriteRoot(_) => if branch == MAIN then Some(ROOT) else None
    case WriteMatched(id) => if id in s.puts && s.puts[id].branch == branch then Some(s.puts[id].commit) else None
    case OtherWrite(b, c, _) => if b == branch then Some(c) else None
    case OtherPublish(_, _, updates) => LastUpdate(updates, branch)
    case _ => None
  }

  /** Such a write that leaves the history of the branch. */
  predicate Rewinds(s: State, a: Action, branch: string) {
    var c := Written(s, a, branch);
    c.Some? && branch in s.heads && !IsAncestor(s.heads[branch], c.value)
  }

  /** Steps that no publisher on a store with an atomic compare-and-set leads to. */
  predicate Foreign(a: Action) {
    a.WriteMatched? || a.OtherWrite? || a.OtherPublish?
  }

  /** All others rewind a branch exactly when they are a stale root write. */
  lemma OnlyStaleRootsRewind(s: State, a: Action, branch: string)
    requires !Foreign(a)
    ensures Rewinds(s, a, branch) <==> branch == MAIN && StaleRootWrite(s, a)
  {
  }

  lemma DeliveryKeepsBranch(s: State, a: Action, branch: string)
    requires Inv(s) && Enabled(s, a) && a.DeliverPut?
    ensures Keeps(s, Apply(s, a), branch)
  {
    var put := s.puts[a.id];
    assert PutOk(s, a.id);
    if branch in s.heads && branch == put.branch && HeadMatches(s, branch, put.expected) {
      assert s.heads[branch] in put.commit.parents;
      assert IsAncestor(s.heads[branch], s.heads[branch]);
    }
  }

  lemma WrittenIsHead(s: State, a: Action, branch: string)
    requires Enabled(s, a) && !a.DeliverPut?
    ensures Head(Apply(s, a), branch)
            == if Written(s, a, branch).Some? then Written(s, a, branch) else Head(s, branch)
  {
    if a.OtherPublish? {
      UpdatedAt(s.heads, a.updates, branch);
    }
  }

  /** A step takes the head of a branch out of its history exactly when it rewinds it. */
  lemma StepLosesOnlyByRewind(s: State, a: Action, branch: string)
    requires Inv(s) && Enabled(s, a)
    ensures Keeps(s, Apply(s, a), branch) <==> !Rewinds(s, a, branch)
  {
    if a.DeliverPut? {
      DeliveryKeepsBranch(s, a, branch);
    } else {
      WrittenIsHead(s, a, branch);
      assert branch in s.heads ==> IsAncestor(s.heads[branch], s.heads[branch]);
    }
  }

  /** The forge's condition on a branch update does not protect its history: whoever knows
      the head may replace it by any stored commit. */
  lemma ConditionDoesNotProtect(s: State, branch: string, c: Commit)
    requires branch in s.heads && c in s.commits
    ensures var a := OtherWrite(branch, c, Exactly(Some(s.heads[branch])));
            && Enabled(s, a) && Head(Apply(s, a), branch) == Some(c)
            && (Rewinds(s, a, branch) <==> !IsAncestor(s.heads[branch], c))
  {
  }

  lemma SiblingsAreNotAncestors(s: State, p: nat, q: nat)
    requires Inv(s) && p in s.puts && q in s.puts && s.puts[p].expected == s.puts[q].expected
    ensures IsAncestor(s.puts[p].commit, s.puts[q].commit) <==> s.puts[p].commit == s.puts[q].commit
  {
    var c, d := s.puts[p].commit, s.puts[q].commit;
    assert PutOk(s, p) && PutOk(s, q) && c.parents == d.parents;
    assert Height(c) == Height(d);
    if IsAncestor(c, d) {
      AncestorHeight(c, d);
    }
  }

  /** A matched update is written over whatever the head is by then. */
  lemma WritesMatched(s: State, p: nat)
    requires p in s.matched && p in s.puts
    ensures Enabled(s, WriteMatched(p))
    ensures var t := Apply(s, WriteMatched(p));
            t.heads == s.heads[s.puts[p].branch := s.puts[p].commit] && t.replies == s.replies + {(p, Accepted)}
            && t.puts == s.puts && t.matched == s.matched - {p}
  {
  }

  /** On a store that reads and then writes, two updates of one head can both pass their
      check and both be accepted; the second write loses the first one's commit exactly when
      the two commits differ. */
  lemma BothMatchedLosesIff(s: State, p: nat, q: nat)
    requires Inv(s) && p != q && p in s.matched && q in s.matched && p in s.puts && q in s.puts
    requires s.puts[p].branch == s.puts[q].branch && s.puts[p].expected == s.puts[q].expected
    ensures Enabled(s, WriteMatched(p)) && Enabled(Apply(s, WriteMatched(p)), WriteMatched(q))
    ensures var t := Apply(s, WriteMatched(p));
            var u := Apply(t, WriteMatched(q));
            && (p, Accepted) in u.replies && (q, Accepted) in u.replies
            && (Keeps(t, u, s.puts[p].branch) <==> s.puts[p].commit == s.puts[q].commit)
  {
    SiblingsAreNotAncestors(s, p, q);
    WritesMatched(s, p);
    WritesMatched(Apply(s, WriteMatched(p)), q);
  }

  ghost predicate NoRewind(states: seq<State>, actions: seq<Action>, branch: string, from: nat, to: nat)
    requires from <= to <= |actions| <= |states|
  {
    forall k :: from <= k < to ==> !Rewinds(states[k], actions[k], branch)
  }

  lemma KeepsTransitive(s: State, t: State, u: State, branch: string)
    requires Keeps(s, t, branch) && Keeps(t, u, branch)
    ensures Keeps(s, u, branch)
  {
    if branch in s.heads {
      AncestorTransitive(s.heads[branch], t.heads[branch], u.heads[branch]);
    }
  }

  lemma {:induction false} HeadsStayAncestors(
      states: seq<State>, actions: seq<Action>, i: nat, j: nat, branch: string)
    requires IsRun(states, actions) && i <= j < |states| && NoRewind(states, actions, branch, i, j)
    ensures Keeps(states[i], states[j], branch)
  {
    if i < j {
      HeadsStayAncestors(states, actions, i, j - 1, branch);
      RunKeepsInv(states, actions, j - 1);
      assert StepAt(states, actions, j - 1);
      StepLosesOnlyByRewind(states[j - 1], actions[j - 1], branch);
      KeepsTransitive(states[i], states[j - 1], states[j], branch);
    }
  }

  /** No lost updates: over a whole run every head a branch ever had stays an ancestor of
      every later one, if and only if no step rewinds the branch: no create request writes
      its root over a default branch that has moved on meanwhile, no other client writes a
      commit that is not above the head, and no store writes an update whose check has gone
      stale over something else. */
  lemma NoLostUpdates(states: seq<State>, actions: seq<Action>, branch: string)
    requires IsRun(states, actions)
    ensures (forall i, j :: 0 <= i <= j < |states| ==> Keeps(states[i], states[j], branch))
            <==> NoRewind(states, actions, branch, 0, |actions|)
  {
    if NoRewind(states, actions, branch, 0, |actions|) {
      forall i: nat, j: nat | i <= j < |states|
        ensures Keeps(states[i], states[j], branch)
      {
        HeadsStayAncestors(states, actions, i, j, branch);
      }
    } else {
      var k: nat :| k < |actions| && Rewinds(states[k], actions[k], branch);
      RunKeepsInv(states, actions, k);
      assert StepAt(states, actions, k);
      StepLosesOnlyByRewind(states[k], actions[k], branch);
    }
  }

  lemma {:induction false} NoCreateOnceMainExists(states: seq<State>, actions: seq<Action>, i: nat)
    requires IsRun(states, actions) && MAIN in states[0].heads && i < |states|
    ensures MAIN in states[i].heads && states[i].creating == {}
  {
    if i > 0 {
      NoCreateOnceMainExists(states, actions, i - 1);
      assert StepAt(states, actions, i - 1);
      MainStays(states[i - 1], actions[i - 1]);
    }
  }

  lemma MainStays(s: State, a: Action)
    requires Enabled(s, a) && MAIN in s.heads && s.creating == {}
    ensures MAIN in Apply(s, a).heads && Apply(s, a).creating == {}
  {
    if a.OtherPublish? {
      UpdatedAt(s.heads, a.updates, MAIN);
    }
  }

  /** In a repository that already exists publishers lose no update, on any branch: only
      other clients, or a store that reads and then writes, can rewind one. */
  lemma ExistingRepositoryLosesNothing(
      states: seq<State>, actions: seq<Action>, i: nat, j: nat, branch: string)
    requires IsRun(states, actions) && MAIN in states[0].heads && i <= j < |states|
    requires forall k :: i <= k < j && Foreign(actions[k]) ==> !Rewinds(states[k], actions[k], branch)
    ensures Keeps(states[i], states[j], branch)
  {
    forall k: nat | i <= k < j
      ensures !Rewinds(states[k], actions[k], branch)
    {
      if !Foreign(actions[k]) {
        NoCreateOnceMainExists(states, actions, k);
        assert StepAt(states, actions, k);
        OnlyStaleRootsRewind(states[k], actions[k], branch);
      }
    }
    HeadsStayAncestors(states, actions, i, j, branch);
  }

  // ---- What an answer to a publisher means ----

  /** Everything accepted on a branch is in its history. */
  ghost predicate AcceptedStays(s: State, branch: string) {
    forall id :: (id, Accepted) in s.replies && id in s.puts && s.puts[id].branch == branch ==>
      branch in s.heads && IsAncestor(s.puts[id].commit, s.heads[branch])
  }

  ghost predicate OneWinnerPerHead(s: State, branch: string) {
    forall p, q :: (p, Accepted) in s.replies && (q, Accepted) in s.replies && p != q
                   && p in s.puts && q in s.puts && s.puts[p].branch == s.puts[q].branch == branch
                   ==> s.puts[p].expected != s.puts[q].expected
  }

  /** An update that passed its check earlier is written although the head no longer
      matches; on a store that compares and sets at once there is no such step. */
  predicate Late(s: State, a: Action, branch: string) {
    a.WriteMatched? && a.id in s.puts && s.puts[a.id].branch == branch && !HeadMatches(s, branch, s.puts[a.id].expected)
  }

  ghost predicate NoneLate(states: seq<State>, actions: seq<Action>, branch: string, n: nat)
    requires n <= |actions| <= |states|
  {
    forall k :: 0 <= k < n ==> !Late(states[k], actions[k], branch)
  }

  /** While everything accepted is in the history of its branch, an update conditioned on a
      head that an accepted commit already sits on cannot match: that head would lie below
      itself. */
  lemma ConsumedHeadCannotMatch(s: State, p: nat, q: nat)
    requires Inv(s) && p in s.puts && AcceptedStays(s, s.puts[p].branch)
    requires (p, Accepted) in s.replies && p in s.puts && q in s.puts
    requires s.puts[p].branch == s.puts[q].branch && s.puts[p].expected == s.puts[q].expected
    ensures !HeadMatches(s, s.puts[q].branch, s.puts[q].expected)
  {
    CoveredHeadCannotMatch(s, p);
  }

  lemma CoveredHeadCannotMatch(s: State, p: nat)
    requires Inv(s) && p in s.puts
    requires var put := s.puts[p]; put.branch in s.heads && IsAncestor(put.commit, s.heads[put.branch])
    ensures !HeadMatches(s, s.puts[p].branch, s.puts[p].expected)
  {
    var put := s.puts[p];
    assert PutOk(s, p) && put.commit == CommitOf(s.publishers[p]);
    if put.expected.Some? && s.heads[put.branch] == put.expected.value {
      var head := put.expected.value;
      assert head in put.commit.parents && IsAncestor(head, head);
      AncestorHeight(put.commit, head);
    }
  }

  /** A new acceptance writes the request's commit; unless it was checked before, its
      condition matches. */
  lemma NewlyAccepted(s: State, a: Action, id: nat)
    requires Enabled(s, a) && (id, Accepted) !in s.replies && (id, Accepted) in Apply(s, a).replies
    ensures id in s.puts && (a == DeliverPut(id) || a == WriteMatched(id))
    ensures a == DeliverPut(id) ==> HeadMatches(s, s.puts[id].branch, s.puts[id].expected)
    ensures var put := s.puts[id]; Apply(s, a).heads == s.heads[put.branch := put.commit]
  {
  }

  lemma StepKeepsAcceptedStays(s: State, a: Action, branch: string)
    requires Inv(s) && Enabled(s, a) && !Rewinds(s, a, branch) && AcceptedStays(s, branch)
    ensures AcceptedStays(Apply(s, a), branch)
  {
    var t := Apply(s, a);
    StepLosesOnlyByRewind(s, a, branch);
    StepOnlyAdds(s, a);
    forall id | (id, Accepted) in t.replies && id in t.puts && t.puts[id].branch == branch
      ensures branch in t.heads && IsAncestor(t.puts[id].commit, t.heads[branch])
    {
      if (id, Accepted) in s.replies {
        AncestorTransitive(s.puts[id].commit, s.heads[branch], t.heads[branch]);
      } else {
        NewlyAccepted(s, a, id);
      }
    }
  }

  /** A request accepted now was conditioned on another head than one accepted before. */
  lemma NewWinnerDiffers(s: State, a: Action, p: nat, q: nat)
    requires Inv(s) && Enabled(s, a) && p in s.puts && (p, Accepted) in s.replies
    requires (q, Accepted) !in s.replies && (q, Accepted) in Apply(s, a).replies
    requires AcceptedStays(s, s.puts[p].branch) && !Late(s, a, s.puts[p].branch)
    ensures q in s.puts
    ensures s.puts[p].branch == s.puts[q].branch ==> s.puts[p].expected != s.puts[q].expected
  {
    NewlyAccepted(s, a, q);
    if s.puts[p].branch == s.puts[q].branch && s.puts[p].expected == s.puts[q].expected {
      ConsumedHeadCannotMatch(s, p, q);
    }
  }

  lemma AcceptedPutWasOut(s: State, a: Action, p: nat)
    requires Inv(s) && Enabled(s, a) && (p, Accepted) in Apply(s, a).replies
    ensures p in s.puts && p in Apply(s, a).puts && Apply(s, a).puts[p] == s.puts[p]
  {
    StepOnlyAdds(s, a);
    if (p, Accepted) !in s.replies {
      NewlyAccepted(s, a, p);
    }
  }

  lemma WinnersDiffer(s: State, a: Action, branch: string, p: nat, q: nat)
    requires Inv(s) && Enabled(s, a) && AcceptedStays(s, branch) && OneWinnerPerHead(s, branch)
    requires !Late(s, a, branch) && p != q && p in s.puts && q in s.puts && s.puts[p].branch == s.puts[q].branch == branch
    requires (p, Accepted) in Apply(s, a).replies && (q, Accepted) in Apply(s, a).replies
    ensures s.puts[p].expected != s.puts[q].expected
  {
    if (p, Accepted) !in s.replies {
      NewlyAccepted(s, a, p);
      NewWinnerDiffers(s, a, q, p);
    } else if (q, Accepted) !in s.replies {
      NewWinnerDiffers(s, a, p, q);
    }
  }

  lemma StepKeepsOneWinner(s: State, a: Action, branch: string)
    requires Inv(s) && Enabled(s, a) && AcceptedStays(s, branch) && OneWinnerPerHead(s, branch)
    requires !Late(s, a, branch)
    ensures OneWinnerPerHead(Apply(s, a), branch)
  {
    var t := Apply(s, a);
    forall p, q | (p, Accepted) in t.replies && (q, Accepted) in t.replies && p != q
                  && p in t.puts && q in t.puts && t.puts[p].branch == t.puts[q].branch == branch
      ensures t.puts[p].expected != t.puts[q].expected
    {
      AcceptedPutWasOut(s, a, p);
      AcceptedPutWasOut(s, a, q);
      WinnersDiffer(s, a, branch, p, q);
    }
  }

  lemma {:induction false} RunKeepsAccepted(states: seq<State>, actions: seq<Action>, branch: string, i: nat)
    requires IsRun(states, actions) && i < |states| && NoRewind(states, actions, branch, 0, i)
    ensures AcceptedStays(states[i], branch)
  {
    if i > 0 {
      RunKeepsAccepted(states, actions, branch, i - 1);
      RunKeepsInv(states, actions, i - 1);
      assert StepAt(states, actions, i - 1);
      StepKeepsAcceptedStays(states[i - 1], actions[i - 1], branch);
    }
  }

  lemma {:induction false} RunKeepsOneWinner(states: seq<State>, actions: seq<Action>, branch: string, i: nat)
    requires IsRun(states, actions) && i < |states|
    requires NoRewind(states, actions, branch, 0, i) && NoneLate(states, actions, branch, i)
    ensures OneWinnerPerHead(states[i], branch)
  {
    if i > 0 {
      RunKeepsOneWinner(states, actions, branch, i - 1);
      RunKeepsAccepted(states, actions, branch, i - 1);
      RunKeepsInv(states, actions, i - 1);
      assert StepAt(states, actions, i - 1);
      StepKeepsOneWinner(states[i - 1], actions[i - 1], branch);
    }
  }

  /** In a run that does not rewind the branch, once an update conditioned on a head was
      accepted, no update conditioned on that head matches any more. */
  lemma ConsumedHeadNeverMatches(states: seq<State>, actions: seq<Action>, i: nat, p: nat, q: nat)
    requires IsRun(states, actions) && i < |states|
    requires p in states[i].puts && q in states[i].puts && (p, Accepted) in states[i].replies
    requires states[i].puts[p].branch == states[i].puts[q].branch
    requires states[i].puts[p].expected == states[i].puts[q].expected
    requires NoRewind(states, actions, states[i].puts[p].branch, 0, i)
    ensures !HeadMatches(states[i], states[i].puts[q].branch, states[i].puts[q].expected)
  {
    RunKeepsInv(states, actions, i);
    RunKeepsAccepted(states, actions, states[i].puts[p].branch, i);
    ConsumedHeadCannotMatch(states[i], p, q);
  }

  predicate Installs(a: Action, id: nat) {
    a == DeliverPut(id) || a == WriteMatched(id)
  }

  /** The step at which an update was accepted, and the head it installed. */
  lemma {:induction false} AcceptedAt(states: seq<State>, actions: seq<Action>, k: nat, i: nat, id: nat)
    returns (n: nat)
    requires IsRun(states, actions) && k <= i < |states|
    requires (id, Accepted) !in states[k].replies && (id, Accepted) in states[i].replies
    ensures k <= n < i && Installs(actions[n], id) && id in states[n].puts
    ensures var put := states[n].puts[id]; states[n + 1].heads == states[n].heads[put.branch := put.commit]
  {
    assert StepAt(states, actions, i - 1);
    if (id, Accepted) in states[i - 1].replies {
      n := AcceptedAt(states, actions, k, i - 1, id);
    } else {
      n := i - 1;
      NewlyAccepted(states[n], actions[n], id);
    }
  }

  // ---- What was asked for is what is published ----

  ghost predicate AsAsked(s: State, start: Action)
    requires start.Start?
  {
    start.id in s.publishers
    && var p := s.publishers[start.id];
       p.branch == start.branch && p.manifest == start.manifest && p.message == start.message && p.author == start.author
  }

  lemma StepKeepsRequest(s: State, a: Action, start: Action)
    requires Enabled(s, a) && start.Start? && AsAsked(s, start)
    ensures AsAsked(Apply(s, a), start)
  {
  }

  lemma {:induction false} RunKeepsRequest(states: seq<State>, actions: seq<Action>, k: nat, i: nat)
    requires IsRun(states, actions) && k < i < |states| && actions[k].Start?
    ensures AsAsked(states[i], actions[k])
  {
    assert StepAt(states, actions, i - 1);
    if i > k + 1 {
      RunKeepsRequest(states, actions, k, i - 1);
      StepKeepsRequest(states[i - 1], actions[i - 1], actions[k]);
    }
  }

  /** The tree, the message and the author of a commit, said without its parent. */
  predicate Carries(c: Commit, manifest: seq<Entry>, message: string, author: string) {
    c.manifest == manifest && c.message == message && c.author == author
  }

  ghost predicate OnlyBranchMoves(s: State, t: State, branch: string) {
    forall b :: b != branch ==> Head(t, b) == Head(s, b)
  }

  lemma PutAsAsked(s: State, start: Action)
    requires Inv(s) && start.Start? && AsAsked(s, start) && start.id in s.puts
    ensures s.puts[start.id].branch == start.branch
    ensures Carries(s.puts[start.id].commit, start.manifest, start.message, start.author)
  {
    assert PutOk(s, start.id);
  }

  lemma InstallMovesOnePut(s: State, a: Action, id: nat, t: State)
    requires Enabled(s, a) && Installs(a, id) && t == Apply(s, a)
    ensures id in s.puts && (t.heads == s.heads || t.heads == s.heads[s.puts[id].branch := s.puts[id].commit])
  {
  }

  lemma InstallAsAsked(s: State, start: Action, t: State)
    requires Inv(s) && start.Start? && AsAsked(s, start) && start.id in s.puts
    requires var put := s.puts[start.id]; t.heads == s.heads || t.heads == s.heads[put.branch := put.commit]
    ensures OnlyBranchMoves(s, t, start.branch)
    ensures Head(t, start.branch) == Head(s, start.branch)
            || (start.branch in t.heads
                && Carries(t.heads[start.branch], start.manifest, start.message, start.author))
  {
    PutAsAsked(s, start);
  }

  /** Whatever steps install an update of the publisher, they move no branch but the one
      asked for, and leave there a commit of exactly the tree, message and author asked for,
      or what was there. */
  lemma InstallsWhatWasAsked(states: seq<State>, actions: seq<Action>, k: nat, n: nat, id: nat,
                             branch: string, manifest: seq<Entry>, message: string, author: string)
    requires IsRun(states, actions) && k < n < |actions|
    requires actions[k] == Start(id, branch, manifest, message, author) && Installs(actions[n], id)
    ensures OnlyBranchMoves(states[n], states[n + 1], branch)
    ensures Head(states[n + 1], branch) == Head(states[n], branch)
            || (branch in states[n + 1].heads && Carries(states[n + 1].heads[branch], manifest, message, author))
  {
    RunKeepsRequest(states, actions, k, n);
    RunKeepsInv(states, actions, n);
    assert StepAt(states, actions, n);
    InstallMovesOnePut(states[n], actions[n], id, states[n + 1]);
    InstallAsAsked(states[n], actions[k], states[n + 1]);
  }

  lemma NotYetAccepted(states: seq<State>, actions: seq<Action>, k: nat)
    requires IsRun(states, actions) && k < |actions| && actions[k].Start?
    ensures (actions[k].id, Accepted) !in states[k].replies
  {
    RunKeepsInv(states, actions, k);
    assert StepAt(states, actions, k);
    assert forall q :: q in states[k].puts ==> PutOk(states[k], q);
  }

  /** A publish that reports success did what it was asked: at some step after its start a
      commit of exactly the given tree, message and author became the head of exactly the
      given branch, and no other branch moved. */
  lemma PublishedAsAsked(states: seq<State>, actions: seq<Action>, k: nat, i: nat, id: nat,
                         branch: string, manifest: seq<Entry>, message: string, author: string)
    returns (n: nat, c: Commit)
    requires IsRun(states, actions) && k < i < |states|
    requires actions[k] == Start(id, branch, manifest, message, author) && InPhase(states[i], id, Published)
    ensures k < n < i && Installs(actions[n], id)
    ensures Carries(c, manifest, message, author) && c in states[n].commits
    ensures Head(states[n + 1], branch) == Some(c) && OnlyBranchMoves(states[n], states[n + 1], branch)
  {
    RunKeepsInv(states, actions, i);
    NotYetAccepted(states, actions, k);
    n := AcceptedAt(states, actions, k, i, id);
    RunKeepsRequest(states, actions, k, n);
    RunKeepsInv(states, actions, n);
    PutAsAsked(states[n], actions[k]);
    c := states[n].puts[id].commit;
    assert PutOk(states[n], id);
  }

  /** It is in the history of that branch now and ever after, unless something rewinds the
      branch after its acceptance. */
  lemma PublishedIsDurable(states: seq<State>, actions: seq<Action>, k: nat, i: nat, j: nat, id: nat,
                           branch: string, manifest: seq<Entry>, message: string, author: string)
    returns (n: nat, c: Commit)
    requires IsRun(states, actions) && k < i <= j < |states|
    requires actions[k] == Start(id, branch, manifest, message, author) && InPhase(states[i], id, Published)
    ensures k < n < i && Head(states[n + 1], branch) == Some(c) && Carries(c, manifest, message, author)
    ensures NoRewind(states, actions, branch, n + 1, j) ==>
              branch in states[j].heads && IsAncestor(c, states[j].heads[branch])
  {
    n, c := PublishedAsAsked(states, actions, k, i, id, branch, manifest, message, author);
    if NoRewind(states, actions, branch, n + 1, j) {
      HeadsStayAncestors(states, actions, n + 1, j, branch);
    }
  }

  /** Its commit and content stay stored whatever happens to the branch. */
  lemma PublishedContentStays(states: seq<State>, actions: seq<Action>, k: nat, i: nat, j: nat, id: nat,
                              branch: string, manifest: seq<Entry>, message: string, author: string)
    returns (c: Commit)
    requires IsRun(states, actions) && k < i <= j < |states|
    requires actions[k] == Start(id, branch, manifest, message, author) && InPhase(states[i], id, Published)
    ensures Carries(c, manifest, message, author) && c in states[j].commits
    ensures Digests(manifest) <= states[j].blobs
  {
    var n: nat;
    n, c := PublishedAsAsked(states, actions, k, i, id, branch, manifest, message, author);
    RunOnlyAdds(states, actions, n, j);
    ContentClosure(states, actions, j, c);
  }

  /** Of the publishers that started from one head of one branch at most one succeeds, as
      long as nothing rewinds the branch and no update is written late. */
  lemma OneWinner(states: seq<State>, actions: seq<Action>, i: nat, p: nat, q: nat)
    requires IsRun(states, actions) && i < |states|
    requires InPhase(states[i], p, Published) && InPhase(states[i], q, Published) && p != q
    requires states[i].publishers[p].branch == states[i].publishers[q].branch
    requires NoRewind(states, actions, states[i].publishers[p].branch, 0, i)
    requires NoneLate(states, actions, states[i].publishers[p].branch, i)
    ensures states[i].publishers[p].parent != states[i].publishers[q].parent
  {
    RunKeepsInv(states, actions, i);
    RunKeepsOneWinner(states, actions, states[i].publishers[p].branch, i);
    assert PutOk(states[i], p) && PutOk(states[i], q);
  }

  lemma ChangedMeansWritten(s: State, a: Action)
    requires Enabled(s, a) && a.DeliverPut? && Apply(s, a).heads != s.heads
    ensures var put := s.puts[a.id]; Apply(s, a).heads == s.heads[put.branch := put.commit]
  {
  }

  lemma AppliedStaysBelow(states: seq<State>, actions: seq<Action>, i: nat, j: nat)
    requires IsRun(states, actions) && i < j < |states| && actions[i].DeliverPut?
    requires states[i + 1].heads != states[i].heads && actions[i].id in states[i].puts
    requires NoRewind(states, actions, states[i].puts[actions[i].id].branch, i + 1, j)
    ensures var put := states[i].puts[actions[i].id];
            put.branch in states[j].heads && IsAncestor(put.commit, states[j].heads[put.branch])
  {
    assert StepAt(states, actions, i);
    ChangedMeansWritten(states[i], actions[i]);
    HeadsStayAncestors(states, actions, i + 1, j, states[i].puts[actions[i].id].branch);
  }

  /** A request delivered again takes effect exactly when its condition matches again. */
  lemma DeliveryChangesIff(s: State, a: Action)
    requires Inv(s) && Enabled(s, a) && a.DeliverPut?
    ensures Apply(s, a).heads != s.heads <==> HeadMatches(s, s.puts[a.id].branch, s.puts[a.id].expected)
  {
    var put := s.puts[a.id];
    assert PutOk(s, a.id) && put.commit == CommitOf(s.publishers[a.id]);
    if put.expected.Some? {
      assert put.expected.value in put.commit.parents && IsAncestor(put.expected.value, put.expected.value);
      assert Height(put.expected.value) < Height(put.commit);
    }
  }

  /** However often one update request is delivered, it takes effect at most once, unless
      something rewinds its branch in between: it takes effect again exactly when the head
      is again the one it was conditioned on, and that takes a rewind. */
  lemma UpdateAppliesOnce(states: seq<State>, actions: seq<Action>, i: nat, j: nat)
    requires IsRun(states, actions) && i < j < |actions|
    requires actions[i].DeliverPut? && actions[j] == actions[i]
    requires states[i + 1].heads != states[i].heads
    requires actions[i].id in states[i].puts
    ensures var put := states[i].puts[actions[i].id];
            && (states[j + 1].heads != states[j].heads <==> HeadMatches(states[j], put.branch, put.expected))
            && (NoRewind(states, actions, put.branch, i + 1, j) ==> states[j + 1].heads == states[j].heads)
  {
    assert StepAt(states, actions, j);
    RunKeepsInv(states, actions, j);
    RunOnlyAdds(states, actions, i, j);
    DeliveryChangesIff(states[j], actions[j]);
    var id := actions[i].id;
    if NoRewind(states, actions, states[i].puts[id].branch, i + 1, j) {
      AppliedStaysBelow(states, actions, i, j);
      CoveredHeadCannotMatch(states[j], id);
    }
  }
}
