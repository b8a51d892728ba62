/** A run in which a published commit is lost: two publishers find the repository
    missing, both create requests pass the absence check, one publisher succeeds on
    top of the first root commit, and then the second create request writes the root
    commit again. */
module ForgeLostUpdate {
  import opened Options
  import opened ForgeObjects
  import opened ForgeProtocol
  import opened ForgeSafety
  import opened ForgeLiveness

  const FILE := Entry("a.txt", Sha256([]), false, 0)
  const COMMIT := Commit([FILE], [ROOT], "m", "a")
  const EMPTY := State({}, {}, map[], {}, {}, {}, {}, {}, map[], {}, map[])

  function PublisherAt(parent: Option<Commit>, phase: Phase): Publisher {
    Publisher(MAIN, [FILE], "m", "a", parent, phase)
  }

  lemma BothStart() returns (states: seq<State>, actions: seq<Action>)
    ensures IsRun(states, actions)
    ensures states[|actions|] == EMPTY.(
              publishers := map[1 := PublisherAt(None, Resolving), 2 := PublisherAt(None, Resolving)])
  {
    states, actions := [EMPTY], [];
    states, actions := Go(states, actions, Start(1, MAIN, [FILE], "m", "a"));
    states, actions := Go(states, actions, Start(2, MAIN, [FILE], "m", "a"));
  }

  lemma BothResolve() returns (states: seq<State>, actions: seq<Action>)
    ensures IsRun(states, actions)
    ensures states[|actions|] == EMPTY.(
              createPosts := {1, 2},
              publishers := map[1 := PublisherAt(None, CreatingRepo), 2 := PublisherAt(None, CreatingRepo)])
  {
    states, actions := BothStart();
    states, actions := Go(states, actions, ResolveHead(1));
    states, actions := Go(states, actions, ResolveHead(2));
  }

  /** Both publishers resolve the branch as absent and both create requests check it. */
  lemma BothCheck() returns (states: seq<State>, actions: seq<Action>)
    ensures IsRun(states, actions)
    ensures states[|actions|] == EMPTY.(
              createPosts := {1, 2}, creating := {1, 2},
              publishers := map[1 := PublisherAt(None, CreatingRepo), 2 := PublisherAt(None, CreatingRepo)])
  {
    states, actions := BothResolve();
    states, actions := Go(states, actions, CheckAbsent(1));
    states, actions := Go(states, actions, CheckAbsent(2));
  }

  lemma OnlyTheFileIsNew()
    ensures Digests(BlobsToUpload([FILE], Digests(ROOT.manifest))) == {FILE.digest}
    ensures Digests([FILE]) == {FILE.digest}
  {
    UploadsCoverNewDigests([FILE], Digests(ROOT.manifest));
    assert FILE in [FILE];
  }

  ghost predicate FirstIs(s: State, phase: Phase) {
    && s.creating == {2} && s.heads == map[MAIN := ROOT] && s.puts == map[]
    && 1 in s.publishers && s.publishers[1] == PublisherAt(Some(ROOT), phase)
  }

  /** The first create request writes the root, and its publisher resolves it. */
  lemma FirstResolves() returns (states: seq<State>, actions: seq<Action>)
    ensures IsRun(states, actions)
    ensures FirstIs(states[|actions|], ReadingParent)
  {
    states, actions := BothCheck();
    states, actions := Go(states, actions, WriteRoot(1));
    states, actions := Go(states, actions, RepoCreated(1));
    states, actions := Go(states, actions, ResolveHead(1));
  }

  lemma FirstUploads() returns (states: seq<State>, actions: seq<Action>)
    ensures IsRun(states, actions)
    ensures FirstIs(states[|actions|], PostingCommit) && FILE.digest in states[|actions|].blobs
  {
    states, actions := FirstResolves();
    OnlyTheFileIsNew();
    states, actions := Go(states, actions, ReadParent(1, true));
    states, actions := Go(states, actions, SendBlob(1, FILE.digest));
    states, actions := Go(states, actions, StoreBlob(FILE.digest));
    states, actions := Go(states, actions, BlobStored(1, FILE.digest));
    assert {FILE.digest} - {FILE.digest} == {};
    states, actions := Go(states, actions, UploadsDone(1));
  }

  lemma FirstPosts() returns (states: seq<State>, actions: seq<Action>)
    ensures IsRun(states, actions)
    ensures FirstIs(states[|actions|], PostingCommit) && COMMIT in states[|actions|].commits
  {
    states, actions := FirstUploads();
    states, actions := Go(states, actions, SendCommit(1));
    OnlyTheFileIsNew();
    states, actions := Go(states, actions, StoreCommit(COMMIT));
  }

  const PUT := Put(MAIN, COMMIT, Some(ROOT))

  /** The first publisher's update is accepted while the second create request is due. */
  ghost predicate FirstWon(s: State, phase: Phase) {
    && s.creating == {2} && s.heads == map[MAIN := COMMIT]
    && 1 in s.puts && s.puts[1] == PUT && (1, Accepted) in s.replies && COMMIT in s.commits
    && 1 in s.publishers && s.publishers[1] == PublisherAt(Some(ROOT), phase)
  }

  lemma FirstIsAccepted() returns (states: seq<State>, actions: seq<Action>)
    ensures IsRun(states, actions) && FirstWon(states[|actions|], PuttingBranch)
  {
    states, actions := FirstPosts();
    states, actions := Go(states, actions, CommitStored(1));
    states, actions := Go(states, actions, DeliverPut(1));
  }

  lemma FirstPublishes() returns (states: seq<State>, actions: seq<Action>)
    ensures IsRun(states, actions) && FirstWon(states[|actions|], Published)
  {
    states, actions := FirstIsAccepted();
    states, actions := Go(states, actions, SeeReply(1, Accepted));
  }

  /** The second create request writes the root over the published commit. */
  ghost predicate FirstLost(s: State) {
    && s.heads == map[MAIN := ROOT] && COMMIT in s.commits
    && 1 in s.puts && s.puts[1] == PUT && (1, Accepted) in s.replies
    && 1 in s.publishers && s.publishers[1] == PublisherAt(Some(ROOT), Published)
  }

  lemma RootIsWrittenAgain() returns (states: seq<State>, actions: seq<Action>)
    ensures IsRun(states, actions) && FirstLost(states[|actions|])
  {
    states, actions := FirstPublishes();
    states, actions := Go(states, actions, WriteRoot(2));
  }

  /** The published commit is gone from the branch although its publisher was told
      it succeeded, so the condition in NoLostUpdates cannot be dropped. */
  lemma StaleRootLosesPublishedCommit() returns (states: seq<State>, actions: seq<Action>)
    ensures IsRun(states, actions)
    ensures var s := states[|actions|];
            && InPhase(s, 1, Published) && CommitOf(s.publishers[1]) == COMMIT
            && s.heads == map["main" := Commit([], [], "init", "aivcsd")] && !IsAncestor(COMMIT, s.heads[MAIN])
  {
    states, actions := RootIsWrittenAgain();
  }

  /** The condition in ConsumedHeadNeverMatches and UpdateAppliesOnce cannot be dropped
      either: after that write the accepted request matches again, and delivered once more
      it takes effect once more. */
  lemma AcceptedUpdateAppliesAgain() returns (states: seq<State>, actions: seq<Action>)
    ensures IsRun(states, actions) && |actions| > 0 && actions[|actions| - 1] == DeliverPut(1)
    ensures var s := states[|actions| - 1];
            && 1 in s.puts && (1, Accepted) in s.replies && HeadMatches(s, s.puts[1].branch, s.puts[1].expected)
            && s.heads == map[MAIN := ROOT] && states[|actions|].heads == map[MAIN := COMMIT]
  {
    var before, done := RootIsWrittenAgain();
    states, actions := Go(before, done, DeliverPut(1));
  }
}
