/** A publish can always succeed: from wherever a run stands, the publisher's own steps and
    the forge's answers to them lead to success, when nobody else moves the branch. */
module ForgeLiveness {
  import opened Options
  import opened ForgeObjects
  import opened ForgeProtocol
  import opened ForgeSafety

  /** One more step. */
  lemma Go(states: seq<State>, actions: seq<Action>, a: Action) returns (ss: seq<State>, aa: seq<Action>)
    requires IsRun(states, actions) && Enabled(states[|actions|], a)
    ensures IsRun(ss, aa) && ss[|aa|] == Apply(states[|actions|], a)
    ensures |aa| == |actions| + 1 && states <= ss && actions <= aa && aa[|actions|] == a
  {
    ss, aa := states + [Apply(states[|actions|], a)], actions + [a];
    forall i: nat | i < |aa|
      ensures StepAt(ss, aa, i)
    {
      if i < |actions| {
        assert StepAt(states, actions, i);
      }
    }
  }

  datatype Request = Request(branch: string, manifest: seq<Entry>, message: string, author: string)

  function PublisherFor(r: Request, parent: Option<Commit>, phase: Phase): Publisher {
    Publisher(r.branch, r.manifest, r.message, r.author, parent, phase)
  }

  /** The run stands where this publisher is in this phase, with the branch's head as its
      parent. */
  ghost predicate At(states: seq<State>, actions: seq<Action>, id: nat, r: Request, phase: Phase) {
    IsRun(states, actions)
    && var s := states[|actions|];
       id in s.publishers && s.publishers[id] == PublisherFor(r, Head(s, r.branch), phase)
  }

  /** The publisher finds the branch's head, or, after asking for the repository, none. */
  lemma Resolves(before: seq<State>, done: seq<Action>, id: nat, r: Request)
    returns (states: seq<State>, actions: seq<Action>)
    requires IsRun(before, done) && r.manifest != [] && id !in before[|done|].publishers
    ensures At(states, actions, id, r, ReadingParent) && before <= states && done <= actions
    ensures |done| < |actions| && actions[|done|] == Start(id, r.branch, r.manifest, r.message, r.author)
    ensures states[|actions|].heads == before[|done|].heads
  {
    states, actions := Go(before, done, Start(id, r.branch, r.manifest, r.message, r.author));
    states, actions := Go(states, actions, ResolveHead(id));
    if r.branch !in before[|done|].heads {
      states, actions := Go(states, actions, RepoCreated(id));
      states, actions := Go(states, actions, ResolveHead(id));
    }
  }

  /** One blob is sent, stored and seen. */
  lemma UploadsOne(before: seq<State>, done: seq<Action>, id: nat, r: Request, waiting: set<Digest>, d: Digest)
    returns (states: seq<State>, actions: seq<Action>)
    requires At(before, done, id, r, Uploading(waiting)) && d in waiting
    ensures At(states, actions, id, r, Uploading(waiting - {d})) && before <= states && done <= actions
    ensures states[|actions|].heads == before[|done|].heads
  {
    states, actions := Go(before, done, SendBlob(id, d));
    states, actions := Go(states, actions, StoreBlob(d));
    states, actions := Go(states, actions, BlobStored(id, d));
  }

  lemma {:induction false} Uploads(before: seq<State>, done: seq<Action>, id: nat, r: Request, waiting: set<Digest>)
    returns (states: seq<State>, actions: seq<Action>)
    requires At(before, done, id, r, Uploading(waiting))
    ensures At(states, actions, id, r, Uploading({})) && before <= states && done <= actions
    ensures states[|actions|].heads == before[|done|].heads
    decreases |waiting|
  {
    if waiting == {} {
      states, actions := before, done;
    } else {
      var d :| d in waiting;
      states, actions := UploadsOne(before, done, id, r, waiting, d);
      states, actions := Uploads(states, actions, id, r, waiting - {d});
    }
  }

  lemma PostsCommit(before: seq<State>, done: seq<Action>, id: nat, r: Request)
    returns (states: seq<State>, actions: seq<Action>)
    requires At(before, done, id, r, Uploading({}))
    ensures At(states, actions, id, r, PostingCommit) && before <= states && done <= actions
    ensures states[|actions|].heads == before[|done|].heads
    ensures CommitOf(states[|actions|].publishers[id]) in states[|actions|].commits
  {
    states, actions := Go(before, done, UploadsDone(id));
    states, actions := Go(states, actions, SendCommit(id));
    var c := CommitOf(states[|actions|].publishers[id]);
    PublisherCommitsPassValidation(states, actions, |actions|, c);
    states, actions := Go(states, actions, StoreCommit(c));
  }

  /** Everything up to the branch update. */
  lemma Prepares(before: seq<State>, done: seq<Action>, id: nat, r: Request)
    returns (states: seq<State>, actions: seq<Action>)
    requires IsRun(before, done) && r.manifest != [] && id !in before[|done|].publishers
    ensures At(states, actions, id, r, PostingCommit) && before <= states && done <= actions
    ensures |done| < |actions| && actions[|done|] == Start(id, r.branch, r.manifest, r.message, r.author)
    ensures CommitOf(states[|actions|].publishers[id]) in states[|actions|].commits
  {
    states, actions := Resolves(before, done, id, r);
    states, actions := Go(states, actions, ReadParent(id, true));
    states, actions := Uploads(states, actions, id, r, states[|actions|].publishers[id].phase.waiting);
    states, actions := PostsCommit(states, actions, id, r);
  }

  /** The publisher has asked for the branch, which nobody has moved since it looked. */
  ghost predicate Asking(states: seq<State>, actions: seq<Action>, id: nat, r: Request) {
    At(states, actions, id, r, PuttingBranch)
    && var s := states[|actions|];
       && id in s.puts && s.puts[id].branch == r.branch && s.puts[id].expected == Head(s, r.branch)
       && s.puts[id].commit in s.commits && Carries(s.puts[id].commit, r.manifest, r.message, r.author)
  }

  lemma Asks(before: seq<State>, done: seq<Action>, id: nat, r: Request)
    returns (states: seq<State>, actions: seq<Action>)
    requires IsRun(before, done) && r.manifest != [] && id !in before[|done|].publishers
    ensures Asking(states, actions, id, r) && before <= states && done <= actions
    ensures |done| < |actions| && actions[|done|] == Start(id, r.branch, r.manifest, r.message, r.author)
  {
    states, actions := Prepares(before, done, id, r);
    states, actions := Go(states, actions, CommitStored(id));
  }

  /** Every run can be continued so that a new publish of any tree but the empty one, to any
      branch, there or not, reports success. */
  lemma PublishCanSucceed(before: seq<State>, done: seq<Action>, id: nat, branch: string, manifest: seq<Entry>,
                          message: string, author: string)
    returns (states: seq<State>, actions: seq<Action>)
    requires IsRun(before, done) && manifest != [] && id !in before[|done|].publishers
    ensures IsRun(states, actions) && before <= states && done <= actions
    ensures InPhase(states[|actions|], id, Published)
    ensures |done| < |actions| && actions[|done|] == Start(id, branch, manifest, message, author)
  {
    states, actions := Asks(before, done, id, Request(branch, manifest, message, author));
    states, actions := Go(states, actions, DeliverPut(id));
    states, actions := Go(states, actions, SeeReply(id, Accepted));
  }

  /** A publish that failed may still take effect: the publisher can stop after it asked for
      the branch, and the forge accepts the request afterwards. */
  lemma FailedPublishMayLand(before: seq<State>, done: seq<Action>, id: nat, branch: string, manifest: seq<Entry>,
                             message: string, author: string)
    returns (states: seq<State>, actions: seq<Action>)
    requires IsRun(before, done) && manifest != [] && id !in before[|done|].publishers
    ensures IsRun(states, actions) && before <= states && done <= actions
    ensures |done| < |actions| && actions[|done|] == Start(id, branch, manifest, message, author)
    ensures var s := states[|actions|];
            InPhase(s, id, Failed) && branch in s.heads && Carries(s.heads[branch], manifest, message, author)
  {
    states, actions := Asks(before, done, id, Request(branch, manifest, message, author));
    states, actions := Go(states, actions, GiveUp(id));
    states, actions := Go(states, actions, DeliverPut(id));
  }
}
