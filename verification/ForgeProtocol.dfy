/** The publish protocol between any number of publishers and one forge
    repository, as a state machine: every request may be delayed, lost or delivered
    more than once, steps interleave freely, and a publisher may give up anywhere. Other
    clients store and write what the forge lets them, and the forge's store compares and
    sets a branch head in one request or in two. */
module ForgeProtocol {
  import opened Options
  import opened ForgeObjects

  /** The branch `create_repo` initialises, and the empty root commit it writes. */
  const MAIN := "main"
  const ROOT := Commit([], [], "init", "aivcsd")

  datatype Put = Put(branch: string, commit: Commit, expected: Option<Commit>)

  datatype Reply = Accepted | Conflict

  /** What another client asks of a branch before it is written: nothing, or its head. */
  datatype Condition = Anything | Exactly(head: Option<Commit>)

  datatype Phase =
    | Resolving
    | CreatingRepo
    | ResolvingAgain
    | ReadingParent
    | Uploading(waiting: set<Digest>)
    | PostingCommit
    | PuttingBranch
    | Published
    | Refused
    | Failed

  datatype Publisher = Publisher(
    branch: string, manifest: seq<Entry>, message: string, author: string,
    parent: Option<Commit>, phase: Phase)

  function CommitOf(p: Publisher): Commit {
    Commit(p.manifest, if p.parent.Some? then [p.parent.value] else [], p.message, p.author)
  }

  function PutOf(p: Publisher): Put {
    Put(p.branch, CommitOf(p), p.parent)
  }

  datatype State = State(
    // the forge
    blobs: set<Digest>,
    commits: set<Commit>,
    heads: map<string, Commit>,
    creating: set<nat>,          // create requests past their absence check
    matched: set<nat>,           // updates past their check, on a store that reads and then writes
    // requests on the wire and replies sent
    createPosts: set<nat>,
    blobPosts: set<Digest>,
    commitPosts: set<Commit>,
    puts: map<nat, Put>,
    replies: set<(nat, Reply)>,
    // the clients
    publishers: map<nat, Publisher>)

  datatype Action =
    | Start(id: nat, branch: string, manifest: seq<Entry>, message: string, author: string)
    | ResolveHead(id: nat)
    | RepoCreated(id: nat)
    | ReadParent(id: nat, readable: bool)
    | SendBlob(id: nat, digest: Digest)
    | BlobStored(id: nat, digest: Digest)
    | UploadsDone(id: nat)
    | SendCommit(id: nat)
    | CommitStored(id: nat)
    | SeeReply(id: nat, reply: Reply)
    | GiveUp(id: nat)
    // the forge handles a request
    | CheckAbsent(id: nat)
    | WriteRoot(id: nat)
    | StoreBlob(digest: Digest)
    | StoreCommit(commit: Commit)
    | DeliverPut(id: nat)
    // a store that compares and sets in two requests
    | MatchPut(id: nat)
    | WriteMatched(id: nat)
    // other clients of the repository
    | OtherBlob(digest: Digest)
    | OtherCommit(commit: Commit)
    | OtherWrite(branch: string, commit: Commit, condition: Condition)
    | OtherPublish(blobs: set<Digest>, commit: Commit, updates: seq<(string, Commit)>)

  // ---- The forge's side ----

  /** The digests the forge trusts because a stored parent carries them. */
  function Inherited(commits: set<Commit>, commit: Commit): set<Digest> {
    set p, e | p in commit.parents && p in commits && e in p.manifest :: e.digest
  }

  /** `create_commit` looks up only digests no stored parent carries. */
  predicate Validated(s: State, commit: Commit) {
    Digests(commit.manifest) - Inherited(s.commits, commit) <= s.blobs
  }

  predicate HeadMatches(s: State, branch: string, expected: Option<Commit>) {
    match expected
    case None => branch !in s.heads
    case Some(head) => branch in s.heads && s.heads[branch] == head
  }

  predicate Met(s: State, branch: string, condition: Condition) {
    condition.Exactly? ==> HeadMatches(s, branch, condition.head)
  }

  /** The commit a list of branch updates leaves a branch at; the last one counts. */
  function LastUpdate(updates: seq<(string, Commit)>, branch: string): Option<Commit> {
    if updates == [] then None
    else
      var last := updates[|updates| - 1];
      if last.0 == branch then Some(last.1) else LastUpdate(updates[..|updates| - 1], branch)
  }

  function Updated(heads: map<string, Commit>, updates: seq<(string, Commit)>): map<string, Commit> {
    if updates == [] then heads
    else
      var last := updates[|updates| - 1];
      Updated(heads, updates[..|updates| - 1])[last.0 := last.1]
  }

  function Head(s: State, branch: string): Option<Commit> {
    if branch in s.heads then Some(s.heads[branch]) else None
  }

  function Deliver(s: State, id: nat): State
    requires id in s.puts
  {
    var put := s.puts[id];
    if put.commit !in s.commits then s
    else if HeadMatches(s, put.branch, put.expected) then
      s.(heads := s.heads[put.branch := put.commit], replies := s.replies + {(id, Accepted)})
    else s.(replies := s.replies + {(id, Conflict)})
  }

  // ---- Steps ----

  predicate InPhase(s: State, id: nat, phase: Phase) {
    id in s.publishers && s.publishers[id].phase == phase
  }

  predicate IsUploading(s: State, id: nat) {
    id in s.publishers && s.publishers[id].phase.Uploading?
  }

  predicate Enabled(s: State, a: Action) {
    match a
    case Start(id, _, manifest, _, _) => id !in s.publishers && manifest != []
    case ResolveHead(id) => InPhase(s, id, Resolving) || InPhase(s, id, ResolvingAgain)
    case RepoCreated(id) => InPhase(s, id, CreatingRepo)
    case ReadParent(id, _) => InPhase(s, id, ReadingParent)
    case SendBlob(id, d) => IsUploading(s, id) && d in s.publishers[id].phase.waiting
    case BlobStored(id, d) => IsUploading(s, id) && d in s.publishers[id].phase.waiting && d in s.blobs
    case UploadsDone(id) => IsUploading(s, id) && s.publishers[id].phase.waiting == {}
    case SendCommit(id) => InPhase(s, id, PostingCommit)
    case CommitStored(id) => InPhase(s, id, PostingCommit) && CommitOf(s.publishers[id]) in s.commits
    case SeeReply(id, reply) => InPhase(s, id, PuttingBranch) && (id, reply) in s.replies
    case GiveUp(id) => id in s.publishers && s.publishers[id].phase !in {Published, Refused, Failed}
    case CheckAbsent(id) => id in s.createPosts && MAIN !in s.heads
    case WriteRoot(id) => id in s.creating
    case StoreBlob(d) => d in s.blobPosts
    case StoreCommit(c) => c in s.commitPosts && Validated(s, c)
    case DeliverPut(id) => id in s.puts
    case MatchPut(id) =>
      id in s.puts && s.puts[id].commit in s.commits && HeadMatches(s, s.puts[id].branch, s.puts[id].expected)
    case WriteMatched(id) => id in s.matched && id in s.puts
    case OtherBlob(_) => true
    case OtherCommit(c) => Validated(s, c)
    case OtherWrite(branch, c, condition) => c in s.commits && Met(s, branch, condition)
    case OtherPublish(blobs, c, updates) =>
      Digests(c.manifest) - Inherited(s.commits, c) <= s.blobs + blobs
      && forall u :: u in updates ==> u.1 in s.commits || u.1 == c
  }

  function To(s: State, id: nat, phase: Phase): State
    requires id in s.publishers
  {
    s.(publishers := s.publishers[id := s.publishers[id].(phase := phase)])
  }

  function Resolved(s: State, id: nat): State
    requires id in s.publishers
  {
    var p := s.publishers[id];
    match Head(s, p.branch)
    case Some(head) =>
      s.(publishers := s.publishers[id := p.(parent := Some(head), phase := ReadingParent)])
    case None =>
      if p.phase == Resolving
      then To(s, id, CreatingRepo).(createPosts := s.createPosts + {id})
      else To(s, id, ReadingParent)
  }

  /** The digests a publisher takes as known: its parent's, or none when there is
      no parent or its manifest cannot be read. */
  function Known(p: Publisher, readable: bool): set<Digest> {
    if p.parent.Some? && readable then Digests(p.parent.value.manifest) else {}
  }

  function Apply(s: State, a: Action): State
    requires Enabled(s, a)
  {
    match a
    case Start(id, branch, manifest, message, author) =>
      s.(publishers := s.publishers[id := Publisher(branch, manifest, message, author, None, Resolving)])
    case ResolveHead(id) => Resolved(s, id)
    case RepoCreated(id) => To(s, id, ResolvingAgain)
    case ReadParent(id, readable) =>
      var p := s.publishers[id];
      To(s, id, Uploading(Digests(BlobsToUpload(p.manifest, Known(p, readable)))))
    case SendBlob(_, d) => s.(blobPosts := s.blobPosts + {d})
    case BlobStored(id, d) => To(s, id, Uploading(s.publishers[id].phase.waiting - {d}))
    case UploadsDone(id) => To(s, id, PostingCommit)
    case SendCommit(id) => s.(commitPosts := s.commitPosts + {CommitOf(s.publishers[id])})
    case CommitStored(id) =>
      To(s, id, PuttingBranch).(puts := s.puts[id := PutOf(s.publishers[id])])
    case SeeReply(id, reply) => To(s, id, if reply == Accepted then Published else Refused)
    case GiveUp(id) => To(s, id, Failed)
    case CheckAbsent(id) => s.(creating := s.creating + {id})
    case WriteRoot(id) =>
      s.(commits := s.commits + {ROOT}, heads := s.heads[MAIN := ROOT], creating := s.creating - {id})
    case StoreBlob(d) => s.(blobs := s.blobs + {d})
    case StoreCommit(c) => s.(commits := s.commits + {c})
    case DeliverPut(id) => Deliver(s, id)
    case MatchPut(id) => s.(matched := s.matched + {id})
    case WriteMatched(id) =>
      s.(heads := s.heads[s.puts[id].branch := s.puts[id].commit],
         replies := s.replies + {(id, Accepted)}, matched := s.matched - {id})
    case OtherBlob(d) => s.(blobs := s.blobs + {d})
    case OtherCommit(c) => s.(commits := s.commits + {c})
    case OtherWrite(branch, c, _) => s.(heads := s.heads[branch := c])
    case OtherPublish(blobs, c, updates) =>
      s.(blobs := s.blobs + blobs, commits := s.commits + {c}, heads := Updated(s.heads, updates))
  }

  // ---- Initial states and runs ----

  ghost predicate Closed(s: State) {
    forall c :: c in s.commits ==> Digests(c.manifest) <= s.blobs
  }

  /** A repository with any history whose content is complete, and nobody publishing. */
  ghost predicate Initial(s: State) {
    && Closed(s)
    && (forall b :: b in s.heads ==> s.heads[b] in s.commits)
    && s.creating == {} && s.matched == {} && s.createPosts == {} && s.blobPosts == {} && s.commitPosts == {}
    && s.puts == map[] && s.replies == {} && s.publishers == map[]
  }

  predicate StepAt(states: seq<State>, actions: seq<Action>, i: nat)
    requires i < |actions| < |states|
  {
    Enabled(states[i], actions[i]) && states[i + 1] == Apply(states[i], actions[i])
  }

  ghost predicate IsRun(states: seq<State>, actions: seq<Action>) {
    && |states| == |actions| + 1
    && Initial(states[0])
    && forall i: nat :: i < |actions| ==> StepAt(states, actions, i)
  }
}
