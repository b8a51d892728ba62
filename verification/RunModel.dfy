/** CI runs and what the two run stores compute, as functions on their contents. */
module RunModel {
  import opened Options
  import opened Sorting

  datatype Status = Queued | Running | Succeeded | Failed

  datatype Run = Run(id: string, owner: string, repo: string, status: Status, createdAt: int)

  // ---- The in-memory store: a list of runs ----

  function Find(runs: seq<Run>, id: string): Option<Run> {
    if runs == [] then None
    else if runs[0].id == id then Some(runs[0])
    else Find(runs[1..], id)
  }

  function SetFirst(runs: seq<Run>, id: string, status: Status): (r: seq<Run>)
    ensures |r| == |runs|
  {
    if runs == [] then []
    else if runs[0].id == id then [runs[0].(status := status)] + runs[1..]
    else [runs[0]] + SetFirst(runs[1..], id, status)
  }

  /** The queued run with the least creation time, the first of them on a tie. */
  ghost predicate IsOldestQueued(runs: seq<Run>, i: nat) {
    && i < |runs| && runs[i].status == Queued
    && (forall j :: 0 <= j < |runs| && runs[j].status == Queued ==> runs[i].createdAt <= runs[j].createdAt)
    && (forall j :: 0 <= j < i && runs[j].status == Queued ==> runs[i].createdAt < runs[j].createdAt)
  }

  ghost predicate AnyQueued(runs: seq<Run>) {
    exists i :: 0 <= i < |runs| && runs[i].status == Queued
  }

  function OfRepo(runs: seq<Run>, owner: string, repo: string): (r: seq<Run>)
    ensures forall x :: x in r <==> x in runs && x.owner == owner && x.repo == repo
  {
    if runs == [] then []
    else (if runs[0].owner == owner && runs[0].repo == repo then [runs[0]] else [])
         + OfRepo(runs[1..], owner, repo)
  }

  /** Runs by creation time, latest first; equal times keep their order. */
  function NewestFirst(runs: seq<Run>): seq<Run> {
    SortByKey(runs, (r: Run) => -r.createdAt)
  }

  // ---- The data-mesh store: an append-only log of run documents ----

  function RepoKey(owner: string, repo: string): string {
    owner + "/" + repo
  }

  function ClaimKey(id: string): string {
    "claim:" + id
  }

  /** A query: the matching documents, newest first. */
  function Newest(events: seq<Run>, p: Run -> bool): (r: seq<Run>)
    ensures |r| <= |events|
    ensures forall e :: e in r <==> e in events && p(e)
  {
    if events == [] then []
    else
      var init, last := events[..|events| - 1], events[|events| - 1];
      assert events == init + [last];
      (if p(last) then [last] else []) + Newest(init, p)
  }

  function Limited(docs: seq<Run>, limit: nat): seq<Run> {
    if |docs| <= limit then docs else docs[..limit]
  }

  /** The newest document of a run is its current state. */
  function Latest(events: seq<Run>, id: string): Option<Run> {
    var docs := Limited(Newest(events, (r: Run) => r.id == id), 1);
    if docs == [] then None else Some(docs[0])
  }

  function Reverse(docs: seq<Run>): (r: seq<Run>)
    ensures |r| == |docs|
    ensures forall i :: 0 <= i < |docs| ==> r[i] == docs[|docs| - 1 - i]
  {
    if docs == [] then [] else Reverse(docs[1..]) + [docs[0]]
  }

  const CLAIM_LIMIT := 100
  const REPO_LIMIT := 500
  const LIST_LIMIT := 1000

  function QueuedDocs(events: seq<Run>): seq<Run> {
    Newest(events, (r: Run) => r.status == Queued)
  }

  function RepoDocs(events: seq<Run>, key: string): seq<Run> {
    Newest(events, (r: Run) => RepoKey(r.owner, r.repo) == key)
  }

  function AllDocs(events: seq<Run>): seq<Run> {
    Newest(events, (r: Run) => true)
  }

  /** Claim candidates, oldest first. */
  function Candidates(events: seq<Run>): seq<Run> {
    Reverse(Limited(QueuedDocs(events), CLAIM_LIMIT))
  }

  predicate Claimable(events: seq<Run>, keys: set<string>, id: string) {
    && Latest(events, id).Some?
    && Latest(events, id).value.status == Queued
    && ClaimKey(id) !in keys
  }

  /** The first candidate that is still queued and not yet claimed by anyone. */
  function Pick(candidates: seq<Run>, events: seq<Run>, keys: set<string>): Option<Run> {
    if candidates == [] then None
    else if Claimable(events, keys, candidates[0].id) then Latest(events, candidates[0].id)
    else Pick(candidates[1..], events, keys)
  }

  predicate Mentions(docs: seq<Run>, id: string) {
    exists i :: 0 <= i < |docs| && docs[i].id == id
  }

  lemma MentionsAppend(docs: seq<Run>, e: Run, id: string)
    ensures Mentions(docs + [e], id) <==> Mentions(docs, id) || e.id == id
  {
    if Mentions(docs, id) {
      var i :| 0 <= i < |docs| && docs[i].id == id;
      assert (docs + [e])[i].id == id;
    }
    if e.id == id {
      assert (docs + [e])[|docs|].id == id;
    }
  }

  ghost predicate DistinctIds(runs: seq<Run>) {
    forall i, j :: 0 <= i < j < |runs| ==> runs[i].id != runs[j].id
  }

  /** The first document of every run in a list of documents. */
  function Firsts(docs: seq<Run>): seq<Run> {
    if docs == [] then []
    else
      var init, last := docs[..|docs| - 1], docs[|docs| - 1];
      if Mentions(init, last.id) then Firsts(init) else Firsts(init) + [last]
  }

  // ---- One operation of either store ----

  datatype Op =
    | Enqueue(owner: string, repo: string, id: string, now: int)
    | Claim
    | SetStatus(id: string, status: Status)
    | Get(id: string)
    | ListAll
    | ListByRepo(owner: string, repo: string)

  datatype Reply = One(run: Option<Run>) | Known(known: bool) | Many(runs: seq<Run>)

  datatype Mesh = Mesh(events: seq<Run>, keys: set<string>)

  /** What the list-backed store does and answers: a claim takes some oldest queued run,
      the first of them. */
  ghost predicate MemStep(runs: seq<Run>, op: Op, after: seq<Run>, reply: Reply) {
    match op
    case Enqueue(owner, repo, id, now) =>
      var run := Run(id, owner, repo, Queued, now);
      after == runs + [run] && reply == One(Some(run))
    case Claim =>
      (!AnyQueued(runs) && after == runs && reply == One(None))
      || exists i: nat :: IsOldestQueued(runs, i)
           && after == runs[i := runs[i].(status := Running)] && reply == One(Some(after[i]))
    case SetStatus(id, status) => after == SetFirst(runs, id, status) && reply == Known(Find(runs, id).Some?)
    case Get(id) => after == runs && reply == One(Find(runs, id))
    case ListAll => after == runs && reply == Many(NewestFirst(runs))
    case ListByRepo(owner, repo) => after == runs && reply == Many(NewestFirst(OfRepo(runs, owner, repo)))
  }

  /** What the event-sourced store does and answers. */
  function MeshStep(m: Mesh, op: Op): (Mesh, Reply) {
    match op
    case Enqueue(owner, repo, id, now) =>
      var run := Run(id, owner, repo, Queued, now);
      (m.(events := m.events + [run]), One(Some(run)))
    case Claim =>
      (match Pick(Candidates(m.events), m.events, m.keys)
       case None => (m, One(None))
       case Some(current) =>
         var running := current.(status := Running);
         (Mesh(m.events + [running], m.keys + {ClaimKey(running.id)}), One(Some(running))))
    case SetStatus(id, status) =>
      (match Latest(m.events, id)
       case None => (m, Known(false))
       case Some(current) => (m.(events := m.events + [current.(status := status)]), Known(true)))
    case Get(id) => (m, One(Latest(m.events, id)))
    case ListAll => (m, Many(Firsts(Limited(AllDocs(m.events), LIST_LIMIT))))
    case ListByRepo(owner, repo) =>
      (m, Many(Firsts(Limited(RepoDocs(m.events, RepoKey(owner, repo)), REPO_LIMIT))))
  }

  /** The same answer, lists compared as collections of runs. */
  ghost predicate SameReply(a: Reply, b: Reply) {
    a == b || (a.Many? && b.Many? && multiset(a.runs) == multiset(b.runs))
  }

  // ---- Basic facts ----

  lemma NewestAppend(events: seq<Run>, e: Run, p: Run -> bool)
    ensures Newest(events + [e], p) == (if p(e) then [e] else []) + Newest(events, p)
  {
    assert (events + [e])[..|events|] == events;
  }

  /** A new document becomes the state of its own run and of no other. */
  lemma LatestAppend(events: seq<Run>, e: Run, id: string)
    ensures Latest(events + [e], id) == if e.id == id then Some(e) else Latest(events, id)
  {
    NewestAppend(events, e, (r: Run) => r.id == id);
  }

  lemma LatestIsOneOf(events: seq<Run>, id: string)
    ensures Latest(events, id).Some? ==> Latest(events, id).value in events && Latest(events, id).value.id == id
    ensures Latest(events, id).Some? <==> Mentions(events, id)
  {
    var docs := Newest(events, (r: Run) => r.id == id);
    if docs != [] {
      assert docs[0] in docs;
    }
    if Mentions(events, id) {
      var i :| 0 <= i < |events| && events[i].id == id;
      assert events[i] in docs;
    }
  }

  lemma FirstsAppend(docs: seq<Run>, e: Run)
    ensures Firsts(docs + [e]) == if Mentions(docs, e.id) then Firsts(docs) else Firsts(docs) + [e]
  {
    assert (docs + [e])[..|docs|] == docs;
  }

  /** Folding to one document per run keeps every run, each once. */
  lemma {:induction false} FirstsOnce(docs: seq<Run>)
    ensures forall e :: e in Firsts(docs) ==> e in docs
    ensures forall id :: Mentions(Firsts(docs), id) <==> Mentions(docs, id)
    ensures DistinctIds(Firsts(docs))
  {
    if docs != [] {
      var init, last := docs[..|docs| - 1], docs[|docs| - 1];
      assert docs == init + [last];
      FirstsOnce(init);
      FirstsAppend(init, last);
      forall id
        ensures Mentions(Firsts(docs), id) <==> Mentions(docs, id)
      {
        MentionsAppend(init, last, id);
        MentionsAppend(Firsts(init), last, id);
      }
      if !Mentions(init, last.id) {
        assert !Mentions(Firsts(init), last.id);
      }
    }
  }
}
