/** The event-sourced store gives the answers of the in-memory store. */
module RunRefinement {
  import opened Options
  import opened Sorting
  import opened RunModel

  // ---- When the stores are asked to agree ----

  /** No two different repositories of the store share the query key. */
  ghost predicate Unambiguous(runs: seq<Run>, owner: string, repo: string) {
    forall r :: r in runs && RepoKey(r.owner, r.repo) == RepoKey(owner, repo) ==> r.owner == owner && r.repo == repo
  }

  /** Ids are fresh, clocks do not run backwards, queries stay within their limits,
      and a claimed run is not set back to Queued. */
  ghost predicate Admissible(runs: seq<Run>, m: Mesh, op: Op) {
    match op
    case Enqueue(_, _, id, now) => !Mentions(runs, id) && forall r :: r in runs ==> r.createdAt <= now
    case Claim => |QueuedDocs(m.events)| <= 100
    case SetStatus(id, status) => status == Queued ==> ClaimKey(id) !in m.keys
    case Get(_) => true
    case ListAll => |m.events| <= 1000
    case ListByRepo(owner, repo) =>
      |RepoDocs(m.events, RepoKey(owner, repo))| <= 500 && Unambiguous(runs, owner, repo)
  }

  // ---- The relation between the two contents ----

  /** The documents tell of the same runs, in the same states and the same order. */
  ghost predicate Tracked(runs: seq<Run>, m: Mesh) {
    && DistinctIds(runs)
    && InCreationOrder(runs)
    && Tracks(runs, m.events)
    && Covers(runs, m.events)
    && SameOrder(runs, m.events)
    && SameRepos(runs, m.events)
  }

  /** Besides, no queued run has its claim key taken. */
  ghost predicate Related(runs: seq<Run>, m: Mesh) {
    Tracked(runs, m) && QueuedUnclaimed(runs, m.keys)
  }

  ghost predicate InCreationOrder(runs: seq<Run>) {
    forall i, j :: 0 <= i < j < |runs| ==> runs[i].createdAt <= runs[j].createdAt
  }

  ghost predicate Tracks(runs: seq<Run>, events: seq<Run>) {
    forall r :: r in runs ==> Latest(events, r.id) == Some(r)
  }

  ghost predicate Covers(runs: seq<Run>, events: seq<Run>) {
    forall id :: Mentions(events, id) ==> Mentions(runs, id)
  }

  ghost predicate QueuedUnclaimed(runs: seq<Run>, keys: set<string>) {
    forall r :: r in runs && r.status == Queued ==> ClaimKey(r.id) !in keys
  }

  ghost predicate SameRepos(runs: seq<Run>, events: seq<Run>) {
    forall r, e :: r in runs && e in events && r.id == e.id ==> r.owner == e.owner && r.repo == e.repo
  }

  /** Runs were enqueued in list order: the first document of each is its Queued one. */
  ghost predicate SameOrder(runs: seq<Run>, events: seq<Run>) {
    && |Firsts(events)| == |runs|
    && forall i :: 0 <= i < |runs| ==> Firsts(events)[i].id == runs[i].id && Firsts(events)[i].status == Queued
  }

  lemma {:induction false} FindDistinct(runs: seq<Run>, id: string)
    ensures Find(runs, id).Some? <==> Mentions(runs, id)
    ensures Find(runs, id).Some? ==> Find(runs, id).value in runs && Find(runs, id).value.id == id
  {
    if runs != [] {
      FindDistinct(runs[1..], id);
      if Mentions(runs[1..], id) {
        var i :| 0 <= i < |runs[1..]| && runs[1..][i].id == id;
        assert runs[i + 1].id == id;
      }
      if Mentions(runs, id) && runs[0].id != id {
        var i :| 0 <= i < |runs| && runs[i].id == id;
        assert runs[1..][i - 1].id == id;
      }
    }
  }

  /** Both stores look a run up alike. */
  lemma GetAgrees(runs: seq<Run>, m: Mesh, id: string)
    requires Tracked(runs, m)
    ensures Find(runs, id) == Latest(m.events, id)
  {
    FindDistinct(runs, id);
    LatestIsOneOf(m.events, id);
  }

  // ---- Claiming ----

  lemma {:induction false} QueuedDocsInOrder(events: seq<Run>)
    ensures Reverse(QueuedDocs(events)) == OldestQueuedDocs(events)
  {
    if events != [] {
      var init, last := events[..|events| - 1], events[|events| - 1];
      QueuedDocsInOrder(init);
      assert events == init + [last];
      NewestAppend(init, last, (r: Run) => r.status == Queued);
      if last.status == Queued {
        assert QueuedDocs(events)[1..] == QueuedDocs(init);
      } else {
        assert QueuedDocs(events) == QueuedDocs(init);
      }
    }
  }

  function OldestQueuedDocs(events: seq<Run>): seq<Run> {
    if events == [] then []
    else OldestQueuedDocs(events[..|events| - 1])
         + if events[|events| - 1].status == Queued then [events[|events| - 1]] else []
  }

  lemma {:induction false} PickAppend(candidates: seq<Run>, e: Run, events: seq<Run>, keys: set<string>)
    ensures Pick(candidates + [e], events, keys)
            == if Pick(candidates, events, keys).Some? then Pick(candidates, events, keys)
               else if Claimable(events, keys, e.id) then Latest(events, e.id) else None
  {
    if candidates == [] {
      assert candidates + [e] == [e];
    } else {
      assert (candidates + [e])[1..] == candidates[1..] + [e];
      PickAppend(candidates[1..], e, events, keys);
    }
  }

  lemma {:induction false} PickNone(candidates: seq<Run>, events: seq<Run>, keys: set<string>, id: string)
    requires Pick(candidates, events, keys).None? && Mentions(candidates, id)
    ensures !Claimable(events, keys, id)
  {
    var i :| 0 <= i < |candidates| && candidates[i].id == id;
    if i > 0 {
      assert candidates[1..][i - 1].id == id;
      PickNone(candidates[1..], events, keys, id);
    }
  }

  lemma OldestQueuedAppend(docs: seq<Run>, e: Run)
    ensures OldestQueuedDocs(docs + [e]) == OldestQueuedDocs(docs) + if e.status == Queued then [e] else []
  {
    assert (docs + [e])[..|docs|] == docs;
  }

  /** One more document keeps the two scans together: either it is the first of its
      run, or its run has been considered before. */
  lemma PickOneMore(docs: seq<Run>, e: Run, events: seq<Run>, keys: set<string>)
    requires Pick(OldestQueuedDocs(docs), events, keys) == Pick(Firsts(docs), events, keys)
    requires Mentions(docs, e.id) || e.status == Queued
    ensures Pick(OldestQueuedDocs(docs + [e]), events, keys) == Pick(Firsts(docs + [e]), events, keys)
  {
    OldestQueuedAppend(docs, e);
    FirstsAppend(docs, e);
    assert OldestQueuedDocs(docs) + [] == OldestQueuedDocs(docs);
    if e.status == Queued {
      PickAppend(OldestQueuedDocs(docs), e, events, keys);
    }
    if !Mentions(docs, e.id) {
      PickAppend(Firsts(docs), e, events, keys);
    } else if Pick(Firsts(docs), events, keys).None? {
      FirstsOnce(docs);
      PickNone(Firsts(docs), events, keys, e.id);
    }
  }

  /** Scanning all Queued documents picks what scanning the first document of each
      run would: later Queued documents of a run change nothing. */
  lemma {:induction false} PickOverFirsts(docs: seq<Run>, events: seq<Run>, keys: set<string>)
    requires forall i :: 0 <= i < |Firsts(docs)| ==> Firsts(docs)[i].status == Queued
    ensures Pick(OldestQueuedDocs(docs), events, keys) == Pick(Firsts(docs), events, keys)
  {
    if docs != [] {
      var init, last := docs[..|docs| - 1], docs[|docs| - 1];
      assert docs == init + [last];
      FirstsAppend(init, last);
      forall i | 0 <= i < |Firsts(init)|
        ensures Firsts(init)[i].status == Queued
      {
        assert Firsts(docs)[i] == Firsts(init)[i];
      }
      PickOverFirsts(init, events, keys);
      assert !Mentions(init, last.id) ==> Firsts(docs)[|Firsts(init)|] == last;
      PickOneMore(init, last, events, keys);
    }
  }

  lemma {:induction false} PickIndex(firsts: seq<Run>, events: seq<Run>, keys: set<string>, i: nat)
    requires i < |firsts| && Claimable(events, keys, firsts[i].id)
    requires forall j :: 0 <= j < i ==> !Claimable(events, keys, firsts[j].id)
    ensures Pick(firsts, events, keys) == Latest(events, firsts[i].id)
  {
    if i > 0 {
      PickIndex(firsts[1..], events, keys, i - 1);
    }
  }

  /** A run can be claimed when it is queued and nobody took its key. */
  predicate Free(r: Run, keys: set<string>) {
    r.status == Queued && ClaimKey(r.id) !in keys
  }

  lemma ClaimableMeansFree(runs: seq<Run>, m: Mesh, i: nat)
    requires Tracked(runs, m) && i < |runs|
    ensures Claimable(m.events, m.keys, runs[i].id) <==> Free(runs[i], m.keys)
    ensures Latest(m.events, runs[i].id) == Some(runs[i])
  {
    assert runs[i] in runs;
  }

  lemma MeshPick(runs: seq<Run>, m: Mesh)
    requires Tracked(runs, m) && |QueuedDocs(m.events)| <= CLAIM_LIMIT
    ensures Pick(Candidates(m.events), m.events, m.keys) == Pick(Firsts(m.events), m.events, m.keys)
  {
    QueuedDocsInOrder(m.events);
    PickOverFirsts(m.events, m.events, m.keys);
  }

  /** Nothing before the oldest queued run is queued. */
  lemma OldestComesFirst(runs: seq<Run>, i: nat, j: nat)
    requires InCreationOrder(runs) && IsOldestQueued(runs, i) && j < i
    ensures runs[j].status != Queued
  {
  }

  /** Within the claim limit the store that scans documents claims the run the list store
      claims, provided its key is free. */
  lemma ClaimAgrees(runs: seq<Run>, m: Mesh, i: nat)
    requires Tracked(runs, m) && |QueuedDocs(m.events)| <= CLAIM_LIMIT
    requires IsOldestQueued(runs, i) && Free(runs[i], m.keys)
    ensures Pick(Candidates(m.events), m.events, m.keys) == Some(runs[i])
  {
    MeshPick(runs, m);
    forall j: nat | j <= i
      ensures Claimable(m.events, m.keys, Firsts(m.events)[j].id) <==> j == i
    {
      ClaimableMeansFree(runs, m, j);
      if j < i {
        OldestComesFirst(runs, i, j);
      }
    }
    PickIndex(Firsts(m.events), m.events, m.keys, i);
    ClaimableMeansFree(runs, m, i);
  }

  lemma {:induction false} NothingToPick(candidates: seq<Run>, events: seq<Run>, keys: set<string>)
    requires forall c :: c in candidates ==> !Claimable(events, keys, c.id)
    ensures Pick(candidates, events, keys).None?
  {
    if candidates != [] {
      NothingToPick(candidates[1..], events, keys);
    }
  }

  /** Where nothing is queued no document leads to a claim, limit or not. */
  lemma NoClaimAgrees(runs: seq<Run>, m: Mesh)
    requires Tracked(runs, m) && !AnyQueued(runs)
    ensures Pick(Candidates(m.events), m.events, m.keys).None?
  {
    forall c | c in Candidates(m.events)
      ensures !Claimable(m.events, m.keys, c.id)
    {
      CandidateIsRun(runs, m, c);
      var k :| 0 <= k < |runs| && runs[k].id == c.id;
      ClaimableMeansFree(runs, m, k);
    }
    NothingToPick(Candidates(m.events), m.events, m.keys);
  }

  lemma CandidateIsRun(runs: seq<Run>, m: Mesh, c: Run)
    requires Tracked(runs, m) && c in Candidates(m.events)
    ensures Mentions(runs, c.id)
  {
    var window := Limited(QueuedDocs(m.events), CLAIM_LIMIT);
    var k :| 0 <= k < |window| && Reverse(window)[k] == c;
    assert window[|window| - 1 - k] in QueuedDocs(m.events);
    assert c in m.events;
    var j :| 0 <= j < |m.events| && m.events[j] == c;
    assert Mentions(m.events, c.id);
  }

  // ---- Listing ----

  lemma {:induction false} FirstsArePicked(docs: seq<Run>, e: Run)
    requires e in Firsts(docs)
    ensures exists i :: 0 <= i < |docs| && docs[i] == e && !Mentions(docs[..i], e.id)
  {
    var init, last := docs[..|docs| - 1], docs[|docs| - 1];
    assert docs == init + [last];
    if e in Firsts(init) {
      FirstsArePicked(init, e);
      var i :| 0 <= i < |init| && init[i] == e && !Mentions(init[..i], e.id);
      assert docs[..i] == init[..i] && docs[i] == e;
    } else {
      assert docs[|init|] == e && docs[..|init|] == init;
    }
  }

  ghost predicate FiltersRuns(events: seq<Run>, p: Run -> bool) {
    forall e, f :: e in events && f in events && e.id == f.id ==> p(e) == p(f)
  }

  ghost predicate FirstMention(docs: seq<Run>, i: nat) {
    i < |docs| && !Mentions(docs[..i], docs[i].id)
  }

  lemma FirstMentionTail(e: Run, docs: seq<Run>, i: nat)
    requires i > 0 && FirstMention([e] + docs, i)
    ensures FirstMention(docs, i - 1) && docs[i - 1].id != e.id
  {
    assert ([e] + docs)[..i] == [e] + docs[..i - 1];
    MentionsCons(e, docs[..i - 1], docs[i - 1].id);
  }

  lemma SkippedIsAnotherRun(events: seq<Run>, p: Run -> bool, e: Run, skipped: Run)
    requires FiltersRuns(events, p) && e in events && skipped in events && p(e) && !p(skipped)
    ensures e.id != skipped.id
  {
  }

  lemma FiltersFewer(init: seq<Run>, last: Run, p: Run -> bool)
    requires FiltersRuns(init + [last], p)
    ensures FiltersRuns(init, p)
  {
    assert forall e :: e in init ==> e in init + [last];
  }

  /** In a newest-first query whose filter depends only on the run, the first
      document of a run is its latest one. */
  lemma {:induction false} NewestIsLatest(events: seq<Run>, p: Run -> bool, i: nat)
    requires FiltersRuns(events, p) && FirstMention(Newest(events, p), i)
    ensures Latest(events, Newest(events, p)[i].id) == Some(Newest(events, p)[i])
  {
    var docs := Newest(events, p);
    var init, last, e := events[..|events| - 1], events[|events| - 1], docs[i];
    assert events == init + [last];
    FiltersFewer(init, last, p);
    NewestAppend(init, last, p);
    LatestAppend(init, last, e.id);
    if !p(last) {
      assert docs == Newest(init, p);
      assert e in docs;
      SkippedIsAnotherRun(events, p, e, last);
      NewestIsLatest(init, p, i);
    } else if i > 0 {
      FirstMentionTail(last, Newest(init, p), i);
      NewestIsLatest(init, p, i - 1);
    }
  }

  lemma MentionsCons(e: Run, docs: seq<Run>, id: string)
    ensures Mentions([e] + docs, id) <==> e.id == id || Mentions(docs, id)
  {
    if Mentions(docs, id) {
      var k :| 0 <= k < |docs| && docs[k].id == id;
      assert ([e] + docs)[k + 1].id == id;
    }
    if e.id == id {
      assert ([e] + docs)[0].id == id;
    }
  }

  /** In the newest part of a query, the first document of a run is its latest one. */
  lemma WindowIsLatest(events: seq<Run>, p: Run -> bool, limit: nat, i: nat)
    requires FiltersRuns(events, p) && FirstMention(Limited(Newest(events, p), limit), i)
    ensures Latest(events, Limited(Newest(events, p), limit)[i].id) == Some(Limited(Newest(events, p), limit)[i])
  {
    assert Limited(Newest(events, p), limit)[..i] == Newest(events, p)[..i];
    NewestIsLatest(events, p, i);
  }

  /** A limited listing shows the runs its window mentions, each once, in its current
      state. */
  lemma ListedRuns(runs: seq<Run>, m: Mesh, p: Run -> bool, limit: nat)
    requires Tracked(runs, m)
    requires forall e, r :: e in m.events && r in runs && e.id == r.id ==> p(e) == p(r)
    ensures var window := Limited(Newest(m.events, p), limit);
            DistinctIds(Firsts(window)) && forall r :: r in Firsts(window) <==> r in runs && Mentions(window, r.id)
  {
    var window := Limited(Newest(m.events, p), limit);
    FirstsOnce(window);
    SameRunSameFilter(runs, m, p);
    forall r | r in Firsts(window)
      ensures r in runs && Mentions(window, r.id)
    {
      FirstsArePicked(window, r);
      var i :| 0 <= i < |window| && window[i] == r && !Mentions(window[..i], r.id);
      WindowIsLatest(m.events, p, limit, i);
      assert window[i] in Newest(m.events, p);
      RunOfEvent(runs, m, r);
    }
    forall r | r in runs && Mentions(window, r.id)
      ensures r in Firsts(window)
    {
      var k :| 0 <= k < |Firsts(window)| && Firsts(window)[k].id == r.id;
      var f := Firsts(window)[k];
      assert f in Firsts(window);
      FirstsArePicked(window, f);
      var j :| 0 <= j < |window| && window[j] == f && !Mentions(window[..j], f.id);
      WindowIsLatest(m.events, p, limit, j);
    }
  }

  /** Within the limit the window mentions every run the filter selects. */
  lemma WholeWindow(runs: seq<Run>, m: Mesh, p: Run -> bool, limit: nat, r: Run)
    requires Tracked(runs, m) && r in runs && |Newest(m.events, p)| <= limit
    requires forall e, r :: e in m.events && r in runs && e.id == r.id ==> p(e) == p(r)
    ensures Mentions(Limited(Newest(m.events, p), limit), r.id) <==> p(r)
  {
    var docs := Newest(m.events, p);
    LatestIsOneOf(m.events, r.id);
    if p(r) {
      assert r in docs;
      var k :| 0 <= k < |docs| && docs[k] == r;
    }
    if Mentions(docs, r.id) {
      var k :| 0 <= k < |docs| && docs[k].id == r.id;
      assert docs[k] in docs;
    }
  }

  lemma RunOfEvent(runs: seq<Run>, m: Mesh, e: Run)
    requires Tracked(runs, m) && e in m.events
    ensures exists r :: r in runs && r.id == e.id && Latest(m.events, e.id) == Some(r)
  {
    var i :| 0 <= i < |m.events| && m.events[i] == e;
    assert Mentions(m.events, e.id);
    var k :| 0 <= k < |runs| && runs[k].id == e.id;
    assert runs[k] in runs;
  }

  lemma SameRunSameFilter(runs: seq<Run>, m: Mesh, p: Run -> bool)
    requires Tracked(runs, m)
    requires forall e, r :: e in m.events && r in runs && e.id == r.id ==> p(e) == p(r)
    ensures FiltersRuns(m.events, p)
  {
    forall e, f | e in m.events && f in m.events && e.id == f.id
      ensures p(e) == p(f)
    {
      RunOfEvent(runs, m, e);
      var r :| r in runs && r.id == e.id;
      assert p(e) == p(r) == p(f);
    }
  }

  lemma {:induction false} SameRunsSameMultiset(a: seq<Run>, b: seq<Run>)
    requires DistinctIds(a) && DistinctIds(b) && forall r :: r in a <==> r in b
    ensures multiset(a) == multiset(b)
  {
    forall r
      ensures multiset(a)[r] == multiset(b)[r]
    {
      OnceEach(a, r);
      OnceEach(b, r);
    }
  }

  lemma {:induction false} OnceEach(a: seq<Run>, r: Run)
    requires DistinctIds(a)
    ensures multiset(a)[r] == if r in a then 1 else 0
  {
    if a != [] {
      assert a == [a[0]] + a[1..];
      OnceEach(a[1..], r);
    }
  }

  /** A limited listing shows just the selected runs exactly when its window mentions
      those and no others. */
  lemma ListAgreesIff(runs: seq<Run>, m: Mesh, p: Run -> bool, limit: nat, selected: seq<Run>)
    requires Tracked(runs, m)
    requires forall e, r :: e in m.events && r in runs && e.id == r.id ==> p(e) == p(r)
    requires DistinctIds(selected) && forall r :: r in selected ==> r in runs
    ensures multiset(NewestFirst(selected)) == multiset(Firsts(Limited(Newest(m.events, p), limit)))
            <==> forall r :: r in runs ==> (r in selected <==> Mentions(Limited(Newest(m.events, p), limit), r.id))
  {
    var listed := Firsts(Limited(Newest(m.events, p), limit));
    ListedRuns(runs, m, p, limit);
    SortIsSorted(selected, (r: Run) => -r.createdAt);
    if forall r :: r in runs ==> (r in selected <==> Mentions(Limited(Newest(m.events, p), limit), r.id)) {
      SameRunsSameMultiset(selected, listed);
    }
    if multiset(selected) == multiset(listed) {
      forall r | r in runs
        ensures r in selected <==> r in listed
      {
        SameElements(selected, listed, r);
      }
    }
  }

  lemma {:induction false} OfRepoDistinct(runs: seq<Run>, owner: string, repo: string)
    requires DistinctIds(runs)
    ensures DistinctIds(OfRepo(runs, owner, repo))
  {
    if runs != [] {
      OfRepoDistinct(runs[1..], owner, repo);
      var rest := OfRepo(runs[1..], owner, repo);
      assert forall i :: 0 <= i < |rest| ==> rest[i] in rest;
    }
  }

  /** Listing everything agrees exactly when the newest documents mention every run. */
  lemma ListAllAgreesIff(runs: seq<Run>, m: Mesh)
    requires Tracked(runs, m)
    ensures multiset(NewestFirst(runs)) == multiset(Firsts(Limited(AllDocs(m.events), LIST_LIMIT)))
            <==> forall r :: r in runs ==> Mentions(Limited(AllDocs(m.events), LIST_LIMIT), r.id)
  {
    ListAgreesIff(runs, m, (r: Run) => true, LIST_LIMIT, runs);
  }

  /** Listing a repository agrees exactly when the newest documents under its key mention
      all of its runs and no other repository's. */
  lemma ListByRepoAgreesIff(runs: seq<Run>, m: Mesh, owner: string, repo: string)
    requires Tracked(runs, m)
    ensures multiset(NewestFirst(OfRepo(runs, owner, repo)))
            == multiset(Firsts(Limited(RepoDocs(m.events, RepoKey(owner, repo)), REPO_LIMIT)))
            <==> forall r :: r in runs ==>
                   (r.owner == owner && r.repo == repo
                    <==> Mentions(Limited(RepoDocs(m.events, RepoKey(owner, repo)), REPO_LIMIT), r.id))
  {
    OfRepoDistinct(runs, owner, repo);
    ListAgreesIff(runs, m, (r: Run) => RepoKey(r.owner, r.repo) == RepoKey(owner, repo), REPO_LIMIT,
                  OfRepo(runs, owner, repo));
  }

  lemma ListAllAgrees(runs: seq<Run>, m: Mesh)
    requires Tracked(runs, m) && |m.events| <= LIST_LIMIT
    ensures multiset(NewestFirst(runs)) == multiset(Firsts(Limited(AllDocs(m.events), LIST_LIMIT)))
  {
    ListAllAgreesIff(runs, m);
    forall r | r in runs
      ensures Mentions(Limited(AllDocs(m.events), LIST_LIMIT), r.id)
    {
      WholeWindow(runs, m, (x: Run) => true, LIST_LIMIT, r);
    }
  }

  lemma ListByRepoAgrees(runs: seq<Run>, m: Mesh, owner: string, repo: string)
    requires Tracked(runs, m) && Unambiguous(runs, owner, repo)
    requires |RepoDocs(m.events, RepoKey(owner, repo))| <= REPO_LIMIT
    ensures multiset(NewestFirst(OfRepo(runs, owner, repo)))
            == multiset(Firsts(Limited(RepoDocs(m.events, RepoKey(owner, repo)), REPO_LIMIT)))
  {
    ListByRepoAgreesIff(runs, m, owner, repo);
    forall r | r in runs
      ensures RepoKey(r.owner, r.repo) == RepoKey(owner, repo)
              <==> Mentions(Limited(RepoDocs(m.events, RepoKey(owner, repo)), REPO_LIMIT), r.id)
    {
      WholeWindow(runs, m, (x: Run) => RepoKey(x.owner, x.repo) == RepoKey(owner, repo), REPO_LIMIT, r);
    }
  }

  // ---- Steps keep the contents related ----

  /** A fresh run is added to the list and as one more document. */
  lemma EnqueueKeepsTracked(runs: seq<Run>, m: Mesh, run: Run)
    requires Tracked(runs, m) && !Mentions(runs, run.id) && run.status == Queued
    requires forall r :: r in runs ==> r.createdAt <= run.createdAt
    ensures Tracked(runs + [run], m.(events := m.events + [run]))
  {
    EnqueueTracks(runs, m.events, run);
    EnqueueCovers(runs, m.events, run);
    EnqueueSameRepos(runs, m, run);
    EnqueueSameOrder(runs, m.events, run);
    EnqueueLast(runs, run);
  }

  lemma EnqueueLast(runs: seq<Run>, run: Run)
    requires DistinctIds(runs) && InCreationOrder(runs) && !Mentions(runs, run.id)
    requires forall r :: r in runs ==> r.createdAt <= run.createdAt
    ensures DistinctIds(runs + [run]) && InCreationOrder(runs + [run])
  {
    assert forall i :: 0 <= i < |runs| ==> runs[i].id != run.id && runs[i] in runs;
  }

  lemma EnqueueUnclaimed(runs: seq<Run>, keys: set<string>, run: Run)
    requires QueuedUnclaimed(runs, keys) && ClaimKey(run.id) !in keys
    ensures QueuedUnclaimed(runs + [run], keys)
  {
  }

  lemma EnqueueTracks(runs: seq<Run>, events: seq<Run>, run: Run)
    requires Tracks(runs, events) && !Mentions(runs, run.id)
    ensures Tracks(runs + [run], events + [run])
  {
    forall r | r in runs + [run]
      ensures Latest(events + [run], r.id) == Some(r)
    {
      LatestAppend(events, run, r.id);
      if r in runs {
        var i :| 0 <= i < |runs| && runs[i] == r;
        assert r.id != run.id;
      }
    }
  }

  lemma EnqueueCovers(runs: seq<Run>, events: seq<Run>, run: Run)
    requires Covers(runs, events)
    ensures Covers(runs + [run], events + [run])
  {
    forall id | Mentions(events + [run], id)
      ensures Mentions(runs + [run], id)
    {
      MentionsAppend(events, run, id);
      MentionsAppend(runs, run, id);
    }
  }

  lemma EnqueueSameRepos(runs: seq<Run>, m: Mesh, run: Run)
    requires Tracked(runs, m) && !Mentions(runs, run.id)
    ensures SameRepos(runs + [run], m.events + [run])
  {
    forall r, e | r in runs + [run] && e in m.events + [run] && r.id == e.id
      ensures r.owner == e.owner && r.repo == e.repo
    {
      if e in m.events { RunOfEvent(runs, m, e); }
    }
  }

  lemma EnqueueSameOrder(runs: seq<Run>, events: seq<Run>, run: Run)
    requires SameOrder(runs, events) && Covers(runs, events) && !Mentions(runs, run.id) && run.status == Queued
    ensures SameOrder(runs + [run], events + [run])
  {
    FirstsAppend(events, run);
  }

  lemma ClaimKeyInjective(a: string, b: string)
    requires ClaimKey(a) == ClaimKey(b)
    ensures a == b
  {
    assert a == ClaimKey(a)[6..] && b == ClaimKey(b)[6..];
  }

  lemma UpdateTracks(runs: seq<Run>, events: seq<Run>, i: nat, run: Run)
    requires DistinctIds(runs) && Tracks(runs, events) && i < |runs| && run.id == runs[i].id
    ensures Tracks(runs[i := run], events + [run])
  {
    forall r | r in runs[i := run]
      ensures Latest(events + [run], r.id) == Some(r)
    {
      var j :| 0 <= j < |runs| && runs[i := run][j] == r;
      LatestAppend(events, run, r.id);
      assert runs[j] in runs;
    }
  }

  lemma UpdateCovers(runs: seq<Run>, events: seq<Run>, i: nat, run: Run)
    requires Covers(runs, events) && i < |runs| && run.id == runs[i].id
    ensures Covers(runs[i := run], events + [run])
  {
    SameMentions(runs, i, run);
    forall id | Mentions(events + [run], id)
      ensures Mentions(runs[i := run], id)
    {
      MentionsAppend(events, run, id);
      assert runs[i := run][i].id == run.id;
    }
  }

  lemma UpdateUnclaimed(runs: seq<Run>, i: nat, run: Run, before: set<string>, keys: set<string>)
    requires DistinctIds(runs) && QueuedUnclaimed(runs, before) && i < |runs| && run.id == runs[i].id
    requires keys <= before + {ClaimKey(run.id)}
    requires run.status == Queued ==> ClaimKey(run.id) !in keys
    ensures QueuedUnclaimed(runs[i := run], keys)
  {
    forall r | r in runs[i := run] && r.status == Queued
      ensures ClaimKey(r.id) !in keys
    {
      var j :| 0 <= j < |runs| && runs[i := run][j] == r;
      if j != i {
        assert runs[j] in runs;
        if ClaimKey(r.id) == ClaimKey(run.id) {
          ClaimKeyInjective(r.id, run.id);
        }
      }
    }
  }

  lemma UpdateSameRepos(runs: seq<Run>, events: seq<Run>, i: nat, run: Run)
    requires DistinctIds(runs) && SameRepos(runs, events) && i < |runs|
    requires run == runs[i].(status := run.status)
    ensures SameRepos(runs[i := run], events + [run])
  {
    forall r, e | r in runs[i := run] && e in events + [run] && r.id == e.id
      ensures r.owner == e.owner && r.repo == e.repo
    {
      var j :| 0 <= j < |runs| && runs[i := run][j] == r;
      assert runs[j] in runs;
    }
  }

  lemma UpdateSameOrder(runs: seq<Run>, events: seq<Run>, i: nat, run: Run)
    requires Tracks(runs, events) && SameOrder(runs, events) && i < |runs| && run.id == runs[i].id
    ensures SameOrder(runs[i := run], events + [run])
  {
    assert runs[i] in runs;
    LatestIsOneOf(events, run.id);
    FirstsAppend(events, run);
  }

  lemma UpdateCreationOrder(runs: seq<Run>, i: nat, run: Run)
    requires DistinctIds(runs) && InCreationOrder(runs) && i < |runs| && run == runs[i].(status := run.status)
    ensures DistinctIds(runs[i := run]) && InCreationOrder(runs[i := run])
  {
  }

  /** A run changes status in place and as one more document. */
  lemma UpdateKeepsTracked(runs: seq<Run>, m: Mesh, i: nat, run: Run, keys: set<string>)
    requires Tracked(runs, m) && i < |runs| && run == runs[i].(status := run.status)
    ensures Tracked(runs[i := run], Mesh(m.events + [run], keys))
  {
    UpdateTracks(runs, m.events, i, run);
    UpdateCovers(runs, m.events, i, run);
    UpdateSameRepos(runs, m.events, i, run);
    UpdateSameOrder(runs, m.events, i, run);
    UpdateCreationOrder(runs, i, run);
  }

  lemma UpdateKeepsRelated(runs: seq<Run>, m: Mesh, i: nat, run: Run, keys: set<string>)
    requires Related(runs, m) && i < |runs| && run == runs[i].(status := run.status)
    requires keys <= m.keys + {ClaimKey(run.id)}
    requires run.status == Queued ==> ClaimKey(run.id) !in keys
    ensures Related(runs[i := run], Mesh(m.events + [run], keys))
  {
    UpdateKeepsTracked(runs, m, i, run, keys);
    UpdateUnclaimed(runs, i, run, m.keys, keys);
  }

  lemma {:induction false} SetFirstAt(runs: seq<Run>, id: string, status: Status, i: nat)
    requires DistinctIds(runs) && i < |runs| && runs[i].id == id
    ensures SetFirst(runs, id, status) == runs[i := runs[i].(status := status)]
  {
    if i > 0 {
      assert runs[0].id != id;
      SetFirstAt(runs[1..], id, status, i - 1);
      assert runs == [runs[0]] + runs[1..];
    }
  }

  lemma {:induction false} SetFirstMissing(runs: seq<Run>, id: string, status: Status)
    requires !Mentions(runs, id)
    ensures SetFirst(runs, id, status) == runs
  {
    if runs != [] {
      assert runs == [runs[0]] + runs[1..];
      MentionsCons(runs[0], runs[1..], id);
      SetFirstMissing(runs[1..], id, status);
    }
  }

  lemma SetStatusOfRun(runs: seq<Run>, m: Mesh, i: nat, status: Status)
    requires Tracked(runs, m) && i < |runs|
    ensures MeshStep(m, SetStatus(runs[i].id, status))
            == (m.(events := m.events + [runs[i].(status := status)]), Known(true))
    ensures Tracked(runs[i := runs[i].(status := status)], MeshStep(m, SetStatus(runs[i].id, status)).0)
  {
    assert runs[i] in runs;
    UpdateKeepsTracked(runs, m, i, runs[i].(status := status), m.keys);
  }

  lemma SetStatusKeepsTracked(runs: seq<Run>, m: Mesh, id: string, status: Status)
    requires Tracked(runs, m)
    ensures MeshStep(m, SetStatus(id, status)).1 == Known(Find(runs, id).Some?)
    ensures Tracked(SetFirst(runs, id, status), MeshStep(m, SetStatus(id, status)).0)
  {
    FindDistinct(runs, id);
    if Mentions(runs, id) {
      var i :| 0 <= i < |runs| && runs[i].id == id;
      SetFirstAt(runs, id, status, i);
      SetStatusOfRun(runs, m, i, status);
    } else {
      SetFirstMissing(runs, id, status);
      LatestIsOneOf(m.events, id);
    }
  }

  lemma SetStatusStep(runs: seq<Run>, m: Mesh, id: string, status: Status)
    requires Related(runs, m) && Admissible(runs, m, SetStatus(id, status))
    ensures MeshStep(m, SetStatus(id, status)).1 == Known(Find(runs, id).Some?)
    ensures Related(SetFirst(runs, id, status), MeshStep(m, SetStatus(id, status)).0)
  {
    SetStatusKeepsTracked(runs, m, id, status);
    GetAgrees(runs, m, id);
    SetStatusUnclaimed(runs, m, id, status);
  }

  lemma SetStatusUnclaimed(runs: seq<Run>, m: Mesh, id: string, status: Status)
    requires Related(runs, m) && Admissible(runs, m, SetStatus(id, status))
    ensures QueuedUnclaimed(SetFirst(runs, id, status), m.keys)
  {
    FindDistinct(runs, id);
    if !Mentions(runs, id) {
      SetFirstMissing(runs, id, status);
    } else {
      var i :| 0 <= i < |runs| && runs[i].id == id;
      SetFirstAt(runs, id, status, i);
      assert runs[i] in runs;
      UpdateUnclaimed(runs, i, runs[i].(status := status), m.keys, m.keys);
    }
  }

  lemma ClaimStep(runs: seq<Run>, m: Mesh, i: nat)
    requires Related(runs, m) && |QueuedDocs(m.events)| <= CLAIM_LIMIT && IsOldestQueued(runs, i)
    ensures MeshStep(m, Claim).1 == One(Some(runs[i].(status := Running)))
    ensures Related(runs[i := runs[i].(status := Running)], MeshStep(m, Claim).0)
  {
    assert runs[i] in runs;
    ClaimAgrees(runs, m, i);
    var running := runs[i].(status := Running);
    UpdateKeepsRelated(runs, m, i, running, m.keys + {ClaimKey(running.id)});
  }

  lemma EnqueueStep(runs: seq<Run>, m: Mesh, run: Run)
    requires Related(runs, m) && KeysOfRuns(runs, m) && !Mentions(runs, run.id) && run.status == Queued
    requires forall r :: r in runs ==> r.createdAt <= run.createdAt
    ensures Related(runs + [run], m.(events := m.events + [run]))
    ensures KeysOfRuns(runs + [run], m.(events := m.events + [run]))
  {
    EnqueueKeepsTracked(runs, m, run);
    EnqueueUnclaimed(runs, m.keys, run);
    forall id | ClaimKey(id) in m.keys
      ensures Mentions(runs + [run], id)
    {
      MentionsAppend(runs, run, id);
    }
  }

  lemma UpdateKeepsKeys(runs: seq<Run>, m: Mesh, i: nat, run: Run, after: Mesh)
    requires KeysOfRuns(runs, m) && i < |runs| && run.id == runs[i].id
    requires after.keys <= m.keys + {ClaimKey(run.id)}
    ensures KeysOfRuns(runs[i := run], after)
  {
    SameMentions(runs, i, run);
    assert runs[i := run][i].id == run.id;
    forall id | ClaimKey(id) in after.keys
      ensures Mentions(runs[i := run], id)
    {
      if ClaimKey(id) == ClaimKey(run.id) {
        ClaimKeyInjective(id, run.id);
      }
    }
  }

  lemma ClaimOpAgrees(runs: seq<Run>, m: Mesh, after: seq<Run>, reply: Reply)
    requires Related(runs, m) && KeysOfRuns(runs, m)
    requires Admissible(runs, m, Claim) && MemStep(runs, Claim, after, reply)
    ensures SameReply(reply, MeshStep(m, Claim).1)
    ensures Related(after, MeshStep(m, Claim).0) && KeysOfRuns(after, MeshStep(m, Claim).0)
  {
    if AnyQueued(runs) {
      var i: nat :| IsOldestQueued(runs, i)
                    && after == runs[i := runs[i].(status := Running)] && reply == One(Some(after[i]));
      ClaimStep(runs, m, i);
      assert runs[i] in runs;
      ClaimAgrees(runs, m, i);
      UpdateKeepsKeys(runs, m, i, after[i], MeshStep(m, Claim).0);
    } else {
      NoClaimAgrees(runs, m);
    }
  }

  lemma SetStatusOpAgrees(runs: seq<Run>, m: Mesh, id: string, status: Status)
    requires Related(runs, m) && KeysOfRuns(runs, m) && Admissible(runs, m, SetStatus(id, status))
    ensures MeshStep(m, SetStatus(id, status)).1 == Known(Find(runs, id).Some?)
    ensures Related(SetFirst(runs, id, status), MeshStep(m, SetStatus(id, status)).0)
    ensures KeysOfRuns(SetFirst(runs, id, status), MeshStep(m, SetStatus(id, status)).0)
  {
    SetStatusStep(runs, m, id, status);
    if !Mentions(runs, id) {
      SetFirstMissing(runs, id, status);
      LatestIsOneOf(m.events, id);
    } else {
      var i :| 0 <= i < |runs| && runs[i].id == id;
      SetFirstAt(runs, id, status, i);
      UpdateKeepsKeys(runs, m, i, runs[i].(status := status), MeshStep(m, SetStatus(id, status)).0);
    }
  }

  /** One operation: equal answers, and the contents stay related. */
  lemma StepAgrees(runs: seq<Run>, m: Mesh, op: Op, after: seq<Run>, reply: Reply)
    requires Related(runs, m) && KeysOfRuns(runs, m)
    requires Admissible(runs, m, op) && MemStep(runs, op, after, reply)
    ensures SameReply(reply, MeshStep(m, op).1)
    ensures Related(after, MeshStep(m, op).0) && KeysOfRuns(after, MeshStep(m, op).0)
  {
    match op
    case Enqueue(owner, repo, id, now) => EnqueueStep(runs, m, Run(id, owner, repo, Queued, now));
    case Claim => ClaimOpAgrees(runs, m, after, reply);
    case SetStatus(id, status) => SetStatusOpAgrees(runs, m, id, status);
    case Get(id) => GetAgrees(runs, m, id);
    case ListAll => ListAllAgrees(runs, m);
    case ListByRepo(owner, repo) => ListByRepoAgrees(runs, m, owner, repo);
  }

  /** Claim keys are taken only for runs of the store. */
  ghost predicate KeysOfRuns(runs: seq<Run>, m: Mesh) {
    forall id :: ClaimKey(id) in m.keys ==> Mentions(runs, id)
  }

  lemma SameMentions(runs: seq<Run>, i: nat, run: Run)
    requires i < |runs| && run.id == runs[i].id
    ensures forall id :: Mentions(runs, id) <==> Mentions(runs[i := run], id)
  {
    var after := runs[i := run];
    forall id
      ensures Mentions(runs, id) <==> Mentions(after, id)
    {
      if Mentions(runs, id) {
        var k :| 0 <= k < |runs| && runs[k].id == id;
        assert after[k].id == id;
      }
      if Mentions(after, id) {
        var k :| 0 <= k < |runs| && after[k].id == id;
        assert runs[k].id == id;
      }
    }
  }

  // ---- Whole histories ----

  ghost predicate HistoryStep(mem: seq<seq<Run>>, mesh: seq<Mesh>, ops: seq<Op>,
                              memReplies: seq<Reply>, meshReplies: seq<Reply>, i: nat)
    requires i < |ops| == |memReplies| == |meshReplies| && |mem| == |mesh| == |ops| + 1
  {
    && MemStep(mem[i], ops[i], mem[i + 1], memReplies[i])
    && (mesh[i + 1], meshReplies[i]) == MeshStep(mesh[i], ops[i])
    && Admissible(mem[i], mesh[i], ops[i])
  }

  ghost predicate IsHistory(mem: seq<seq<Run>>, mesh: seq<Mesh>, ops: seq<Op>,
                            memReplies: seq<Reply>, meshReplies: seq<Reply>) {
    && |ops| == |memReplies| == |meshReplies| && |mem| == |mesh| == |ops| + 1
    && mem[0] == [] && mesh[0] == Mesh([], {})
    && forall i: nat :: i < |ops| ==> HistoryStep(mem, mesh, ops, memReplies, meshReplies, i)
  }

  lemma HistoryStepAgrees(
      mem: seq<seq<Run>>, mesh: seq<Mesh>, ops: seq<Op>,
      memReplies: seq<Reply>, meshReplies: seq<Reply>, i: nat)
    requires i < |ops| == |memReplies| == |meshReplies| && |mem| == |mesh| == |ops| + 1
    requires HistoryStep(mem, mesh, ops, memReplies, meshReplies, i)
    requires Related(mem[i], mesh[i]) && KeysOfRuns(mem[i], mesh[i])
    ensures SameReply(memReplies[i], meshReplies[i])
    ensures Related(mem[i + 1], mesh[i + 1]) && KeysOfRuns(mem[i + 1], mesh[i + 1])
  {
    StepAgrees(mem[i], mesh[i], ops[i], mem[i + 1], memReplies[i]);
  }

  lemma {:induction false} HistoryStaysRelated(
      mem: seq<seq<Run>>, mesh: seq<Mesh>, ops: seq<Op>,
      memReplies: seq<Reply>, meshReplies: seq<Reply>, i: nat)
    requires IsHistory(mem, mesh, ops, memReplies, meshReplies) && i <= |ops|
    ensures Related(mem[i], mesh[i]) && KeysOfRuns(mem[i], mesh[i])
  {
    if i > 0 {
      HistoryStaysRelated(mem, mesh, ops, memReplies, meshReplies, i - 1);
      HistoryStepAgrees(mem, mesh, ops, memReplies, meshReplies, i - 1);
    }
  }

  /** Over every admissible sequential history the two stores answer every
      operation alike. */
  lemma StoresAgree(mem: seq<seq<Run>>, mesh: seq<Mesh>, ops: seq<Op>,
                    memReplies: seq<Reply>, meshReplies: seq<Reply>)
    requires IsHistory(mem, mesh, ops, memReplies, meshReplies)
    ensures forall i :: 0 <= i < |ops| ==> SameReply(memReplies[i], meshReplies[i])
  {
    forall i: nat | i < |ops|
      ensures SameReply(memReplies[i], meshReplies[i])
    {
      HistoryStaysRelated(mem, mesh, ops, memReplies, meshReplies, i);
      HistoryStepAgrees(mem, mesh, ops, memReplies, meshReplies, i);
    }
  }
}
