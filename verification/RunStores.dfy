/** The two run stores, updated in place: each method is one step of RunModel. */
module RunStores {
  import opened Options
  import opened RunModel
  import opened Sorting

  lemma CutAt<T>(s: seq<T>, i: nat, x: T)
    requires i < |s|
    ensures s[i..] == [s[i]] + s[i + 1..] && s[..i + 1] == s[..i] + [s[i]]
    ensures s[i := x] == s[..i] + ([x] + s[i + 1..])
  {
  }

  lemma Associates<T>(a: seq<T>, b: seq<T>, c: seq<T>)
    ensures a + (b + c) == (a + b) + c
  {
  }

  /** The search for a run by id, one run further on. */
  lemma SetFirstFrom(runs: seq<Run>, i: nat, id: string, status: Status)
    requires i < |runs|
    requires SetFirst(runs, id, status) == runs[..i] + SetFirst(runs[i..], id, status)
    ensures SetFirst(runs, id, status)
            == if runs[i].id == id then runs[i := runs[i].(status := status)]
               else runs[..i + 1] + SetFirst(runs[i + 1..], id, status)
  {
    assert runs[i..][1..] == runs[i + 1..];
    CutAt(runs, i, runs[i].(status := status));
    Associates(runs[..i], [runs[i]], SetFirst(runs[i + 1..], id, status));
  }

  lemma FindFrom(runs: seq<Run>, i: nat, id: string)
    requires i < |runs|
    ensures Find(runs[i..], id) == if runs[i].id == id then Some(runs[i]) else Find(runs[i + 1..], id)
  {
    assert runs[i..][1..] == runs[i + 1..];
  }

  lemma PickFrom(candidates: seq<Run>, i: nat, events: seq<Run>, keys: set<string>)
    requires i < |candidates|
    ensures Pick(candidates[i..], events, keys)
            == if Claimable(events, keys, candidates[i].id) then Latest(events, candidates[i].id)
               else Pick(candidates[i + 1..], events, keys)
  {
    assert candidates[i..][1..] == candidates[i + 1..];
  }

  lemma OneMoreMentioned(docs: seq<Run>, e: Run)
    ensures forall id :: Mentions(docs + [e], id) <==> Mentions(docs, id) || e.id == id
  {
    forall id { MentionsAppend(docs, e, id); }
  }

  ghost predicate LatestFirst(runs: seq<Run>) {
    forall i, j :: 0 <= i < j < |runs| ==> runs[i].createdAt >= runs[j].createdAt
  }

  lemma ListIsLatestFirst(runs: seq<Run>)
    ensures LatestFirst(NewestFirst(runs)) && multiset(NewestFirst(runs)) == multiset(runs)
    ensures forall r :: r in NewestFirst(runs) <==> r in runs
  {
    var key := (r: Run) => -r.createdAt;
    SortIsSorted(runs, key);
    var out := SortByKey(runs, key);
    assert NewestFirst(runs) == out;
    assert forall i, j :: 0 <= i < j < |out| ==> key(out[i]) <= key(out[j]);
    forall r { SortMember(runs, key, r); }
  }

  class InMemoryRunStore {
    var runs: seq<Run>

    constructor ()
      ensures runs == []
    {
      runs := [];
    }

    method Enqueue(owner: string, repo: string, id: string, now: int) returns (run: Run)
      modifies this
      ensures MemStep(old(runs), Op.Enqueue(owner, repo, id, now), runs, One(Some(run)))
    {
      run := Run(id, owner, repo, Queued, now);
      runs := runs + [run];
    }

    method ListByRepo(owner: string, repo: string) returns (out: seq<Run>)
      ensures MemStep(runs, Op.ListByRepo(owner, repo), runs, Many(out))
      ensures LatestFirst(out) && forall r :: r in out <==> r in runs && r.owner == owner && r.repo == repo
    {
      ListIsLatestFirst(OfRepo(runs, owner, repo));
      out := SortByKey(OfRepo(runs, owner, repo), (r: Run) => -r.createdAt);
    }

    method ListAll() returns (out: seq<Run>)
      ensures MemStep(runs, Op.ListAll, runs, Many(out))
      ensures LatestFirst(out) && multiset(out) == multiset(runs)
    {
      ListIsLatestFirst(runs);
      out := SortByKey(runs, (r: Run) => -r.createdAt);
    }

    method Get(id: string) returns (run: Option<Run>)
      ensures MemStep(runs, Op.Get(id), runs, One(run))
    {
      for i := 0 to |runs|
        invariant Find(runs, id) == Find(runs[i..], id)
      {
        if runs[i].id == id {
          return Some(runs[i]);
        }
      }
      run := None;
    }

    /** Marks the oldest queued run as running; None exactly when nothing is queued. */
    method ClaimNextQueued() returns (run: Option<Run>)
      modifies this
      ensures run.None? <==> !AnyQueued(old(runs))
      ensures MemStep(old(runs), Claim, runs, One(run))
    {
      var best: Option<nat> := None;
      for i := 0 to |runs|
        invariant best.None? ==> forall j :: 0 <= j < i ==> runs[j].status != Queued
        invariant best.Some? ==> best.value < i && IsOldestQueued(runs[..i], best.value)
      {
        assert runs[..i + 1] == runs[..i] + [runs[i]];
        if runs[i].status == Queued && (best.None? || runs[i].createdAt < runs[best.value].createdAt) {
          best := Some(i);
        }
      }
      assert runs[..|runs|] == runs;
      if best.None? {
        return None;
      }
      var i := best.value;
      assert IsOldestQueued(runs, i);
      runs := runs[i := runs[i].(status := Running)];
      run := Some(runs[i]);
    }

    method SetStatus(id: string, status: Status) returns (known: bool)
      modifies this
      ensures MemStep(old(runs), Op.SetStatus(id, status), runs, Known(known))
    {
      for i := 0 to |runs|
        invariant runs == old(runs)
        invariant Find(runs, id) == Find(runs[i..], id)
        invariant SetFirst(runs, id, status) == runs[..i] + SetFirst(runs[i..], id, status)
      {
        SetFirstFrom(runs, i, id, status);
        FindFrom(runs, i, id);
        if runs[i].id == id {
          runs := runs[i := runs[i].(status := status)];
          return true;
        }
      }
      known := false;
    }
  }

  class DataMeshRunStore {
    var events: seq<Run>
    var keys: set<string>

    ghost function Value(): Mesh
      reads this
    {
      Mesh(events, keys)
    }

    constructor ()
      ensures events == [] && keys == {}
    {
      events, keys := [], {};
    }

    method Append(run: Run)
      modifies this`events
      ensures events == old(events) + [run]
    {
      events := events + [run];
    }

    /** A keyed create: the first one under a key stores the document, every later
        one is answered `exists` and changes nothing. */
    method CreateIdempotent(key: string, run: Run) returns (existed: bool)
      modifies this
      ensures existed == (key in old(keys))
      ensures keys == old(keys) + {key}
      ensures events == if existed then old(events) else old(events) + [run]
    {
      existed := key in keys;
      if !existed {
        keys := keys + {key};
        events := events + [run];
      }
    }

    method Enqueue(owner: string, repo: string, id: string, now: int) returns (run: Run)
      modifies this`events
      ensures (Value(), One(Some(run))) == MeshStep(old(Value()), Op.Enqueue(owner, repo, id, now))
    {
      run := Run(id, owner, repo, Queued, now);
      Append(run);
    }

    method Get(id: string) returns (run: Option<Run>)
      ensures (Value(), One(run)) == MeshStep(Value(), Op.Get(id))
    {
      var docs := Limited(Newest(events, (r: Run) => r.id == id), 1);
      run := if docs == [] then None else Some(docs[0]);
    }

    method ListDocs(docs: seq<Run>) returns (out: seq<Run>)
      ensures out == Firsts(docs)
    {
      var seen: set<string> := {};
      out := [];
      for i := 0 to |docs|
        invariant out == Firsts(docs[..i])
        invariant forall id :: id in seen <==> Mentions(docs[..i], id)
      {
        assert docs[..i + 1] == docs[..i] + [docs[i]];
        FirstsAppend(docs[..i], docs[i]);
        OneMoreMentioned(docs[..i], docs[i]);
        if docs[i].id !in seen {
          seen := seen + {docs[i].id};
          out := out + [docs[i]];
        }
      }
      assert docs[..|docs|] == docs;
    }

    method ListByRepo(owner: string, repo: string) returns (out: seq<Run>)
      ensures (Value(), Many(out)) == MeshStep(Value(), Op.ListByRepo(owner, repo))
    {
      out := ListDocs(Limited(RepoDocs(events, RepoKey(owner, repo)), REPO_LIMIT));
    }

    method ListAll() returns (out: seq<Run>)
      ensures (Value(), Many(out)) == MeshStep(Value(), Op.ListAll)
    {
      out := ListDocs(Limited(AllDocs(events), LIST_LIMIT));
    }

    /** One turn of the claim loop: re-read the candidate, then create its claim. */
    method ClaimCandidate(id: string) returns (run: Option<Run>)
      modifies this
      ensures run.Some? <==> Claimable(old(events), old(keys), id)
      ensures run.Some? ==>
                && run == Some(Latest(old(events), id).value.(status := Running))
                && events == old(events) + [run.value] && keys == old(keys) + {ClaimKey(id)}
      ensures run.None? ==> events == old(events) && keys == old(keys)
    {
      var current := Get(id);
      if current.Some? && current.value.status == Queued {
        LatestIsOneOf(events, id);
        var running := current.value.(status := Running);
        var existed := CreateIdempotent(ClaimKey(running.id), running);
        if !existed {
          return Some(running);
        }
        assert keys == old(keys);
      }
      run := None;
    }

    method ClaimNextQueued() returns (run: Option<Run>)
      modifies this
      ensures (Value(), One(run)) == MeshStep(old(Value()), Claim)
    {
      var candidates := Candidates(events);
      var seen: set<string> := {};
      for i := 0 to |candidates|
        invariant events == old(events) && keys == old(keys)
        invariant Pick(candidates, events, keys) == Pick(candidates[i..], events, keys)
        invariant forall id :: id in seen ==> !Claimable(events, keys, id)
      {
        var candidate := candidates[i];
        PickFrom(candidates, i, events, keys);
        if candidate.id !in seen {
          seen := seen + {candidate.id};
          LatestIsOneOf(events, candidate.id);
          run := ClaimCandidate(candidate.id);
          if run.Some? {
            return;
          }
        }
      }
      run := None;
    }

    method SetStatus(id: string, status: Status) returns (known: bool)
      modifies this`events
      ensures (Value(), Known(known)) == MeshStep(old(Value()), Op.SetStatus(id, status))
    {
      var current := Get(id);
      if current.None? {
        return false;
      }
      Append(current.value.(status := status));
      known := true;
    }
  }
}
