/** Content-addressed objects of the forge: digests, manifests and commits, and
    the selection of blobs a publisher has to upload. */
module ForgeObjects {

  type Bytes = seq<bv8>

  /** A SHA-256 digest, taken to be injective: it is a term over what it hashes. */
  datatype Digest = Sha256(content: Bytes)

  datatype Entry = Entry(path: string, digest: Digest, executable: bool, size: nat)

  /** A commit id is a hash of the whole record, parents included, so a commit is
      a term over its parents: equal ids mean equal content, and no commit is its
      own ancestor. */
  datatype Commit = Commit(manifest: seq<Entry>, parents: seq<Commit>, message: string, author: string)

  function Digests(manifest: seq<Entry>): set<Digest> {
    set e | e in manifest :: e.digest
  }

  // ---- Ancestry ----

  predicate IsAncestor(earlier: Commit, commit: Commit) {
    earlier == commit || exists p :: p in commit.parents && IsAncestor(earlier, p)
  }

  ghost function Height(commit: Commit): nat {
    1 + MaxHeight(commit.parents)
  }

  ghost function MaxHeight(commits: seq<Commit>): (h: nat)
    ensures forall c :: c in commits ==> Height(c) <= h
  {
    if commits == [] then 0
    else
      var rest := MaxHeight(commits[1..]);
      assert forall c :: c in commits ==> c == commits[0] || c in commits[1..];
      if Height(commits[0]) > rest then Height(commits[0]) else rest
  }

  lemma {:induction false} AncestorHeight(earlier: Commit, commit: Commit)
    requires IsAncestor(earlier, commit)
    ensures earlier == commit || Height(earlier) < Height(commit)
  {
    if earlier != commit {
      var p :| p in commit.parents && IsAncestor(earlier, p);
      AncestorHeight(earlier, p);
    }
  }

  lemma {:induction false} AncestorTransitive(a: Commit, b: Commit, c: Commit)
    requires IsAncestor(a, b) && IsAncestor(b, c)
    ensures IsAncestor(a, c)
  {
    if b != c {
      var p :| p in c.parents && IsAncestor(b, p);
      AncestorTransitive(a, b, p);
    }
  }

  /** Ancestry has no cycles: two commits that are ancestors of each other are one. */
  lemma AncestorAntisymmetric(a: Commit, b: Commit)
    requires IsAncestor(a, b) && IsAncestor(b, a)
    ensures a == b
  {
    AncestorHeight(a, b);
    AncestorHeight(b, a);
  }

  // ---- Which blobs a publisher uploads ----

  /** The entries whose digest no earlier entry carries. */
  function Dedupe(manifest: seq<Entry>): seq<Entry> {
    if manifest == [] then []
    else
      var init, last := manifest[..|manifest| - 1], manifest[|manifest| - 1];
      if last.digest in Digests(init) then Dedupe(init) else Dedupe(init) + [last]
  }

  lemma DedupeNext(manifest: seq<Entry>, i: nat)
    requires i < |manifest|
    ensures var (before, entry) := (manifest[..i], manifest[i]);
            && Digests(manifest[..i + 1]) == Digests(before) + {entry.digest}
            && Dedupe(manifest[..i + 1])
               == if entry.digest in Digests(before) then Dedupe(before) else Dedupe(before) + [entry]
  {
    assert manifest[..i + 1][..i] == manifest[..i];
    assert manifest[..i + 1] == manifest[..i] + [manifest[i]];
    DigestsAppend(manifest[..i], manifest[i]);
  }

  method DedupeBlobsByDigest(manifest: seq<Entry>) returns (out: seq<Entry>)
    ensures out == Dedupe(manifest)
  {
    var seen: set<Digest> := {};
    out := [];
    for i := 0 to |manifest|
      invariant seen == Digests(manifest[..i])
      invariant out == Dedupe(manifest[..i])
    {
      var entry := manifest[i];
      DedupeNext(manifest, i);
      if entry.digest !in seen {
        seen := seen + {entry.digest};
        out := out + [entry];
      }
    }
    assert manifest[..|manifest|] == manifest;
  }

  ghost predicate DistinctDigests(entries: seq<Entry>) {
    forall i, j :: 0 <= i < j < |entries| ==> entries[i].digest != entries[j].digest
  }

  lemma DigestsAppend(entries: seq<Entry>, entry: Entry)
    ensures Digests(entries + [entry]) == Digests(entries) + {entry.digest}
  {
    assert forall e :: e in entries + [entry] <==> e in entries || e == entry;
  }

  /** The entry at k, with no earlier entry of the same digest. */
  ghost predicate IsFirst(manifest: seq<Entry>, k: int, e: Entry) {
    0 <= k < |manifest| && manifest[k] == e && e.digest !in Digests(manifest[..k])
  }

  lemma FirstStaysFirst(init: seq<Entry>, last: Entry, k: int, e: Entry)
    requires IsFirst(init, k, e)
    ensures IsFirst(init + [last], k, e)
  {
    assert (init + [last])[..k] == init[..k];
  }

  /** Deduplication keeps every digest exactly once, represented by its earliest
      entry: no entry with the same digest comes before the one kept. */
  lemma {:induction false} DedupeKeepsFirsts(manifest: seq<Entry>)
    ensures Digests(Dedupe(manifest)) == Digests(manifest)
    ensures DistinctDigests(Dedupe(manifest))
    ensures forall e :: e in Dedupe(manifest) ==> exists k :: IsFirst(manifest, k, e)
  {
    if manifest != [] {
      var n := |manifest| - 1;
      var init, last := manifest[..n], manifest[n];
      DedupeKeepsFirsts(init);
      assert manifest == init + [last];
      DigestsAppend(init, last);
      DigestsAppend(Dedupe(init), last);
      forall e | e in Dedupe(manifest)
        ensures exists k :: IsFirst(manifest, k, e)
      {
        if e in Dedupe(init) {
          var k :| IsFirst(init, k, e);
          FirstStaysFirst(init, last, k, e);
        } else {
          assert manifest[..n] == init && IsFirst(manifest, n, e);
        }
      }
    }
  }

  function Without(entries: seq<Entry>, known: set<Digest>): (r: seq<Entry>)
    ensures forall e :: e in r <==> e in entries && e.digest !in known
  {
    if entries == [] then []
    else if entries[0].digest in known then Without(entries[1..], known)
    else [entries[0]] + Without(entries[1..], known)
  }

  function BlobsToUpload(manifest: seq<Entry>, known: set<Digest>): seq<Entry> {
    Without(Dedupe(manifest), known)
  }

  lemma {:induction false} WithoutKeepsDistinct(entries: seq<Entry>, known: set<Digest>)
    requires DistinctDigests(entries)
    ensures DistinctDigests(Without(entries, known))
  {
    if entries != [] {
      WithoutKeepsDistinct(entries[1..], known);
      var rest := Without(entries[1..], known);
      assert forall e :: e in rest ==> e in entries[1..];
      assert forall i :: 0 <= i < |rest| ==> rest[i] in rest;
    }
  }

  /** The upload list names exactly the digests the parent does not have, each once. */
  lemma UploadsCoverNewDigests(manifest: seq<Entry>, known: set<Digest>)
    ensures Digests(BlobsToUpload(manifest, known)) == Digests(manifest) - known
    ensures DistinctDigests(BlobsToUpload(manifest, known))
  {
    DedupeKeepsFirsts(manifest);
    WithoutKeepsDistinct(Dedupe(manifest), known);
    assert forall d :: d in Digests(manifest) ==> d in Digests(Dedupe(manifest));
  }
}
