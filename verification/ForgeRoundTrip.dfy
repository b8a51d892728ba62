/** Publishing and fetching together. */
module ForgeRoundTrip {
  import opened ForgeObjects
  import opened ForgeProtocol
  import opened ForgeSafety
  import opened ForgeFetch

  /** A tree whose publish reported success can be fetched by its commit at any later
      time, even after its branch was overwritten, by anyone with an empty directory, and
      comes back unchanged. */
  lemma PublishedTreeComesBack(
      states: seq<State>, actions: seq<Action>, k: nat, i: nat, j: nat, id: nat, branch: string, message: string,
      author: string, tree: map<string, File>, store: map<Digest, Bytes>, after: map<string, File>)
    returns (c: Commit)
    requires IsRun(states, actions) && k < i <= j < |states|
    requires actions[k] == Start(id, branch, ManifestOf(tree), message, author) && InPhase(states[i], id, Published)
    requires forall p :: p in tree ==> !Suspicious(p)
    requires Honest(store) && store.Keys == states[j].blobs
    ensures c in states[j].commits && FetchOk(map[], c.manifest, store)
    ensures Progress(map[], after, store, Elements(c.manifest)) ==> after == tree
  {
    assert StepAt(states, actions, k);
    c := PublishedContentStays(states, actions, k, i, j, id, branch, ManifestOf(tree), message, author);
    ManifestOfTree(tree);
    assert forall e :: e in ManifestOf(tree) ==> e.digest in Digests(ManifestOf(tree));
    if Progress(map[], after, store, Elements(ManifestOf(tree))) {
      FetchIntoEmptyDirectory(tree, after, store);
    }
  }
}
