/** Materialising a commit's manifest into a directory. */
module ForgeFetch {
  import opened ForgeObjects
  import Ordered
  import Text

  datatype File = File(content: Bytes, executable: bool)

  datatype FetchError =
    | EmptyManifest
    | UnsafePath(path: string)
    | BlobMissing(digest: Digest)
    | NothingWritten

  datatype Outcome = Fetched(downloaded: nat, reused: nat) | Rejected(error: FetchError)

  class Workspace {
    var files: map<string, File>

    constructor (files: map<string, File>)
      ensures this.files == files
    {
      this.files := files;
    }
  }

  predicate IsSafe(path: string) {
    path != "" && path[0] != '/' && '\\' !in path && ".." !in Text.Split(path, '/')
  }

  // ---- What a safe path is, said of the text and of the walk along it ----

  /** Two dots between slashes or ends, at position i. */
  predicate UpAt(path: string, i: int) {
    0 <= i && i + 2 <= |path| && path[i] == '.' && path[i + 1] == '.'
    && (i == 0 || path[i - 1] == '/') && (i + 2 == |path| || path[i + 2] == '/')
  }

  /** A path that is empty, starts at the root, holds a backslash, or goes up anywhere. */
  ghost predicate Suspicious(path: string) {
    path == "" || path[0] == '/' || '\\' in path || exists i :: UpAt(path, i)
  }

  lemma UpInFirst(p: string)
    requires '/' !in p
    ensures (exists i :: UpAt(p, i)) <==> p == ".."
  {
    if p == ".." {
      assert UpAt(p, 0);
    }
  }

  lemma UpAfter(p: string, rest: string)
    requires '/' !in p
    ensures (exists i :: UpAt(p + ['/'] + rest, i)) <==> p == ".." || exists i :: UpAt(rest, i)
  {
    var s := p + ['/'] + rest;
    if p == ".." {
      assert UpAt(s, 0);
    }
    forall i | UpAt(rest, i)
      ensures UpAt(s, i + |p| + 1)
    {
    }
    forall i | UpAt(s, i)
      ensures p == ".." || UpAt(rest, i - |p| - 1)
    {
      assert s[|p|] == '/' && forall k :: 0 <= k < |p| ==> s[k] == p[k] && p[k] in p;
      if i <= |p| {
        assert p == s[..|p|];
      }
    }
  }

  lemma {:induction false} UpIsAComponent(path: string)
    ensures ".." in Text.Split(path, '/') <==> exists i :: UpAt(path, i)
    decreases |path|
  {
    var n := Text.IndexOf(path, '/');
    if n == |path| {
      UpInFirst(path);
    } else {
      var p, rest := path[..n], path[n + 1..];
      UpIsAComponent(rest);
      UpAfter(p, rest);
      Text.CutAt(path, n, '/');
    }
  }

  lemma SafeIsNotSuspicious(path: string)
    ensures IsSafe(path) <==> !Suspicious(path)
  {
    UpIsAComponent(path);
  }

  ghost predicate AnySuspicious(manifest: seq<Entry>) {
    exists e :: e in manifest && Suspicious(e.path)
  }

  lemma SafeManifest(manifest: seq<Entry>)
    ensures AnySuspicious(manifest) <==> !AllSafe(manifest)
  {
    forall e | e in manifest
      ensures IsSafe(e.path) <==> !Suspicious(e.path)
    {
      SafeIsNotSuspicious(e.path);
    }
  }

  /** One step of a walk: two dots go one level up, one dot and nothing stay, a name goes
      down. A directory is the list of names that lead to it from the root. */
  function Enter(dir: seq<string>, part: string): seq<string> {
    if part == "" || part == "." then dir
    else if part == ".." then (if dir == [] then [] else dir[..|dir| - 1])
    else dir + [part]
  }

  function Walk(dir: seq<string>, parts: seq<string>): seq<string>
    decreases |parts|
  {
    if parts == [] then dir else Walk(Enter(dir, parts[0]), parts[1..])
  }

  /** The path is relative, and its walk never leaves the directory it starts from. */
  ghost predicate StaysInside(path: string) {
    var parts := Text.Split(path, '/');
    path != "" && path[0] != '/'
    && forall out: seq<string>, k: nat :: k <= |parts| ==> out <= Walk(out, parts[..k])
  }

  lemma {:induction false} NoUpNoRise(out: seq<string>, dir: seq<string>, parts: seq<string>)
    requires ".." !in parts && out <= dir
    ensures out <= Walk(dir, parts)
    decreases |parts|
  {
    if parts != [] {
      assert parts[0] in parts && forall p :: p in parts[1..] ==> p in parts;
      NoUpNoRise(out, Enter(dir, parts[0]), parts[1..]);
    }
  }

  lemma SafeStaysInside(path: string)
    requires IsSafe(path)
    ensures StaysInside(path)
  {
    var parts := Text.Split(path, '/');
    forall out: seq<string>, k: nat | k <= |parts|
      ensures out <= Walk(out, parts[..k])
    {
      assert forall p :: p in parts[..k] ==> p in parts;
      NoUpNoRise(out, out, parts[..k]);
    }
  }

  lemma OneLevelUp()
    ensures Walk(["out"], [".."]) == []
  {
    assert Walk(["out"], [".."]) == Walk(Enter(["out"], ".."), [".."][1..]);
  }

  /** A path that starts by going up leaves every directory but the root. */
  lemma GoingUpLeaves(rest: string)
    ensures !StaysInside("../" + rest)
  {
    var path := "../" + rest;
    var parts := Text.Split(path, '/');
    assert path == ".." + ['/'] + rest;
    Text.SplitHead("..", '/', rest);
    assert parts[..1] == [".."];
    OneLevelUp();
    assert !(["out"] <= Walk(["out"], parts[..1]));
  }

  ghost predicate DistinctPaths(manifest: seq<Entry>) {
    forall i, j :: 0 <= i < j < |manifest| ==> manifest[i].path != manifest[j].path
  }

  /** The file on disk already has the wanted content. */
  predicate UpToDate(files: map<string, File>, e: Entry) {
    e.path in files && Sha256(files[e.path].content) == e.digest
  }

  /** What one entry leaves behind. An up-to-date file is not touched, mode
      included; writing keeps the mode of a file that was there, and the
      executable bit is only ever set. */
  function Result(files: map<string, File>, e: Entry, store: map<Digest, Bytes>): File
    requires UpToDate(files, e) || e.digest in store
  {
    if UpToDate(files, e) then files[e.path]
    else File(store[e.digest], e.executable || (e.path in files && files[e.path].executable))
  }

  ghost predicate Available(files: map<string, File>, manifest: seq<Entry>, store: map<Digest, Bytes>) {
    forall e :: e in manifest ==> UpToDate(files, e) || e.digest in store
  }

  ghost predicate FetchOk(files: map<string, File>, manifest: seq<Entry>, store: map<Digest, Bytes>) {
    manifest != [] && !AnySuspicious(manifest) && Available(files, manifest, store)
  }

  /** The entries of one digest that still have to be written, in manifest order. */
  function Wanted(manifest: seq<Entry>, digest: Digest, files: map<string, File>): (r: seq<Entry>)
    ensures forall e :: e in r <==> e in manifest && e.digest == digest && !UpToDate(files, e)
  {
    if manifest == [] then []
    else
      var init, last := manifest[..|manifest| - 1], manifest[|manifest| - 1];
      Wanted(init, digest, files)
      + if last.digest == digest && !UpToDate(files, last) then [last] else []
  }

  lemma {:induction false} WantedDistinct(manifest: seq<Entry>, digest: Digest, files: map<string, File>)
    requires DistinctPaths(manifest)
    ensures DistinctPaths(Wanted(manifest, digest, files))
  {
    if manifest != [] {
      var init, last := manifest[..|manifest| - 1], manifest[|manifest| - 1];
      WantedDistinct(init, digest, files);
      var r := Wanted(init, digest, files);
      assert forall i :: 0 <= i < |r| ==> r[i] in r;
    }
  }

  /** One download per digest, with every entry that needs it. */
  ghost predicate GroupsOf(groups: map<Digest, seq<Entry>>, manifest: seq<Entry>, files: map<string, File>) {
    forall d :: (d in groups <==> Wanted(manifest, d, files) != [])
                && (d in groups ==> groups[d] == Wanted(manifest, d, files))
  }

  lemma WantedNext(manifest: seq<Entry>, e: Entry, d: Digest, files: map<string, File>)
    ensures Wanted(manifest + [e], d, files)
            == if e.digest == d && !UpToDate(files, e) then Wanted(manifest, d, files) + [e]
               else Wanted(manifest, d, files)
  {
    assert (manifest + [e])[..|manifest|] == manifest;
    assert Wanted(manifest, d, files) + [] == Wanted(manifest, d, files);
  }

  /** The groups after one more entry. */
  lemma GroupsNext(groups: map<Digest, seq<Entry>>, manifest: seq<Entry>, e: Entry, files: map<string, File>)
    requires GroupsOf(groups, manifest, files)
    ensures GroupsOf(if UpToDate(files, e) then groups
                     else groups[e.digest := (if e.digest in groups then groups[e.digest] else []) + [e]],
                     manifest + [e], files)
  {
    forall d
      ensures Wanted(manifest + [e], d, files)
              == if e.digest == d && !UpToDate(files, e) then Wanted(manifest, d, files) + [e]
                 else Wanted(manifest, d, files)
    {
      WantedNext(manifest, e, d, files);
    }
  }

  /** The entries that are in place while the downloads of the pending digests are not. */
  ghost function Settled(manifest: seq<Entry>, before: map<string, File>, pending: set<Digest>): set<Entry> {
    set e | e in manifest && (UpToDate(before, e) || e.digest !in pending)
  }

  /** The first path of the manifest that the test refuses. */
  ghost predicate FirstUnsafe(manifest: seq<Entry>, path: string) {
    exists i :: 0 <= i < |manifest| && manifest[i].path == path && !IsSafe(path)
                && forall j :: 0 <= j < i ==> IsSafe(manifest[j].path)
  }

  function Elements(entries: seq<Entry>): set<Entry> {
    set e | e in entries
  }

  /** The entries whose file needs nothing done, in manifest order. */
  function InPlace(manifest: seq<Entry>, files: map<string, File>): (r: seq<Entry>)
    ensures forall e :: e in r <==> e in manifest && UpToDate(files, e)
  {
    if manifest == [] then []
    else
      var init, last := manifest[..|manifest| - 1], manifest[|manifest| - 1];
      InPlace(init, files) + if UpToDate(files, last) then [last] else []
  }

  lemma OneElementMore(entries: seq<Entry>, e: Entry)
    requires e !in entries
    ensures |Elements(entries + [e])| == |Elements(entries)| + 1
  {
    assert Elements(entries + [e]) == Elements(entries) + {e};
  }

  lemma {:induction false} Counted(entries: seq<Entry>)
    requires DistinctPaths(entries)
    ensures |entries| == |Elements(entries)|
  {
    if entries != [] {
      var init, last := entries[..|entries| - 1], entries[|entries| - 1];
      Counted(init);
      assert last !in init;
      assert entries == init + [last];
      OneElementMore(init, last);
    }
  }

  lemma {:induction false} InPlaceDistinct(manifest: seq<Entry>, files: map<string, File>)
    requires DistinctPaths(manifest)
    ensures DistinctPaths(InPlace(manifest, files))
  {
    if manifest != [] {
      var init, last := manifest[..|manifest| - 1], manifest[|manifest| - 1];
      InPlaceDistinct(init, files);
      var r := InPlace(init, files);
      assert forall i :: 0 <= i < |r| ==> r[i] in r;
    }
  }

  ghost predicate AllSafe(manifest: seq<Entry>) {
    forall e :: e in manifest ==> IsSafe(e.path)
  }

  lemma FirstFound(manifest: seq<Entry>, i: nat)
    requires i < |manifest| && AllSafe(manifest[..i]) && !IsSafe(manifest[i].path)
    ensures FirstUnsafe(manifest, manifest[i].path) && !AllSafe(manifest)
  {
    assert forall j :: 0 <= j < i ==> manifest[j] in manifest[..i];
    assert manifest[i] in manifest;
  }

  lemma OneEntryFurther(groups: map<Digest, seq<Entry>>, manifest: seq<Entry>, i: nat, files: map<string, File>)
    requires i < |manifest| && GroupsOf(groups, manifest[..i], files)
    ensures var e := manifest[i];
            && GroupsOf(if UpToDate(files, e) then groups
                        else groups[e.digest := (if e.digest in groups then groups[e.digest] else []) + [e]],
                        manifest[..i + 1], files)
            && |InPlace(manifest[..i + 1], files)|
               == |InPlace(manifest[..i], files)| + (if UpToDate(files, e) then 1 else 0)
            && (AllSafe(manifest[..i + 1]) <==> AllSafe(manifest[..i]) && IsSafe(e.path))
  {
    var e := manifest[i];
    GroupsNext(groups, manifest[..i], e, files);
    assert manifest[..i + 1] == manifest[..i] + [e] && manifest[..i + 1][..i] == manifest[..i];
  }

  method GroupByDigest(manifest: seq<Entry>, files: map<string, File>)
    returns (groups: map<Digest, seq<Entry>>, reused: nat, rejected: seq<string>)
    ensures rejected == [] <==> AllSafe(manifest)
    ensures rejected != [] ==> FirstUnsafe(manifest, rejected[0])
    ensures rejected == [] ==> GroupsOf(groups, manifest, files)
    ensures rejected == [] ==> reused == |InPlace(manifest, files)|
  {
    groups, reused, rejected := map[], 0, [];
    for i := 0 to |manifest|
      invariant rejected == [] && AllSafe(manifest[..i])
      invariant GroupsOf(groups, manifest[..i], files)
      invariant reused == |InPlace(manifest[..i], files)|
    {
      var e := manifest[i];
      OneEntryFurther(groups, manifest, i, files);
      if !IsSafe(e.path) {
        FirstFound(manifest, i);
        return groups, reused, [e.path];
      }
      if UpToDate(files, e) {
        reused := reused + 1;
      } else {
        groups := groups[e.digest := (if e.digest in groups then groups[e.digest] else []) + [e]];
      }
    }
    assert manifest[..|manifest|] == manifest;
  }

  function PathsOf(entries: set<Entry>): set<string> {
    set e | e in entries :: e.path
  }

  /** Where the files stand once the entries in done have been dealt with. */
  ghost predicate Progress(before: map<string, File>, now: map<string, File>,
                           store: map<Digest, Bytes>, done: set<Entry>) {
    && (forall e :: e in done ==> (UpToDate(before, e) || e.digest in store)
                                  && e.path in now && now[e.path] == Result(before, e, store))
    && forall p :: p !in PathsOf(done) ==>
         (p in now <==> p in before) && (p in now ==> now[p] == before[p])
  }

  /** Some of the entries have been dealt with, and nothing else has changed. */
  ghost predicate PartlyWritten(manifest: seq<Entry>, before: map<string, File>, now: map<string, File>,
                                store: map<Digest, Bytes>) {
    exists done :: done <= Elements(manifest) && Progress(before, now, store, done)
  }

  lemma WriteOne(before: map<string, File>, now: map<string, File>, store: map<Digest, Bytes>,
                 done: set<Entry>, e: Entry)
    requires Progress(before, now, store, done)
    requires e.digest in store && !UpToDate(before, e) && e.path !in PathsOf(done)
    ensures Progress(before, now[e.path := Result(before, e, store)], store, done + {e})
  {
    var after := now[e.path := Result(before, e, store)];
    forall p | p !in PathsOf(done + {e})
      ensures (p in after <==> p in before) && (p in after ==> after[p] == before[p])
    {
      assert e in done + {e};
      assert p != e.path;
      assert forall f :: f in done ==> f in done + {e};
      assert p !in PathsOf(done);
    }
    forall f | f in done
      ensures f.path != e.path
    {
      assert f.path in PathsOf(done);
    }
  }

  lemma OtherPaths(manifest: seq<Entry>, done: set<Entry>, e: Entry)
    requires DistinctPaths(manifest) && e in manifest && e !in done && done <= Elements(manifest)
    ensures e.path !in PathsOf(done)
  {
    forall f | f in done
      ensures f.path != e.path
    {
      assert f in Elements(manifest) && f != e;
    }
  }

  /** Write one downloaded blob to every path of its group. */
  method WriteGroup(manifest: seq<Entry>, group: seq<Entry>, store: map<Digest, Bytes>, digest: Digest,
                    ws: Workspace, ghost before: map<string, File>, ghost done: set<Entry>)
    requires DistinctPaths(manifest) && DistinctPaths(group) && digest in store
    requires forall e :: e in group ==> e in manifest && e.digest == digest && !UpToDate(before, e) && e !in done
    requires done <= Elements(manifest)
    requires Progress(before, ws.files, store, done)
    modifies ws
    ensures Progress(before, ws.files, store, done + Elements(group))
  {
    assert done + Elements(group[..0]) == done;
    for k := 0 to |group|
      invariant Progress(before, ws.files, store, done + Elements(group[..k]))
    {
      var e := group[k];
      ghost var soFar := done + Elements(group[..k]);
      assert group[..k + 1] == group[..k] + [e];
      assert done + Elements(group[..k + 1]) == soFar + {e};
      assert e !in soFar;
      OtherPaths(manifest, soFar, e);
      WriteOne(before, ws.files, store, soFar, e);
      var mode := e.executable || (e.path in ws.files && ws.files[e.path].executable);
      ws.files := ws.files[e.path := File(store[digest], mode)];
    }
    assert group[..|group|] == group;
  }

  /** Before any download only the up-to-date entries are settled, and they need
      nothing done. */
  lemma NothingWrittenYet(manifest: seq<Entry>, before: map<string, File>, store: map<Digest, Bytes>,
                          groups: map<Digest, seq<Entry>>)
    requires GroupsOf(groups, manifest, before)
    ensures Progress(before, before, store, Settled(manifest, before, groups.Keys))
    ensures Settled(manifest, before, groups.Keys) == Elements(InPlace(manifest, before))
  {
    forall e | e in manifest && !UpToDate(before, e)
      ensures e.digest in groups
    {
      assert e in Wanted(manifest, e.digest, before);
    }
  }

  lemma GroupIsFresh(manifest: seq<Entry>, before: map<string, File>, groups: map<Digest, seq<Entry>>,
                     pending: set<Digest>, digest: Digest)
    requires DistinctPaths(manifest) && GroupsOf(groups, manifest, before)
    requires pending <= groups.Keys && digest in pending
    ensures DistinctPaths(groups[digest]) && groups[digest] != []
    ensures forall e :: e in groups[digest] ==> e in manifest && e.digest == digest
                                                && !UpToDate(before, e) && e !in Settled(manifest, before, pending)
    ensures Settled(manifest, before, pending - {digest})
            == Settled(manifest, before, pending) + Elements(groups[digest])
  {
    WantedDistinct(manifest, digest, before);
  }

  lemma Disjoint<T>(a: set<T>, b: set<T>)
    requires forall x :: x in b ==> x !in a
    ensures |a + b| == |a| + |b|
  {
    assert a !! b;
  }

  lemma GroupIsCounted(manifest: seq<Entry>, before: map<string, File>, groups: map<Digest, seq<Entry>>,
                       pending: set<Digest>, digest: Digest)
    requires DistinctPaths(manifest) && GroupsOf(groups, manifest, before)
    requires pending <= groups.Keys && digest in pending
    ensures |Settled(manifest, before, pending - {digest})| == |Settled(manifest, before, pending)| + |groups[digest]|
  {
    GroupIsFresh(manifest, before, groups, pending, digest);
    Counted(groups[digest]);
    Disjoint(Settled(manifest, before, pending), Elements(groups[digest]));
  }

  /** Some entry still needs the blob of this digest. */
  ghost predicate Needed(manifest: seq<Entry>, files: map<string, File>, d: Digest) {
    exists e :: e in manifest && e.digest == d && !UpToDate(files, e)
  }

  lemma GroupIsNeeded(manifest: seq<Entry>, files: map<string, File>, groups: map<Digest, seq<Entry>>, d: Digest)
    requires GroupsOf(groups, manifest, files) && d in groups
    ensures Needed(manifest, files, d)
  {
    var e := groups[d][0];
    assert e in groups[d];
  }

  lemma SomeAreSettled(manifest: seq<Entry>, before: map<string, File>, now: map<string, File>,
                       store: map<Digest, Bytes>, pending: set<Digest>)
    requires Progress(before, now, store, Settled(manifest, before, pending))
    ensures PartlyWritten(manifest, before, now, store)
    ensures Settled(manifest, before, {}) == Elements(manifest)
  {
    assert Settled(manifest, before, pending) <= Elements(manifest);
  }

  lemma NothingCounted(manifest: seq<Entry>, before: map<string, File>, groups: map<Digest, seq<Entry>>)
    requires DistinctPaths(manifest)
    requires Settled(manifest, before, groups.Keys) == Elements(InPlace(manifest, before))
    ensures |Settled(manifest, before, groups.Keys)| == |InPlace(manifest, before)|
    ensures |manifest| == |Elements(manifest)|
  {
    InPlaceDistinct(manifest, before);
    Counted(manifest);
    Counted(InPlace(manifest, before));
  }

  method DownloadAll(manifest: seq<Entry>, groups: map<Digest, seq<Entry>>, store: map<Digest, Bytes>,
                     ws: Workspace) returns (missing: seq<Digest>, written: nat)
    requires DistinctPaths(manifest) && GroupsOf(groups, manifest, ws.files)
    modifies ws
    ensures missing == [] <==> groups.Keys <= store.Keys
    ensures missing != [] ==> Needed(manifest, old(ws.files), missing[0]) && missing[0] !in store
    ensures missing == [] ==> Progress(old(ws.files), ws.files, store, Elements(manifest))
    ensures missing == [] ==> |manifest| == |InPlace(manifest, old(ws.files))| + written
    ensures PartlyWritten(manifest, old(ws.files), ws.files, store)
  {
    ghost var before := ws.files;
    NothingWrittenYet(manifest, before, store, groups);
    NothingCounted(manifest, before, groups);
    var pending := groups.Keys;
    written := 0;
    while pending != {}
      invariant pending <= groups.Keys
      invariant Progress(before, ws.files, store, Settled(manifest, before, pending))
      invariant groups.Keys - pending <= store.Keys
      invariant |Settled(manifest, before, pending)| == |InPlace(manifest, before)| + written
      decreases |pending|
    {
      var digest :| digest in pending;
      if digest !in store {
        SomeAreSettled(manifest, before, ws.files, store, pending);
        GroupIsNeeded(manifest, before, groups, digest);
        return [digest], written;
      }
      GroupIsFresh(manifest, before, groups, pending, digest);
      GroupIsCounted(manifest, before, groups, pending, digest);
      WriteGroup(manifest, groups[digest], store, digest, ws, before, Settled(manifest, before, pending));
      pending := pending - {digest};
      written := written + |groups[digest]|;
    }
    SomeAreSettled(manifest, before, ws.files, store, {});
    missing := [];
  }

  lemma GroupsAvailable(manifest: seq<Entry>, files: map<string, File>, groups: map<Digest, seq<Entry>>,
                        store: map<Digest, Bytes>)
    requires GroupsOf(groups, manifest, files)
    ensures Available(files, manifest, store) <==> groups.Keys <= store.Keys
  {
    forall d | d in groups && d !in store
      ensures !Available(files, manifest, store)
    {
      var e := groups[d][0];
      assert e in groups[d];
    }
    forall e | e in manifest && !UpToDate(files, e)
      ensures e.digest in groups
    {
      assert e in Wanted(manifest, e.digest, files);
    }
  }

  /** No path that leads out of the directory appears, changes or goes away. */
  ghost predicate OutsideUntouched(before: map<string, File>, now: map<string, File>) {
    forall p :: !StaysInside(p) ==> (p in now <==> p in before) && (p in now ==> now[p] == before[p])
  }

  lemma SafeWritesStayInside(manifest: seq<Entry>, before: map<string, File>, now: map<string, File>,
                             store: map<Digest, Bytes>)
    requires AllSafe(manifest) && PartlyWritten(manifest, before, now, store)
    ensures OutsideUntouched(before, now)
  {
    var done :| done <= Elements(manifest) && Progress(before, now, store, done);
    forall p | !StaysInside(p)
      ensures p !in PathsOf(done)
    {
      if p in PathsOf(done) {
        var e :| e in done && e.path == p;
        assert e in Elements(manifest);
        SafeStaysInside(p);
      }
    }
  }

  /** Fetching succeeds exactly when the manifest is non-empty, every path is safe
      and every file that is not already up to date has its blob; then every entry
      is in place and nothing else was touched. A failed fetch leaves each file
      either alone or completely written. A suspicious path makes it fail before anything
      is written, and nothing outside the directory is ever touched. */
  method Fetch(manifest: seq<Entry>, store: map<Digest, Bytes>, ws: Workspace) returns (r: Outcome)
    requires DistinctPaths(manifest)
    modifies ws
    ensures r.Fetched? <==> FetchOk(old(ws.files), manifest, store)
    ensures r.Fetched? ==> Progress(old(ws.files), ws.files, store, Elements(manifest))
                           && r.reused == |InPlace(manifest, old(ws.files))| && r.downloaded + r.reused == |manifest|
    ensures AnySuspicious(manifest) ==> r.Rejected? && r.error.UnsafePath? && ws.files == old(ws.files)
                                        && FirstUnsafe(manifest, r.error.path)
    ensures r == Rejected(EmptyManifest) <==> manifest == []
    ensures r.Rejected? && r.error.BlobMissing? ==>
              !AnySuspicious(manifest) && Needed(manifest, old(ws.files), r.error.digest) && r.error.digest !in store
    ensures OutsideUntouched(old(ws.files), ws.files)
    ensures PartlyWritten(manifest, old(ws.files), ws.files, store)
    ensures r.Rejected? && !r.error.BlobMissing? ==> ws.files == old(ws.files)
    ensures r != Rejected(NothingWritten)
  {
    assert Progress(ws.files, ws.files, store, {});
    if manifest == [] {
      return Rejected(EmptyManifest);
    }
    var groups, reused, rejected := GroupByDigest(manifest, ws.files);
    SafeManifest(manifest);
    if rejected != [] {
      return Rejected(UnsafePath(rejected[0]));
    }
    GroupsAvailable(manifest, ws.files, groups, store);
    ghost var before := ws.files;
    var missing, written := DownloadAll(manifest, groups, store, ws);
    SafeWritesStayInside(manifest, before, ws.files, store);
    if missing != [] {
      return Rejected(BlobMissing(missing[0]));
    }
    if written + reused == 0 {
      return Rejected(NothingWritten);
    }
    return Fetched(written, reused);
  }

  // ---- Publishing a tree and fetching it back ----

  /** The manifest of a directory tree, in path order. */
  function ManifestOf(tree: map<string, File>): seq<Entry> {
    var paths := Ordered.SortedKeys(tree.Keys);
    seq(|paths|, i requires 0 <= i < |paths| =>
      assert paths[i] in paths;
      var f := tree[paths[i]];
      Entry(paths[i], Sha256(f.content), f.executable, |f.content|))
  }

  lemma ManifestOfTree(tree: map<string, File>)
    ensures DistinctPaths(ManifestOf(tree))
    ensures forall p :: p in tree ==>
              Entry(p, Sha256(tree[p].content), tree[p].executable, |tree[p].content|) in ManifestOf(tree)
    ensures forall e :: e in ManifestOf(tree) ==>
              e.path in tree && e.digest == Sha256(tree[e.path].content)
              && e.executable == tree[e.path].executable
  {
    var paths := Ordered.SortedKeys(tree.Keys);
    var m := ManifestOf(tree);
    forall i, j | 0 <= i < j < |m|
      ensures m[i].path != m[j].path
    {
      assert Ordered.Less(paths[i], paths[j]);
      Ordered.LessIrreflexive(paths[i]);
    }
    forall p | p in tree
      ensures Entry(p, Sha256(tree[p].content), tree[p].executable, |tree[p].content|) in m
    {
      assert p in paths;
      var i :| 0 <= i < |paths| && paths[i] == p;
      assert m[i] == Entry(p, Sha256(tree[p].content), tree[p].executable, |tree[p].content|);
    }
    forall e | e in m
      ensures e.path in tree && e.digest == Sha256(tree[e.path].content)
      ensures e.executable == tree[e.path].executable
    {
      var i :| 0 <= i < |m| && m[i] == e;
      assert paths[i] in paths;
    }
  }

  /** The store answers a digest with bytes of that digest; the client does not
      check this itself. */
  ghost predicate Honest(store: map<Digest, Bytes>) {
    forall d :: d in store ==> Sha256(store[d]) == d
  }

  /** A fetch does not repair every mode: it never clears an executable bit, and
      never sets one on a file whose content was up to date. */
  predicate StaleMode(tree: map<string, File>, before: map<string, File>, p: string)
    requires p in tree
  {
    p in before && before[p].executable != tree[p].executable
    && (before[p].executable || before[p].content == tree[p].content)
  }

  lemma FetchedFile(tree: map<string, File>, before: map<string, File>, after: map<string, File>,
                    store: map<Digest, Bytes>, p: string)
    requires Honest(store) && Progress(before, after, store, Elements(ManifestOf(tree))) && p in tree
    ensures p in after && after[p].content == tree[p].content
    ensures after[p] == tree[p] <==> !StaleMode(tree, before, p)
  {
    ManifestOfTree(tree);
    var e := Entry(p, Sha256(tree[p].content), tree[p].executable, |tree[p].content|);
    assert e in Elements(ManifestOf(tree));
    assert after[p] == Result(before, e, store);
    if !UpToDate(before, e) {
      assert Sha256(store[e.digest]) == e.digest;
    }
  }

  ghost predicate Restored(tree: map<string, File>, after: map<string, File>) {
    forall p :: p in tree ==> p in after && after[p] == tree[p]
  }

  /** Round trip: a fetched tree has the published content at every path, and is
      identical, executable bits included, exactly when no file already there had a
      stale mode. */
  lemma FetchedTree(tree: map<string, File>, before: map<string, File>, after: map<string, File>,
                    store: map<Digest, Bytes>)
    requires Honest(store) && Progress(before, after, store, Elements(ManifestOf(tree)))
    ensures forall p :: p in tree ==> p in after && after[p].content == tree[p].content
    ensures Restored(tree, after) <==> forall p :: p in tree ==> !StaleMode(tree, before, p)
  {
    forall p | p in tree
      ensures p in after && after[p].content == tree[p].content
      ensures after[p] == tree[p] <==> !StaleMode(tree, before, p)
    {
      FetchedFile(tree, before, after, store, p);
    }
  }

  /** A file whose content is right but whose executable bit should be off keeps the bit
      through every successful fetch. */
  lemma StaleBitSurvives(path: string, content: Bytes, after: map<string, File>, store: map<Digest, Bytes>)
    requires Honest(store)
    requires Progress(map[path := File(content, true)], after, store,
                      Elements(ManifestOf(map[path := File(content, false)])))
    ensures path in after && after[path] == File(content, true)
  {
    var tree, before := map[path := File(content, false)], map[path := File(content, true)];
    FetchedFile(tree, before, after, store, path);
  }

  lemma PathsOfTree(tree: map<string, File>)
    ensures PathsOf(Elements(ManifestOf(tree))) == tree.Keys
  {
    ManifestOfTree(tree);
    var m := ManifestOf(tree);
    forall p | p in tree
      ensures p in PathsOf(Elements(m))
    {
      var e := Entry(p, Sha256(tree[p].content), tree[p].executable, |tree[p].content|);
      assert e in Elements(m);
    }
  }

  /** Into an empty directory a fetch puts exactly the published tree. */
  lemma FetchIntoEmptyDirectory(tree: map<string, File>, after: map<string, File>, store: map<Digest, Bytes>)
    requires Honest(store) && Progress(map[], after, store, Elements(ManifestOf(tree)))
    ensures after == tree
  {
    FetchedTree(tree, map[], after, store);
    PathsOfTree(tree);
    assert Restored(tree, after);
  }
}
