/** Flattening a JSON value to its leaf paths, and the diff of two values. */
module SpecDiff {
  import opened Options
  import opened Ordered
  import opened Text
  import opened JsonPointer

  // ---- Collecting leaf paths ----

  function LeafPath(prefix: string): string {
    if prefix == "" then "/" else prefix
  }

  function Collected(prefix: string, v: Json): map<string, Json>
    decreases v, 1
  {
    match v
    case Obj(members) => CollectedMembers(prefix, members)
    case Arr(items) => CollectedItems(prefix, items)
    case _ => map[LeafPath(prefix) := v]
  }

  function CollectedMembers(prefix: string, ms: seq<Member>): map<string, Json>
    decreases ms, 0
  {
    if ms == [] then map[]
    else
      var last := ms[|ms| - 1];
      CollectedMembers(prefix, ms[..|ms| - 1]) + Collected(prefix + "/" + Escape(last.key), last.value)
  }

  function CollectedItems(prefix: string, items: seq<Json>): map<string, Json>
    decreases items, 0
  {
    if items == [] then map[]
    else
      var n := |items| - 1;
      CollectedItems(prefix, items[..n]) + Collected(prefix + "/" + Decimal(n), items[n])
  }

  lemma PlusAssociates(a: map<string, Json>, b: map<string, Json>, c: map<string, Json>)
    ensures a + (b + c) == a + b + c
  {
  }

  lemma MembersUpTo(before: map<string, Json>, prefix: string, ms: seq<Member>, i: nat)
    requires i < |ms|
    ensures before + CollectedMembers(prefix, ms[..i + 1])
            == before + CollectedMembers(prefix, ms[..i]) + Collected(prefix + "/" + Escape(ms[i].key), ms[i].value)
  {
    assert ms[..i + 1][..i] == ms[..i];
    PlusAssociates(before, CollectedMembers(prefix, ms[..i]),
                   Collected(prefix + "/" + Escape(ms[i].key), ms[i].value));
  }

  lemma ItemsUpTo(before: map<string, Json>, prefix: string, items: seq<Json>, i: nat)
    requires i < |items|
    ensures before + CollectedItems(prefix, items[..i + 1])
            == before + CollectedItems(prefix, items[..i]) + Collected(prefix + "/" + Decimal(i), items[i])
  {
    assert items[..i + 1][..i] == items[..i];
    PlusAssociates(before, CollectedItems(prefix, items[..i]), Collected(prefix + "/" + Decimal(i), items[i]));
  }

  class PathMap {
    var entries: map<string, Json>

    constructor ()
      ensures entries == map[]
    {
      entries := map[];
    }

    /** Adds one entry per leaf below v, recursing and inserting in place. */
    method CollectLeafPaths(prefix: string, v: Json)
      modifies this
      ensures entries == old(entries) + Collected(prefix, v)
      decreases v
    {
      match v {
        case Obj(members) =>
          for i := 0 to |members|
            invariant entries == old(entries) + CollectedMembers(prefix, members[..i])
          {
            MembersUpTo(old(entries), prefix, members, i);
            CollectLeafPaths(prefix + "/" + Escape(members[i].key), members[i].value);
          }
          assert members[..|members|] == members;
        case Arr(items) =>
          for i := 0 to |items|
            invariant entries == old(entries) + CollectedItems(prefix, items[..i])
          {
            ItemsUpTo(old(entries), prefix, items, i);
            CollectLeafPaths(prefix + "/" + Decimal(i), items[i]);
          }
          assert items[..|items|] == items;
        case _ =>
          entries := entries[LeafPath(prefix) := v];
      }
    }
  }

  // ---- Every entry is a pointer to a leaf, and every pointer to a leaf is an entry ----

  ghost predicate EntryAt(v: Json, prefix: string, path: string) {
    prefix <= path && PointsToLeaf(v, path[|prefix|..])
  }

  /** The entries are exactly the leaves below v, each under the prefix and its pointer. */
  ghost predicate Exact(entries: map<string, Json>, prefix: string, v: Json) {
    && (forall path :: path in entries <==> EntryAt(v, prefix, path))
    && (forall path :: path in entries ==> Some(entries[path]) == Evaluate(v, path[|prefix|..]))
  }

  /** Paths through one child: the child's token is cut off without loss. */
  lemma ThroughChild(v: Json, prefix: string, token: string, path: string, child: Json)
    requires '/' !in token && Step(v, token) == Some(child)
    requires EntryAt(child, prefix + "/" + token, path)
    ensures EntryAt(v, prefix, path)
    ensures var below := prefix + "/" + token;
            Evaluate(v, path[|prefix|..]) == Evaluate(child, path[|below|..])
  {
    var below := prefix + "/" + token;
    PathBelow(prefix, token, below, path);
    EvaluateStep(v, token, path[|below|..]);
  }

  lemma PathBelow(prefix: string, token: string, below: string, path: string)
    requires below == prefix + "/" + token && below <= path
    ensures prefix <= path && path[|prefix|..] == ['/'] + token + path[|below|..]
  {
    var rest := path[|below|..];
    assert path == below + rest;
    assert path == prefix + (['/'] + token + rest);
  }

  /** A path to a leaf below a container goes through exactly one child. */
  lemma SplitAtChild(v: Json, prefix: string, path: string) returns (token: string, child: Json)
    requires !IsLeaf(v) && EntryAt(v, prefix, path)
    ensures '/' !in token && Step(v, token) == Some(child)
    ensures EntryAt(child, prefix + "/" + token, path)
    ensures var below := prefix + "/" + token;
            Evaluate(v, path[|prefix|..]) == Evaluate(child, path[|below|..])
  {
    var pointer := path[|prefix|..];
    assert pointer != "";
    var n := IndexOf(pointer[1..], '/');
    token := pointer[1..n + 1];
    assert token == pointer[1..][..n];
    child := Step(v, token).value;
    CutBelow(prefix, path, n);
  }

  lemma CutBelow(prefix: string, path: string, n: nat)
    requires prefix <= path && |path| > |prefix| + n && path[|prefix|] == '/'
    ensures var pointer := path[|prefix|..];
            var below := prefix + "/" + pointer[1..n + 1];
            below <= path && path[|below|..] == pointer[n + 1..]
  {
    var pointer := path[|prefix|..];
    var below := prefix + "/" + pointer[1..n + 1];
    assert |below| == |prefix| + n + 1;
    assert below == path[..|below|];
  }

  /** Two children of one value never share a path. */
  lemma ChildrenDoNotMeet(c: Json, d: Json, prefix: string, t: string, u: string, path: string)
    requires '/' !in t && '/' !in u
    requires EntryAt(c, prefix + "/" + t, path) && EntryAt(d, prefix + "/" + u, path)
    ensures t == u
  {
    var p, q := prefix + "/" + t, prefix + "/" + u;
    TokenOf(c, prefix, t, path);
    TokenOf(d, prefix, u, path);
  }

  lemma TokenOf(c: Json, prefix: string, t: string, path: string)
    requires '/' !in t && EntryAt(c, prefix + "/" + t, path)
    ensures prefix <= path && |path| > |prefix|
    ensures var tail := path[|prefix| + 1..]; tail[..IndexOf(tail, '/')] == t
  {
    var below := prefix + "/" + t;
    TailBelow(prefix, t, below, path);
    TokenPrefix(t, path[|below|..]);
  }

  lemma TailBelow(prefix: string, token: string, below: string, path: string)
    requires below == prefix + "/" + token && below <= path
    ensures prefix <= path && |path| > |prefix|
    ensures path[|prefix| + 1..] == token + path[|below|..]
  {
    var rest := path[|below|..];
    assert path == below + rest;
    assert path == (prefix + "/") + (token + rest);
  }

  /** What follows a token is nothing or the next slash. */
  lemma TokenPrefix(t: string, rest: string)
    requires '/' !in t && (rest == "" || rest[0] == '/')
    ensures (t + rest)[..IndexOf(t + rest, '/')] == t
  {
    if rest == "" {
      assert t + rest == t;
    } else {
      assert t + rest == t + ['/'] + rest[1..];
      IndexOfAfter(t, '/', rest[1..]);
    }
  }

  lemma MemberStep(ms: seq<Member>, token: string)
    requires ms != [] && DistinctKeys(ms)
    ensures var last := ms[|ms| - 1];
            Step(Obj(ms), token)
            == if token == Escape(last.key) then Some(last.value) else Step(Obj(ms[..|ms| - 1]), token)
  {
    var last := ms[|ms| - 1];
    EscapeRoundTrip(last.key);
    if Unescape(token) == Some(last.key) {
      UnescapeIsOnlyInverse(token);
    }
  }

  lemma LastMemberIsNew(ms: seq<Member>)
    requires ms != [] && DistinctKeys(ms)
    ensures Step(Obj(ms[..|ms| - 1]), Escape(ms[|ms| - 1].key)) == None
  {
    EscapeRoundTrip(ms[|ms| - 1].key);
  }

  lemma ItemStep(items: seq<Json>, token: string)
    requires items != []
    ensures var n := |items| - 1;
            Step(Arr(items), token)
            == if token == Decimal(n) then Some(items[n]) else Step(Arr(items[..n]), token)
  {
    var n := |items| - 1;
    ValueDecimal(n);
    assert n == 0 ==> Decimal(n) == "0";
    if IsIndex(token) {
      DecimalValue(token);
    }
  }

  lemma LastItemIsNew(items: seq<Json>)
    requires items != []
    ensures Step(Arr(items[..|items| - 1]), Decimal(|items| - 1)) == None
    ensures '/' !in Decimal(|items| - 1)
  {
    ValueDecimal(|items| - 1);
  }

  /** Adding one child's entries to those of the children before it. */
  lemma ExactWithOneMoreChild(entries: map<string, Json>, more: map<string, Json>, prefix: string,
                              before: Json, v: Json, token: string, child: Json)
    requires !IsLeaf(before) && !IsLeaf(v) && '/' !in token
    requires Exact(entries, prefix, before) && Exact(more, prefix + "/" + token, child)
    requires Step(before, token) == None
    requires forall t :: Step(v, t) == if t == token then Some(child) else Step(before, t)
    ensures Exact(entries + more, prefix, v)
    ensures entries.Keys !! more.Keys
  {
    var below := prefix + "/" + token;
    forall path | path in entries
      ensures path !in more && EntryAt(v, prefix, path)
              && Evaluate(v, path[|prefix|..]) == Some(entries[path])
    {
      var t, c := SplitAtChild(before, prefix, path);
      assert t != token;
      ThroughChild(v, prefix, t, path, c);
      if path in more {
        ChildrenDoNotMeet(c, child, prefix, t, token, path);
      }
    }
    forall path | path in more
      ensures EntryAt(v, prefix, path) && Evaluate(v, path[|prefix|..]) == Some(more[path])
    {
      ThroughChild(v, prefix, token, path, child);
    }
    forall path | EntryAt(v, prefix, path)
      ensures path in entries || path in more
    {
      var t, c := SplitAtChild(v, prefix, path);
      if t != token {
        ThroughChild(before, prefix, t, path, c);
      }
    }
  }

  lemma {:induction false} MembersExact(prefix: string, ms: seq<Member>)
    requires WellFormed(Obj(ms))
    ensures Exact(CollectedMembers(prefix, ms), prefix, Obj(ms))
    ensures |CollectedMembers(prefix, ms)| == LeafCount(Obj(ms))
    decreases ms, 0
  {
    if ms == [] {
      NothingBelow(Obj([]), prefix);
    } else {
      var init, last := ms[..|ms| - 1], ms[|ms| - 1];
      var token := Escape(last.key);
      MembersExact(prefix, init);
      CollectedExact(prefix + "/" + token, last.value);
      EscapeRoundTrip(last.key);
      LastMemberIsNew(ms);
      forall t ensures Step(Obj(ms), t) == if t == token then Some(last.value) else Step(Obj(init), t) {
        MemberStep(ms, t);
      }
      ExactWithOneMoreChild(CollectedMembers(prefix, init), Collected(prefix + "/" + token, last.value),
                            prefix, Obj(init), Obj(ms), token, last.value);
      DisjointUnionSize(CollectedMembers(prefix, init), Collected(prefix + "/" + token, last.value));
    }
  }

  lemma {:induction false} ItemsExact(prefix: string, items: seq<Json>)
    requires WellFormed(Arr(items))
    ensures Exact(CollectedItems(prefix, items), prefix, Arr(items))
    ensures |CollectedItems(prefix, items)| == LeafCount(Arr(items))
    decreases items, 0
  {
    if items == [] {
      NothingBelow(Arr([]), prefix);
    } else {
      var n := |items| - 1;
      var token := Decimal(n);
      ItemsExact(prefix, items[..n]);
      CollectedExact(prefix + "/" + token, items[n]);
      LastItemIsNew(items);
      forall t ensures Step(Arr(items), t) == if t == token then Some(items[n]) else Step(Arr(items[..n]), t) {
        ItemStep(items, t);
      }
      ExactWithOneMoreChild(CollectedItems(prefix, items[..n]), Collected(prefix + "/" + token, items[n]),
                            prefix, Arr(items[..n]), Arr(items), token, items[n]);
      DisjointUnionSize(CollectedItems(prefix, items[..n]), Collected(prefix + "/" + token, items[n]));
    }
  }

  lemma NothingBelow(v: Json, prefix: string)
    requires v == Obj([]) || v == Arr([])
    ensures Exact(map[], prefix, v)
  {
    forall path
      ensures !EntryAt(v, prefix, path)
    {
      if EntryAt(v, prefix, path) {
        var t, c := SplitAtChild(v, prefix, path);
      }
    }
  }

  lemma DisjointUnionSize(m: map<string, Json>, n: map<string, Json>)
    requires m.Keys !! n.Keys
    ensures |m + n| == |m| + |n|
  {
    assert (m + n).Keys == m.Keys + n.Keys;
    assert |m.Keys + n.Keys| == |m.Keys| + |n.Keys|;
  }

  lemma {:induction false} CollectedExact(prefix: string, v: Json)
    requires WellFormed(v) && (prefix != "" || !IsLeaf(v))
    ensures Exact(Collected(prefix, v), prefix, v)
    ensures |Collected(prefix, v)| == LeafCount(v)
    decreases v, 1
  {
    match v
    case Obj(members) => MembersExact(prefix, members);
    case Arr(items) => ItemsExact(prefix, items);
    case _ =>
      forall path
        ensures EntryAt(v, prefix, path) <==> path == prefix
      {
        if EntryAt(v, prefix, path) {
          assert path == prefix + path[|prefix|..];
        }
        assert prefix[|prefix|..] == "";
      }
  }

  ghost function LeafCount(v: Json): nat
    decreases v, 1
  {
    match v
    case Obj(members) => MemberLeaves(members)
    case Arr(items) => ItemLeaves(items)
    case _ => 1
  }

  ghost function MemberLeaves(ms: seq<Member>): nat
    decreases ms, 0
  {
    if ms == [] then 0 else MemberLeaves(ms[..|ms| - 1]) + LeafCount(ms[|ms| - 1].value)
  }

  ghost function ItemLeaves(items: seq<Json>): nat
    decreases items, 0
  {
    if items == [] then 0 else ItemLeaves(items[..|items| - 1]) + LeafCount(items[|items| - 1])
  }

  /** The flattened form of a value maps exactly its RFC 6901 pointers to leaves to those
      leaves, unless the value is itself a leaf: then it stands under "/", a pointer that
      leads nowhere in it, and its true pointer, the empty text, is missing. */
  lemma LeafPathsArePointersIff(v: Json)
    requires WellFormed(v)
    ensures Exact(Collected("", v), "", v) <==> !IsLeaf(v)
    ensures IsLeaf(v) ==> Collected("", v) == map["/" := v] && Evaluate(v, "/") == None && Evaluate(v, "") == Some(v)
  {
    if IsLeaf(v) {
      assert ""[0..] == "" && EntryAt(v, "", "");
    } else {
      CollectedExact("", v);
    }
  }

  /** Leaf paths never collide: there are as many entries as leaves. */
  lemma OneEntryPerLeaf(v: Json)
    requires WellFormed(v)
    ensures |Collected("", v)| == LeafCount(v)
  {
    if !IsLeaf(v) {
      CollectedExact("", v);
    }
  }

  // ---- The diff ----

  datatype Diff = Diff(changedPaths: seq<string>, onlyInA: seq<string>, onlyInB: seq<string>)

  function ChangedKeys(left: map<string, Json>, right: map<string, Json>): set<string> {
    set p | p in left && p in right && left[p] != right[p]
  }

  ghost function DiffOf(left: map<string, Json>, right: map<string, Json>): Diff {
    Diff(SortedKeys(ChangedKeys(left, right)), SortedKeys(left.Keys - right.Keys), SortedKeys(right.Keys - left.Keys))
  }

  method BuildSpecDiff(a: Json, b: Json) returns (d: Diff)
    ensures d == DiffOf(Collected("", a), Collected("", b))
  {
    var left := new PathMap();
    var right := new PathMap();
    left.CollectLeafPaths("", a);
    right.CollectLeafPaths("", b);
    assert left.entries == Collected("", a) && right.entries == Collected("", b);
    var changed, onlyA := PathsOfLeft(left.entries, right.entries);
    var onlyB := PathsOnlyInRight(left.entries, right.entries);
    d := Diff(changed, onlyA, onlyB);
  }

  method PathsOfLeft(left: map<string, Json>, right: map<string, Json>) returns (changed: seq<string>, only: seq<string>)
    ensures changed == SortedKeys(ChangedKeys(left, right))
    ensures only == SortedKeys(left.Keys - right.Keys)
  {
    changed, only := [], [];
    var keys := SortedKeys(left.Keys);
    for i := 0 to |keys|
      invariant PickedSoFar(changed, keys, i, ChangedKeys(left, right))
      invariant PickedSoFar(only, keys, i, left.Keys - right.Keys)
    {
      var path := keys[i];
      assert path in keys;
      PickNext(changed, keys, i, ChangedKeys(left, right));
      PickNext(only, keys, i, left.Keys - right.Keys);
      if path !in right {
        only := only + [path];
      } else if left[path] != right[path] {
        changed := changed + [path];
      }
    }
    PickedAll(changed, keys, ChangedKeys(left, right));
    PickedAll(only, keys, left.Keys - right.Keys);
  }

  method PathsOnlyInRight(left: map<string, Json>, right: map<string, Json>) returns (only: seq<string>)
    ensures only == SortedKeys(right.Keys - left.Keys)
  {
    only := [];
    var keys := SortedKeys(right.Keys);
    for i := 0 to |keys|
      invariant PickedSoFar(only, keys, i, right.Keys - left.Keys)
    {
      assert keys[i] in keys;
      PickNext(only, keys, i, right.Keys - left.Keys);
      if keys[i] !in left {
        only := only + [keys[i]];
      }
    }
    PickedAll(only, keys, right.Keys - left.Keys);
  }

  /** Every path of either side is in exactly one list, or has the same leaf on both
      sides; swapping the arguments swaps the one-sided lists and nothing else. */
  lemma DiffPartitions(left: map<string, Json>, right: map<string, Json>, p: string)
    ensures var d := DiffOf(left, right);
            && (p in d.changedPaths <==> p in left && p in right && left[p] != right[p])
            && (p in d.onlyInA <==> p in left && p !in right)
            && (p in d.onlyInB <==> p in right && p !in left)
    ensures var d := DiffOf(left, right);
            DiffOf(right, left) == Diff(d.changedPaths, d.onlyInB, d.onlyInA)
  {
    assert ChangedKeys(left, right) == ChangedKeys(right, left);
  }

  lemma EmptyDiffIff(left: map<string, Json>, right: map<string, Json>)
    ensures DiffOf(left, right) == Diff([], [], []) <==> left == right
  {
    if DiffOf(left, right) == Diff([], [], []) {
      forall p
        ensures p in left <==> p in right
        ensures p in left && p in right ==> left[p] == right[p]
      {
        DiffPartitions(left, right, p);
      }
    }
    assert ChangedKeys(left, left) == {} && left.Keys - left.Keys == {};
  }

  ghost predicate SameLeaves(a: Json, b: Json) {
    forall p :: (PointsToLeaf(a, p) <==> PointsToLeaf(b, p))
                && (PointsToLeaf(a, p) ==> Evaluate(a, p) == Evaluate(b, p))
  }

  /** A bare leaf as the diff sees it: under an empty key. */
  function Keyed(v: Json): (k: Json)
    ensures !IsLeaf(k)
  {
    if IsLeaf(v) then Obj([Member("", v)]) else v
  }

  lemma KeyedLooksTheSame(v: Json)
    requires WellFormed(v)
    ensures WellFormed(Keyed(v)) && Collected("", Keyed(v)) == Collected("", v)
  {
    if IsLeaf(v) {
      EmptyDiffOfDifferentValues(v);
    }
  }

  /** The diff of any two values is empty exactly when the same pointers lead to the same
      leaves in both, a bare leaf counting as an object that holds it under an empty key. */
  lemma EmptyDiffMeansSameLeaves(a: Json, b: Json)
    requires WellFormed(a) && WellFormed(b)
    ensures DiffOf(Collected("", a), Collected("", b)) == Diff([], [], []) <==> SameLeaves(Keyed(a), Keyed(b))
  {
    KeyedLooksTheSame(a);
    KeyedLooksTheSame(b);
    EmptyDiffIff(Collected("", a), Collected("", b));
    EntriesArePointers(Keyed(a));
    EntriesArePointers(Keyed(b));
    SameEntriesIffSameLeaves(Collected("", a), Collected("", b), Keyed(a), Keyed(b));
  }

  ghost predicate Lists(entries: map<string, Json>, v: Json) {
    && (forall p :: p in entries <==> PointsToLeaf(v, p))
    && (forall p :: p in entries ==> Some(entries[p]) == Evaluate(v, p))
  }

  lemma SameEntriesIffSameLeaves(left: map<string, Json>, right: map<string, Json>, a: Json, b: Json)
    requires Lists(left, a) && Lists(right, b)
    ensures left == right <==> SameLeaves(a, b)
  {
    if SameLeaves(a, b) {
      forall p | p in left
        ensures p in right && left[p] == right[p]
      {
        assert PointsToLeaf(a, p);
      }
      forall p | p in right
        ensures p in left
      {
        assert PointsToLeaf(b, p);
      }
    }
  }

  lemma EntriesArePointers(v: Json)
    requires WellFormed(v) && !IsLeaf(v)
    ensures Lists(Collected("", v), v)
  {
    var entries := Collected("", v);
    LeafPathsArePointersIff(v);
    forall p: string
      ensures p in entries <==> PointsToLeaf(v, p)
      ensures p in entries ==> Some(entries[p]) == Evaluate(v, p)
    {
      assert p[0..] == p;
      assert p in entries <==> EntryAt(v, "", p);
    }
  }

  /** An empty diff does not make two values equal: empty containers leave no path, an
      array and an object can have the same paths, and a bare leaf looks like an object
      with an empty key. */
  lemma EmptyDiffOfDifferentValues(leaf: Json)
    requires IsLeaf(leaf)
    ensures Collected("", Obj([])) == Collected("", Arr([]))
    ensures Collected("", Arr([leaf])) == Collected("", Obj([Member("0", leaf)]))
    ensures Collected("", leaf) == Collected("", Obj([Member("", leaf)]))
  {
    assert [Member("0", leaf)][..0] == [] && [Member("", leaf)][..0] == [] && [leaf][..0] == [];
    EscapeRoundTrip("");
    EscapeCons("0");
    assert "0"[1..] == "" && Escape("") == "";
    assert Escape("0") == "0" && Decimal(0) == "0";
    assert "" + "/" + "" == "/";
    assert Collected("/", leaf) == map["/" := leaf];
    assert CollectedMembers("", [Member("", leaf)]) == map[] + Collected("" + "/" + Escape(""), leaf);
  }
}
