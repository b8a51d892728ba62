/** The order in which any number of role outputs arrive: exactly when the merge depends on
    it, the order of the conflict list counted in or not. */
module ArrivalOrder {
  import opened Sorting
  import opened Orchestration
  import opened MergeSwaps
  import opened MergeLists

  // ---- Two views of a merge ----

  /** Whether two merges are compared with their conflicts counted, or with the conflict list
      as it is. */
  datatype View = Counted | Listed

  ghost predicate Alike(m: Outcome, n: Outcome, view: View) {
    match view
    case Counted => SameMerge(m, n)
    case Listed => m == n
  }

  /** After these outputs the two can be exchanged. */
  ghost predicate Passes(before: seq<RoleOutput>, a: RoleOutput, b: RoleOutput, strategy: Strategy, view: View) {
    match view
    case Counted => forall key :: !OrderShows(before, a, b, strategy, key)
    case Listed => SameList(before, a, b, strategy)
  }

  lemma SwapIsAlikeIff(before: seq<RoleOutput>, a: RoleOutput, b: RoleOutput, after: seq<RoleOutput>,
                       strategy: Strategy, view: View)
    requires Slot(a) == Slot(b) && SortedByKey(before + [a, b] + after, Slot)
    ensures Alike(Merged(before + [a, b] + after, strategy), Merged(before + [b, a] + after, strategy), view)
            <==> Passes(before, a, b, strategy, view)
  {
    SlotFixesRole(a, b);
    match view
    case Counted => SwapShowsIff(before, a, b, after, strategy);
    case Listed => SwapKeepsOutcomeIff(before, a, b, after, strategy);
  }

  lemma AlikeTransitive(l: Outcome, m: Outcome, n: Outcome, view: View)
    requires Alike(l, m, view) && Alike(m, n, view)
    ensures Alike(l, n, view)
  {
  }

  // ---- Earlier slots ----

  /** The outputs of a sorted list that come in slots before this one. */
  function Earlier(sorted: seq<RoleOutput>, slot: int): seq<RoleOutput> {
    if sorted == [] || Slot(sorted[|sorted| - 1]) < slot then sorted else Earlier(sorted[..|sorted| - 1], slot)
  }

  lemma {:induction false} EarlierSplits(sorted: seq<RoleOutput>, slot: int)
    requires SortedByKey(sorted, Slot)
    ensures var n := |Earlier(sorted, slot)|;
            && n <= |sorted| && Earlier(sorted, slot) == sorted[..n]
            && (forall i :: 0 <= i < n ==> Slot(sorted[i]) < slot)
            && (forall i :: n <= i < |sorted| ==> slot <= Slot(sorted[i]))
  {
    if sorted == [] || Slot(sorted[|sorted| - 1]) < slot {
      assert sorted[..|sorted|] == sorted;
    } else {
      EarlierSplits(sorted[..|sorted| - 1], slot);
    }
  }

  lemma SlotFixesRole(a: RoleOutput, b: RoleOutput)
    requires Slot(a) == Slot(b)
    ensures a.step == b.step && a.role == b.role
  {
    SlotIsStepThenRole(a, b);
  }

  // ---- A shield stays ----

  /** More outputs of the same role do not take a shield away. */
  lemma ShieldStays(before: seq<RoleOutput>, more: seq<RoleOutput>, key: string, role: Role, strategy: Strategy)
    requires Shielded(before, key, role, strategy) && forall o :: o in more ==> o.role == role
    ensures Shielded(before + more, key, role, strategy)
  {
    WritesAppend(before, more);
    forall w | w in Writes(more)
      ensures w.role == role
    {
      WritesComeFromOutputs(more, w);
    }
    ShieldKeepsStanding(Writes(before), Writes(more), key, role, strategy);
  }

  // ---- Moving one output forward ----

  ghost predicate MayPass(t: seq<RoleOutput>, i: nat, x: RoleOutput, strategy: Strategy, view: View)
    requires i < |t|
  {
    Slot(t[i]) == Slot(x) && Passes(t[..i], t[i], x, strategy, view)
  }

  ghost predicate MayPassAll(t: seq<RoleOutput>, n: nat, j: nat, x: RoleOutput, strategy: Strategy, view: View)
    requires j <= |t|
  {
    forall i: nat :: n <= i < j ==> MayPass(t, i, x, strategy, view)
  }

  lemma MayStillPass(t: seq<RoleOutput>, u: seq<RoleOutput>, n: nat, j: nat, x: RoleOutput, strategy: Strategy, view: View)
    requires j <= |t| && j <= |u| && t[..j] == u[..j] && MayPassAll(t, n, j, x, strategy, view)
    ensures MayPassAll(u, n, j, x, strategy, view)
  {
    forall i: nat | n <= i < j
      ensures MayPass(u, i, x, strategy, view)
    {
      assert u[..i] == u[..j][..i] == t[..j][..i] == t[..i];
      assert u[i] == u[..j][i] == t[..j][i] == t[i];
      assert MayPass(t, i, x, strategy, view);
    }
  }

  function Exchanged(t: seq<RoleOutput>, j: nat): (u: seq<RoleOutput>)
    requires 0 < j < |t|
    ensures |u| == |t| && u[j - 1] == t[j]
    ensures u[..j - 1] == t[..j - 1]
  {
    t[..j - 1] + [t[j], t[j - 1]] + t[j + 1..]
  }

  lemma SwapKeepsElements<T>(before: seq<T>, a: T, b: T, after: seq<T>)
    ensures multiset(before + [a, b] + after) == multiset(before + [b, a] + after)
  {
    assert multiset([a, b]) == multiset([b, a]);
  }

  lemma SwapIsSame(before: seq<RoleOutput>, a: RoleOutput, b: RoleOutput, after: seq<RoleOutput>, strategy: Strategy, view: View)
    requires SortedByKey(before + [a, b] + after, Slot) && Slot(a) == Slot(b)
    requires Passes(before, a, b, strategy, view)
    ensures SortedByKey(before + [b, a] + after, Slot)
    ensures Alike(Merged(before + [a, b] + after, strategy), Merged(before + [b, a] + after, strategy), view)
  {
    SwappedSorted(before, a, b, after);
    SwapIsAlikeIff(before, a, b, after, strategy, view);
  }

  lemma ExchangeIsSame(t: seq<RoleOutput>, j: nat, strategy: Strategy, view: View)
    requires 0 < j < |t| && SortedByKey(t, Slot) && MayPass(t, j - 1, t[j], strategy, view)
    ensures var u := Exchanged(t, j);
            SortedByKey(u, Slot) && multiset(u) == multiset(t) && Alike(Merged(t, strategy), Merged(u, strategy), view)
  {
    var before, a, b, after := t[..j - 1], t[j - 1], t[j], t[j + 1..];
    assert t == before + [a, b] + after;
    SwapIsSame(before, a, b, after, strategy, view);
    SwapKeepsElements(before, a, b, after);
  }

  /** Another arrangement of t, the same up to n and with x at n, that merges the same. */
  ghost predicate Moved(t: seq<RoleOutput>, u: seq<RoleOutput>, n: nat, x: RoleOutput, strategy: Strategy, view: View) {
    && |u| == |t| && n < |t| && u[..n] == t[..n] && u[n] == x
    && SortedByKey(u, Slot) && multiset(u) == multiset(t)
    && Alike(Merged(t, strategy), Merged(u, strategy), view)
  }

  lemma MovedThrough(t: seq<RoleOutput>, v: seq<RoleOutput>, u: seq<RoleOutput>, n: nat, m: nat,
                     x: RoleOutput, strategy: Strategy, view: View)
    requires n <= m <= |t| == |v| && t[..m] == v[..m] && multiset(v) == multiset(t)
    requires Alike(Merged(t, strategy), Merged(v, strategy), view) && Moved(v, u, n, x, strategy, view)
    ensures Moved(t, u, n, x, strategy, view)
  {
    CutsAgree(t, v, m, n);
    AlikeTransitive(Merged(t, strategy), Merged(v, strategy), Merged(u, strategy), view);
  }

  /** The j-th output moves forward to place n, past outputs of its slot. */
  lemma {:induction false} MoveForward(t: seq<RoleOutput>, n: nat, j: nat, strategy: Strategy, view: View) returns (u: seq<RoleOutput>)
    requires n <= j < |t| && SortedByKey(t, Slot) && MayPassAll(t, n, j, t[j], strategy, view)
    ensures Moved(t, u, n, t[j], strategy, view)
    decreases j
  {
    if j == n {
      u := t;
    } else {
      var v := Exchanged(t, j);
      assert MayPass(t, j - 1, t[j], strategy, view);
      ExchangeIsSame(t, j, strategy, view);
      MayStillPass(t, v, n, j - 1, t[j], strategy, view);
      u := MoveForward(v, n, j - 1, strategy, view);
      MovedThrough(t, v, u, n, j - 1, t[j], strategy, view);
    }
  }

  // ---- The condition ----

  /** Any two outputs of one slot can be exchanged right after the earlier slots. */
  ghost predicate Settled(sorted: seq<RoleOutput>, strategy: Strategy, view: View) {
    forall a, b :: a in sorted && b in sorted && Slot(a) == Slot(b)
                   ==> Passes(Earlier(sorted, Slot(a)), a, b, strategy, view)
  }

  /** These outputs of a's slot can be exchanged with it. */
  ghost predicate AllPass(before: seq<RoleOutput>, more: seq<RoleOutput>, a: RoleOutput, strategy: Strategy, view: View) {
    forall o :: o in more ==> Slot(o) == Slot(a) && Passes(before, o, a, strategy, view)
  }

  ghost predicate AllEarlier(before: seq<RoleOutput>, slot: int) {
    SortedByKey(before, Slot) && forall o :: o in before ==> Slot(o) < slot
  }

  lemma PassedIsUnseen(before: seq<RoleOutput>, more: seq<RoleOutput>, a: RoleOutput, strategy: Strategy)
    requires AllEarlier(before, Slot(a)) && AllPass(before, more, a, strategy, Listed)
    ensures Unseen(before, more, a, strategy)
  {
    forall o | o in more
      ensures o.role == a.role && forall key :: !OrderShows(before, o, a, strategy, key)
    {
      SlotFixesRole(o, a);
      PutTogether(before, o, a, [], Slot(a));
      assert before + [o, a] + [] == before + [o, a];
      forall key { SameListShowsNothing(before, o, a, strategy, key); }
    }
  }

  /** What can be exchanged after the earlier slots still can after more of the same slot. */
  lemma PassesLater(before: seq<RoleOutput>, more: seq<RoleOutput>, a: RoleOutput, b: RoleOutput,
                    strategy: Strategy, view: View)
    requires Slot(a) == Slot(b) && AllEarlier(before, Slot(a)) && Passes(before, a, b, strategy, view)
    requires AllPass(before, more, a, strategy, view) && AllPass(before, more, b, strategy, view)
    ensures Passes(before + more, a, b, strategy, view)
  {
    match view
    case Counted => ShowsNothingLater(before, more, a, b, strategy);
    case Listed =>
      PassedIsUnseen(before, more, a, strategy);
      PassedIsUnseen(before, more, b, strategy);
      SameListLater(before, more, a, b, strategy);
  }

  lemma ShowsNothingLater(before: seq<RoleOutput>, more: seq<RoleOutput>, a: RoleOutput, b: RoleOutput, strategy: Strategy)
    requires Slot(a) == Slot(b) && forall o :: o in more ==> Slot(o) == Slot(a)
    requires forall key :: !OrderShows(before, a, b, strategy, key)
    ensures forall key :: !OrderShows(before + more, a, b, strategy, key)
  {
    forall o | o in more
      ensures o.role == a.role
    {
      SlotFixesRole(o, a);
    }
    forall key
      ensures !OrderShows(before + more, a, b, strategy, key)
    {
      assert !OrderShows(before, a, b, strategy, key);
      if Shielded(before, key, a.role, strategy) {
        ShieldStays(before, more, key, a.role, strategy);
      }
    }
  }

  lemma PrefixIsEarlierPlus(s: seq<RoleOutput>, t: seq<RoleOutput>, n: nat, i: nat)
    requires SortedByKey(s, Slot) && n < |s| && n <= i <= |t| && t[..n] == s[..n]
    requires forall k :: n <= k < i ==> Slot(t[k]) == Slot(s[n])
    ensures var m := |Earlier(s, Slot(s[n]))|;
            && m <= n && t[..i] == Earlier(s, Slot(s[n])) + t[m..i]
            && forall o :: o in t[m..i] ==> o in t && Slot(o) == Slot(s[n])
  {
    var slot := Slot(s[n]);
    var m := |Earlier(s, slot)|;
    EarlierSplits(s, slot);
    CutsAgree(s, t, n, m);
    assert t[..i] == t[..m] + t[m..i];
    assert forall k :: m <= k < n ==> slot <= Slot(s[k]) <= Slot(s[n]);
  }

  lemma CutsAgree<T>(s: seq<T>, t: seq<T>, n: nat, m: nat)
    requires m <= n <= |s| && n <= |t| && s[..n] == t[..n]
    ensures s[..m] == t[..m] && forall k :: 0 <= k < n ==> s[k] == t[k]
  {
    assert s[..m] == s[..n][..m] && t[..m] == t[..n][..m];
    assert forall k :: 0 <= k < n ==> s[k] == s[..n][k] && t[k] == t[..n][k];
  }

  /** In any arrangement that agrees with the sorted one up to n, the n-th output may move
      there from wherever it is. */
  lemma NextMayMove(s: seq<RoleOutput>, t: seq<RoleOutput>, n: nat, j: nat, strategy: Strategy, view: View)
    requires SortedByKey(s, Slot) && SortedByKey(t, Slot) && Settled(s, strategy, view) && multiset(s) == multiset(t)
    requires n < |s| && n <= j < |t| && t[..n] == s[..n] && t[j] == s[n]
    requires Slot(s[n]) <= Slot(t[n])
    ensures MayPassAll(t, n, j, t[j], strategy, view)
  {
    forall i: nat | n <= i < j
      ensures MayPass(t, i, s[n], strategy, view)
    {
      SlotsBetween(t, n, i, j);
      NextMayPass(s, t, n, i, strategy, view);
    }
  }

  lemma SlotsBetween(t: seq<RoleOutput>, n: nat, i: nat, j: nat)
    requires SortedByKey(t, Slot) && n <= i < j < |t|
    ensures Slot(t[n]) <= Slot(t[i]) <= Slot(t[j])
  {
  }

  lemma OneSlotBetween(t: seq<RoleOutput>, n: nat, i: nat, slot: int)
    requires SortedByKey(t, Slot) && n <= i < |t| && slot <= Slot(t[n]) && Slot(t[i]) == slot
    ensures forall k :: n <= k < i ==> Slot(t[k]) == slot
  {
    assert forall k :: n < k < i ==> Slot(t[n]) <= Slot(t[k]) <= Slot(t[i]);
  }

  lemma EarlierIsEarlier(s: seq<RoleOutput>, slot: int)
    requires SortedByKey(s, Slot)
    ensures AllEarlier(Earlier(s, slot), slot)
  {
    var later := LaterOnes(s, slot);
  }

  lemma NextMayPass(s: seq<RoleOutput>, t: seq<RoleOutput>, n: nat, i: nat, strategy: Strategy, view: View)
    requires SortedByKey(s, Slot) && SortedByKey(t, Slot) && Settled(s, strategy, view) && multiset(s) == multiset(t)
    requires n < |s| && n <= i < |t| && t[..n] == s[..n]
    requires Slot(s[n]) <= Slot(t[n]) && Slot(t[i]) == Slot(s[n])
    ensures MayPass(t, i, s[n], strategy, view)
  {
    var x := s[n];
    var before := Earlier(s, Slot(x));
    OneSlotBetween(t, n, i, Slot(x));
    PrefixIsEarlierPlus(s, t, n, i);
    EarlierIsEarlier(s, Slot(x));
    SameElements(s, t, t[i]);
    PassesInside(s, t, t[|before|..i], t[i], x, strategy, view);
  }

  lemma PassesInside(s: seq<RoleOutput>, t: seq<RoleOutput>, more: seq<RoleOutput>, y: RoleOutput, x: RoleOutput,
                     strategy: Strategy, view: View)
    requires multiset(s) == multiset(t) && Settled(s, strategy, view) && AllEarlier(Earlier(s, Slot(x)), Slot(x))
    requires x in s && y in s && Slot(y) == Slot(x) && forall o :: o in more ==> o in t && Slot(o) == Slot(x)
    ensures Passes(Earlier(s, Slot(x)) + more, y, x, strategy, view)
  {
    SlotPasses(s, t, more, y, strategy, view);
    SlotPasses(s, t, more, x, strategy, view);
    PassesLater(Earlier(s, Slot(x)), more, y, x, strategy, view);
  }

  lemma SlotPasses(s: seq<RoleOutput>, t: seq<RoleOutput>, more: seq<RoleOutput>, x: RoleOutput,
                   strategy: Strategy, view: View)
    requires multiset(s) == multiset(t) && Settled(s, strategy, view) && x in s
    requires forall o :: o in more ==> o in t && Slot(o) == Slot(x)
    ensures AllPass(Earlier(s, Slot(x)), more, x, strategy, view)
  {
    forall o | o in more
      ensures Passes(Earlier(s, Slot(x)), o, x, strategy, view)
    {
      SameElements(s, t, o);
    }
  }

  lemma SameTail<T>(s: seq<T>, t: seq<T>, n: nat)
    requires multiset(s) == multiset(t) && n <= |s| && n <= |t| && s[..n] == t[..n]
    ensures multiset(s[n..]) == multiset(t[n..]) && |s| == |t|
  {
    assert s == s[..n] + s[n..] && t == t[..n] + t[n..];
    SameRest(multiset(s[n..]), multiset(t[n..]), multiset(s[..n]));
    assert |multiset(s)| == |s| && |multiset(t)| == |t|;
  }

  lemma SameRest<T>(a: multiset<T>, b: multiset<T>, c: multiset<T>)
    requires c + a == c + b
    ensures a == b
  {
    assert a == (c + a) - c;
  }

  /** Where the next output of s stands in t. */
  lemma NextIsSomewhere(s: seq<RoleOutput>, t: seq<RoleOutput>, n: nat) returns (j: nat)
    requires SortedByKey(s, Slot) && multiset(s) == multiset(t) && n < |s| && n <= |t| && s[..n] == t[..n]
    ensures |s| == |t| && n <= j < |t| && t[j] == s[n] && Slot(s[n]) <= Slot(t[n])
  {
    SameTail(s, t, n);
    SameElements(s[n..], t[n..], s[n..][0]);
    SameElements(s[n..], t[n..], t[n..][0]);
    var k :| 0 <= k < |t[n..]| && t[n..][k] == s[n];
    var i :| 0 <= i < |s[n..]| && s[n..][i] == t[n];
    j := n + k;
  }

  /** The next output of s moved to its place in t. */
  lemma NextInPlace(s: seq<RoleOutput>, t: seq<RoleOutput>, n: nat, strategy: Strategy, view: View)
    returns (u: seq<RoleOutput>)
    requires SortedByKey(s, Slot) && SortedByKey(t, Slot) && Settled(s, strategy, view)
    requires multiset(s) == multiset(t) && n < |s| && n <= |t| && s[..n] == t[..n]
    ensures n < |u| && s[..n + 1] == u[..n + 1] && SortedByKey(u, Slot) && multiset(u) == multiset(s)
    ensures Alike(Merged(t, strategy), Merged(u, strategy), view)
  {
    var j := NextIsSomewhere(s, t, n);
    NextMayMove(s, t, n, j, strategy, view);
    u := MoveForward(t, n, j, strategy, view);
    OneMoreAgrees(s, u, n);
  }

  lemma OneMoreAgrees<T>(s: seq<T>, u: seq<T>, n: nat)
    requires n < |s| && n < |u| && s[..n] == u[..n] && s[n] == u[n]
    ensures s[..n + 1] == u[..n + 1]
  {
    assert s[..n + 1] == s[..n] + [s[n]] && u[..n + 1] == u[..n] + [u[n]];
  }

  lemma AlikeSymmetric(m: Outcome, n: Outcome, view: View)
    ensures Alike(m, n, view) <==> Alike(n, m, view)
  {
  }

  lemma {:induction false} SettledOrdersMerge(s: seq<RoleOutput>, t: seq<RoleOutput>, n: nat, strategy: Strategy, view: View)
    requires SortedByKey(s, Slot) && SortedByKey(t, Slot) && Settled(s, strategy, view)
    requires multiset(s) == multiset(t) && n <= |s| && n <= |t| && s[..n] == t[..n]
    ensures Alike(Merged(s, strategy), Merged(t, strategy), view)
    decreases |s| - n
  {
    if n == |s| {
      SameTail(s, t, n);
      assert s == s[..n] && t == t[..n];
    } else {
      var u := NextInPlace(s, t, n, strategy, view);
      SettledOrdersMerge(s, u, n + 1, strategy, view);
      AlikeSymmetric(Merged(t, strategy), Merged(u, strategy), view);
      AlikeTransitive(Merged(s, strategy), Merged(u, strategy), Merged(t, strategy), view);
    }
  }

  // ---- Two outputs of one slot, put next to each other ----

  lemma WithoutKeepsSorted(s: seq<RoleOutput>, j: nat, slot: int)
    requires j < |s| && SortedByKey(s, Slot) && forall o :: o in s ==> slot <= Slot(o)
    ensures SortedByKey(Without(s, j), Slot) && forall o :: o in Without(s, j) ==> slot <= Slot(o)
  {
    assert forall o :: o in Without(s, j) ==> o in s;
  }

  /** A list with the element at j taken out. */
  function Without<T>(s: seq<T>, j: nat): seq<T>
    requires j < |s|
  {
    s[..j] + s[j + 1..]
  }

  lemma TakenOut<T>(s: seq<T>, j: nat)
    requires j < |s|
    ensures multiset(s) == multiset(Without(s, j)) + multiset{s[j]}
    ensures forall x :: x in s && x != s[j] ==> x in Without(s, j)
  {
    assert s == s[..j] + ([s[j]] + s[j + 1..]);
  }

  /** What is left of the later outputs once a and b are taken out. */
  lemma TwoTakenOut(later: seq<RoleOutput>, a: RoleOutput, b: RoleOutput, slot: int) returns (rest: seq<RoleOutput>)
    requires a in later && b in later && a != b
    requires SortedByKey(later, Slot) && forall o :: o in later ==> slot <= Slot(o)
    ensures SortedByKey(rest, Slot) && forall o :: o in rest ==> slot <= Slot(o)
    ensures multiset(later) == multiset(rest) + multiset{a, b}
  {
    var i :| 0 <= i < |later| && later[i] == a;
    TakenOut(later, i);
    WithoutKeepsSorted(later, i, slot);
    var one := Without(later, i);
    var j :| 0 <= j < |one| && one[j] == b;
    TakenOut(one, j);
    WithoutKeepsSorted(one, j, slot);
    rest := Without(one, j);
  }

  lemma PutTogether(before: seq<RoleOutput>, a: RoleOutput, b: RoleOutput, rest: seq<RoleOutput>, slot: int)
    requires SortedByKey(before, Slot) && SortedByKey(rest, Slot) && Slot(a) == Slot(b) == slot
    requires (forall o :: o in before ==> Slot(o) < slot) && (forall o :: o in rest ==> slot <= Slot(o))
    ensures SortedByKey(before + [a, b] + rest, Slot)
  {
    ConcatSorted(before, [a, b]);
    ConcatSorted(before + [a, b], rest);
  }

  lemma ConcatSorted(s: seq<RoleOutput>, t: seq<RoleOutput>)
    requires SortedByKey(s, Slot) && SortedByKey(t, Slot)
    requires forall o, p :: o in s && p in t ==> Slot(o) <= Slot(p)
    ensures SortedByKey(s + t, Slot)
  {
  }

  /** An arrangement with a and b, of one slot, next to each other. */
  lemma Neighbours(s: seq<RoleOutput>, a: RoleOutput, b: RoleOutput) returns (rest: seq<RoleOutput>)
    requires SortedByKey(s, Slot) && a in s && b in s && a != b && Slot(a) == Slot(b)
    ensures var t := Earlier(s, Slot(a)) + [a, b] + rest; SortedByKey(t, Slot) && multiset(t) == multiset(s)
  {
    var slot := Slot(a);
    var before := Earlier(s, slot);
    var later := LaterOnes(s, slot);
    rest := TwoTakenOut(later, a, b, slot);
    PutTogether(before, a, b, rest, slot);
    SameThree(before, later, rest, a, b);
  }

  lemma LaterOnes(s: seq<RoleOutput>, slot: int) returns (later: seq<RoleOutput>)
    requires SortedByKey(s, Slot)
    ensures var before := Earlier(s, slot);
            && s == before + later && SortedByKey(before, Slot) && SortedByKey(later, Slot)
            && (forall o :: o in before ==> Slot(o) < slot) && (forall o :: o in later ==> slot <= Slot(o))
  {
    EarlierSplits(s, slot);
    later := s[|Earlier(s, slot)|..];
  }

  lemma SameThree<T>(before: seq<T>, later: seq<T>, rest: seq<T>, a: T, b: T)
    requires multiset(later) == multiset(rest) + multiset{a, b}
    ensures multiset(before + [a, b] + rest) == multiset(before + later)
  {
    assert multiset([a, b]) == multiset{a, b};
  }

  /** Every arrival order of these outputs merges alike. */
  ghost predicate OrderNeverShows(outputs: seq<RoleOutput>, strategy: Strategy, view: View) {
    forall shuffled :: multiset(shuffled) == multiset(outputs)
                       ==> Alike(Merged(outputs, strategy), Merged(shuffled, strategy), view)
  }

  lemma NeverShowsMeans(outputs: seq<RoleOutput>, t: seq<RoleOutput>, u: seq<RoleOutput>, strategy: Strategy, view: View)
    requires OrderNeverShows(outputs, strategy, view) && multiset(t) == multiset(outputs) == multiset(u)
    ensures Alike(Merged(t, strategy), Merged(u, strategy), view)
  {
    var l, m, n := Merged(t, strategy), Merged(outputs, strategy), Merged(u, strategy);
    assert Alike(m, l, view) && Alike(m, n, view);
    AlikeTransitive(l, m, n, view);
  }

  lemma NeverShownPasses(outputs: seq<RoleOutput>, s: seq<RoleOutput>, a: RoleOutput, b: RoleOutput,
                         strategy: Strategy, view: View)
    requires SortedByKey(s, Slot) && multiset(s) == multiset(outputs) && OrderNeverShows(outputs, strategy, view)
    requires a in s && b in s && a != b && Slot(a) == Slot(b)
    ensures Passes(Earlier(s, Slot(a)), a, b, strategy, view)
  {
    var before := Earlier(s, Slot(a));
    var rest := Neighbours(s, a, b);
    SwapKeepsElements(before, a, b, rest);
    NeverShowsMeans(outputs, before + [a, b] + rest, before + [b, a] + rest, strategy, view);
    SwapIsAlikeIff(before, a, b, rest, strategy, view);
  }

  /** Any number of outputs merge alike in every arrival order exactly when any two of one
      role in one step can be exchanged right after the earlier slots. */
  lemma OrderShowsIff(outputs: seq<RoleOutput>, strategy: Strategy, view: View)
    ensures OrderNeverShows(outputs, strategy, view) <==> Settled(SortByKey(outputs, Slot), strategy, view)
  {
    var s := SortByKey(outputs, Slot);
    SortIsSorted(outputs, Slot);
    if Settled(s, strategy, view) {
      forall shuffled | multiset(shuffled) == multiset(outputs)
        ensures Alike(Merged(outputs, strategy), Merged(shuffled, strategy), view)
      {
        SettledIgnoresOrder(outputs, shuffled, strategy, view);
      }
    }
    if OrderNeverShows(outputs, strategy, view) {
      forall a, b | a in s && b in s && Slot(a) == Slot(b)
        ensures Passes(Earlier(s, Slot(a)), a, b, strategy, view)
      {
        if a != b {
          NeverShownPasses(outputs, s, a, b, strategy, view);
        }
      }
    }
  }

  lemma SettledIgnoresOrder(outputs: seq<RoleOutput>, shuffled: seq<RoleOutput>, strategy: Strategy, view: View)
    requires multiset(outputs) == multiset(shuffled) && Settled(SortByKey(outputs, Slot), strategy, view)
    ensures Alike(Merged(outputs, strategy), Merged(shuffled, strategy), view)
  {
    var s, t := SortByKey(outputs, Slot), SortByKey(shuffled, Slot);
    SortIsSorted(outputs, Slot);
    SortIsSorted(shuffled, Slot);
    SortOfSorted(s, Slot);
    SortOfSorted(t, Slot);
    SettledOrdersMerge(s, t, 0, strategy, view);
  }

  /** The two outputs disagree on a key that the outputs of earlier slots do not shield. */
  ghost predicate Shows(sorted: seq<RoleOutput>, a: RoleOutput, b: RoleOutput, strategy: Strategy) {
    exists key :: OrderShows(Earlier(sorted, Slot(a)), a, b, strategy, key)
  }

  /** Any number of outputs merge to the same values and the same counted conflicts in every
      arrival order, exactly when, wherever two outputs of one role in one step disagree on
      a key, the outputs of earlier slots leave a value there that this role cannot
      override. */
  lemma ArrivalOrderShowsIff(outputs: seq<RoleOutput>, strategy: Strategy)
    ensures var s := SortByKey(outputs, Slot);
            (forall shuffled :: multiset(shuffled) == multiset(outputs)
                                ==> SameMerge(Merged(outputs, strategy), Merged(shuffled, strategy)))
            <==> forall a, b :: a in s && b in s && Slot(a) == Slot(b) ==> !Shows(s, a, b, strategy)
  {
    var s := SortByKey(outputs, Slot);
    OrderShowsIff(outputs, strategy, Counted);
    assert OrderNeverShows(outputs, strategy, Counted)
           <==> forall shuffled :: multiset(shuffled) == multiset(outputs)
                                   ==> SameMerge(Merged(outputs, strategy), Merged(shuffled, strategy));
    forall a, b
      ensures Passes(Earlier(s, Slot(a)), a, b, strategy, Counted) <==> !Shows(s, a, b, strategy)
    {
    }
  }

  /** They merge to the same outcome, the order of the conflict list included, exactly when
      any two outputs of one role in one step, put right after the outputs of earlier slots,
      record the same list in either order. */
  lemma ConflictOrderShowsIff(outputs: seq<RoleOutput>, strategy: Strategy)
    ensures var s := SortByKey(outputs, Slot);
            (forall shuffled :: multiset(shuffled) == multiset(outputs)
                                ==> Merged(outputs, strategy) == Merged(shuffled, strategy))
            <==> forall a, b :: a in s && b in s && Slot(a) == Slot(b)
                                ==> SameList(Earlier(s, Slot(a)), a, b, strategy)
  {
    OrderShowsIff(outputs, strategy, Listed);
    assert OrderNeverShows(outputs, strategy, Listed)
           <==> forall shuffled :: multiset(shuffled) == multiset(outputs)
                                   ==> Merged(outputs, strategy) == Merged(shuffled, strategy);
  }

  /** In particular when the outputs of one role in one step agree on shared keys, values and
      counted conflicts do not depend on the order. */
  lemma AgreeingSlotsIgnoreArrivalOrder(outputs: seq<RoleOutput>, shuffled: seq<RoleOutput>, strategy: Strategy)
    requires forall o, p :: o in outputs && p in outputs && o.step == p.step && o.role == p.role ==> Agree(o, p)
    requires multiset(shuffled) == multiset(outputs)
    ensures SameMerge(Merged(outputs, strategy), Merged(shuffled, strategy))
  {
    var s := SortByKey(outputs, Slot);
    forall a, b | a in s && b in s && Slot(a) == Slot(b)
      ensures !Shows(s, a, b, strategy)
    {
      SortMember(outputs, Slot, a);
      SortMember(outputs, Slot, b);
      SlotFixesRole(a, b);
      assert Agree(a, b);
    }
    ArrivalOrderShowsIff(outputs, strategy);
  }
}
