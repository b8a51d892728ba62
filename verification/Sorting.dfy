/** Stable sorting by an integer key, as Rust's `sort_by_key` does it. */
module Sorting {

  function InsertSorted<T>(s: seq<T>, x: T, key: T -> int): (r: seq<T>)
    ensures |r| == |s| + 1
  {
    if s == [] || key(s[|s| - 1]) <= key(x) then s + [x]
    else InsertSorted(s[..|s| - 1], x, key) + [s[|s| - 1]]
  }

  function SortByKey<T>(s: seq<T>, key: T -> int): (r: seq<T>)
    ensures |r| == |s|
  {
    if s == [] then [] else InsertSorted(SortByKey(s[..|s| - 1], key), s[|s| - 1], key)
  }

  ghost predicate SortedByKey<T>(s: seq<T>, key: T -> int) {
    forall i, j :: 0 <= i < j < |s| ==> key(s[i]) <= key(s[j])
  }

  lemma {:induction false} InsertKeepsElements<T>(s: seq<T>, x: T, key: T -> int)
    ensures multiset(InsertSorted(s, x, key)) == multiset(s) + multiset{x}
  {
    if !(s == [] || key(s[|s| - 1]) <= key(x)) {
      InsertKeepsElements(s[..|s| - 1], x, key);
      assert s == s[..|s| - 1] + [s[|s| - 1]];
    }
  }

  lemma InElements<T>(s: seq<T>, x: T)
    ensures x in s <==> x in multiset(s)
  {
  }

  lemma AppendKeepsSorted<T>(s: seq<T>, x: T, key: T -> int)
    requires SortedByKey(s, key) && forall y :: y in s ==> key(y) <= key(x)
    ensures SortedByKey(s + [x], key)
  {
  }

  lemma {:induction false} InsertKeepsSorted<T>(s: seq<T>, x: T, key: T -> int)
    requires SortedByKey(s, key)
    ensures SortedByKey(InsertSorted(s, x, key), key)
  {
    if s == [] || key(s[|s| - 1]) <= key(x) {
      AppendKeepsSorted(s, x, key);
    } else {
      var init, last := s[..|s| - 1], s[|s| - 1];
      InsertKeepsSorted(init, x, key);
      InsertKeepsElements(init, x, key);
      var r := InsertSorted(init, x, key);
      forall y | y in r
        ensures key(y) <= key(last)
      {
        assert y in multiset(r);
        assert y in init || y == x;
      }
      AppendKeepsSorted(r, last, key);
    }
  }

  /** Sorting rearranges and orders. */
  lemma {:induction false} SortIsSorted<T>(s: seq<T>, key: T -> int)
    ensures multiset(SortByKey(s, key)) == multiset(s)
    ensures SortedByKey(SortByKey(s, key), key)
  {
    if s != [] {
      var init, last := s[..|s| - 1], s[|s| - 1];
      SortIsSorted(init, key);
      InsertKeepsElements(SortByKey(init, key), last, key);
      InsertKeepsSorted(SortByKey(init, key), last, key);
      assert s == init + [last];
    }
  }

  lemma SortMember<T>(s: seq<T>, key: T -> int, x: T)
    ensures x in SortByKey(s, key) <==> x in s
  {
    SortIsSorted(s, key);
    InElements(SortByKey(s, key), x);
    InElements(s, x);
  }

  lemma {:induction false} SortOfSorted<T>(s: seq<T>, key: T -> int)
    requires SortedByKey(s, key)
    ensures SortByKey(s, key) == s
  {
    if s != [] {
      var init, last := s[..|s| - 1], s[|s| - 1];
      assert SortedByKey(init, key);
      SortOfSorted(init, key);
      assert init == [] || key(init[|init| - 1]) <= key(last);
      assert s == init + [last];
    }
  }

  // ---- Stability ----

  function WithKey<T>(s: seq<T>, k: int, key: T -> int): seq<T> {
    if s == [] then []
    else WithKey(s[..|s| - 1], k, key) + if key(s[|s| - 1]) == k then [s[|s| - 1]] else []
  }

  lemma {:induction false} InsertIsStable<T>(s: seq<T>, x: T, k: int, key: T -> int)
    requires SortedByKey(s, key)
    ensures WithKey(InsertSorted(s, x, key), k, key) == WithKey(s, k, key) + if key(x) == k then [x] else []
  {
    if s == [] || key(s[|s| - 1]) <= key(x) {
      assert (s + [x])[..|s|] == s;
    } else {
      var init, last := s[..|s| - 1], s[|s| - 1];
      var r := InsertSorted(init, x, key);
      InsertIsStable(init, x, k, key);
      assert (r + [last])[..|r|] == r;
    }
  }

  /** Elements with equal keys keep their order. */
  lemma {:induction false} SortIsStable<T>(s: seq<T>, k: int, key: T -> int)
    ensures WithKey(SortByKey(s, key), k, key) == WithKey(s, k, key)
  {
    if s != [] {
      var init, last := s[..|s| - 1], s[|s| - 1];
      SortIsStable(init, k, key);
      SortIsSorted(init, key);
      InsertIsStable(SortByKey(init, key), last, k, key);
    }
  }

  // ---- When equal keys mean equal elements, the result does not depend on the input order ----

  ghost predicate DistinctKeys<T>(s: seq<T>, key: T -> int) {
    forall i, j :: 0 <= i < j < |s| ==> key(s[i]) != key(s[j])
  }

  ghost predicate KeysIdentify<T>(s: seq<T>, key: T -> int) {
    forall x, y :: x in s && y in s && key(x) == key(y) ==> x == y
  }

  lemma SameElements<T>(s: seq<T>, t: seq<T>, x: T)
    requires multiset(s) == multiset(t)
    ensures x in s <==> x in t
  {
    InElements(s, x);
    InElements(t, x);
  }

  lemma SameLast<T>(s: seq<T>, t: seq<T>, key: T -> int)
    requires multiset(s) == multiset(t) && s != [] && t != []
    requires SortedByKey(s, key) && SortedByKey(t, key) && KeysIdentify(s, key)
    ensures s[|s| - 1] == t[|t| - 1]
  {
    var x, y := s[|s| - 1], t[|t| - 1];
    SameElements(s, t, x);
    SameElements(s, t, y);
    var i :| 0 <= i < |s| && s[i] == y;
    var j :| 0 <= j < |t| && t[j] == x;
    assert key(x) == key(y);
  }

  lemma {:induction false} SortedListsCoincide<T>(s: seq<T>, t: seq<T>, key: T -> int)
    requires multiset(s) == multiset(t)
    requires SortedByKey(s, key) && SortedByKey(t, key) && KeysIdentify(s, key)
    ensures s == t
  {
    assert |s| == |multiset(s)| && |t| == |multiset(t)|;
    if s != [] {
      SameLast(s, t, key);
      var s0, t0, x := s[..|s| - 1], t[..|t| - 1], s[|s| - 1];
      SameInit(s0, t0, x, s, t);
      SortedListsCoincide(s0, t0, key);
    }
  }

  lemma SplitLast<T>(s: seq<T>, x: T)
    ensures multiset(s + [x]) - multiset{x} == multiset(s)
  {
  }

  lemma SameInit<T>(s0: seq<T>, t0: seq<T>, x: T, s: seq<T>, t: seq<T>)
    requires s != [] && t != [] && s0 == s[..|s| - 1] && t0 == t[..|t| - 1]
    requires x == s[|s| - 1] == t[|t| - 1] && multiset(s) == multiset(t)
    ensures s == s0 + [x] && t == t0 + [x] && multiset(s0) == multiset(t0)
  {
    assert s == s0 + [x] && t == t0 + [x];
    SplitLast(s0, x);
    SplitLast(t0, x);
  }

  /** Sorting any rearrangement of a list in which equal keys mean equal elements gives the
      same list. */
  lemma SortIgnoresInputOrder<T>(s: seq<T>, t: seq<T>, key: T -> int)
    requires multiset(s) == multiset(t) && KeysIdentify(s, key)
    ensures SortByKey(s, key) == SortByKey(t, key)
  {
    SortIsSorted(s, key);
    SortIsSorted(t, key);
    forall x | x in SortByKey(s, key)
      ensures x in s
    {
      SortMember(s, key, x);
    }
    SortedListsCoincide(SortByKey(s, key), SortByKey(t, key), key);
  }

  lemma DistinctKeysIdentify<T>(s: seq<T>, key: T -> int)
    requires DistinctKeys(s, key)
    ensures KeysIdentify(s, key)
  {
    forall x, y | x in s && y in s && key(x) == key(y)
      ensures x == y
    {
      var i :| 0 <= i < |s| && s[i] == x;
      var j :| 0 <= j < |s| && s[j] == y;
      assert i == j;
    }
  }
}
