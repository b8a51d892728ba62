/** The byte order of strings, and the sorted key list of an ordered map. Code
    points compare the way their UTF-8 bytes do. */
module Ordered {

  predicate Less(a: string, b: string) {
    if b == "" then false
    else if a == "" then true
    else a[0] < b[0] || (a[0] == b[0] && Less(a[1..], b[1..]))
  }

  lemma {:induction false} LessIrreflexive(a: string)
    ensures !Less(a, a)
  {
    if a != "" {
      LessIrreflexive(a[1..]);
    }
  }

  lemma {:induction false} LessTransitive(a: string, b: string, c: string)
    requires Less(a, b) && Less(b, c)
    ensures Less(a, c)
  {
    if a != "" && a[0] == b[0] && b[0] == c[0] {
      LessTransitive(a[1..], b[1..], c[1..]);
    }
  }

  lemma {:induction false} LessTotal(a: string, b: string)
    ensures a == b || Less(a, b) || Less(b, a)
  {
    if a != "" && b != "" && a[0] == b[0] {
      LessTotal(a[1..], b[1..]);
      if a[1..] == b[1..] {
        assert a == [a[0]] + a[1..] && b == [b[0]] + b[1..];
      }
    }
  }

  /** The texts agree up to n, where the first one ends or has the lower character. */
  predicate DiffersAt(a: string, b: string, n: int) {
    0 <= n <= |a| && n < |b| && a[..n] == b[..n] && (n == |a| || a[n] < b[n])
  }

  /** A text comes before its extensions, and otherwise the first difference decides. */
  lemma {:induction false} LessIff(a: string, b: string)
    ensures Less(a, b) <==> exists n :: DiffersAt(a, b, n)
  {
    if b != "" {
      if a == "" || a[0] < b[0] {
        assert DiffersAt(a, b, 0);
      } else if a[0] == b[0] {
        LessIff(a[1..], b[1..]);
        forall n | DiffersAt(a[1..], b[1..], n)
          ensures DiffersAt(a, b, n + 1)
        {
          assert a[..n + 1] == [a[0]] + a[1..][..n] && b[..n + 1] == [b[0]] + b[1..][..n];
        }
        forall n | DiffersAt(a, b, n)
          ensures DiffersAt(a[1..], b[1..], n - 1)
        {
          assert a[1..][..n - 1] == a[..n][1..] && b[1..][..n - 1] == b[..n][1..];
        }
      } else {
        assert forall n :: n > 0 && DiffersAt(a, b, n) ==> a[..n][0] == b[..n][0];
      }
    }
  }

  predicate IsLeast(x: string, keys: set<string>) {
    x in keys && forall y :: y in keys && y != x ==> Less(x, y)
  }

  lemma {:induction false} LeastExists(keys: set<string>)
    requires keys != {}
    ensures exists x :: IsLeast(x, keys)
    decreases |keys|
  {
    var k :| k in keys;
    var rest := keys - {k};
    if rest == {} {
      assert keys == {k};
      assert IsLeast(k, keys);
    } else {
      LeastExists(rest);
      var x :| IsLeast(x, rest);
      LessTotal(k, x);
      if Less(k, x) {
        forall y | y in keys && y != k
          ensures Less(k, y)
        {
          if y != x {
            LessTransitive(k, x, y);
          }
        }
        assert IsLeast(k, keys);
      } else {
        assert IsLeast(x, keys);
      }
    }
  }

  lemma LeastUnique(keys: set<string>)
    ensures forall x, y :: IsLeast(x, keys) && IsLeast(y, keys) ==> x == y
  {
    forall x, y | IsLeast(x, keys) && IsLeast(y, keys)
      ensures x == y
    {
      if x != y {
        LessTransitive(x, y, x);
        LessIrreflexive(x);
      }
    }
  }

  ghost predicate StrictlySorted(s: seq<string>) {
    forall i, j :: 0 <= i < j < |s| ==> Less(s[i], s[j])
  }

  /** The keys of an ordered map, in iteration order. */
  function SortedKeys(keys: set<string>): (s: seq<string>)
    ensures StrictlySorted(s)
    ensures forall k :: k in s <==> k in keys
    ensures |s| == |keys|
    decreases |keys|
  {
    if keys == {} then []
    else
      LeastExists(keys);
      LeastUnique(keys);
      var x :| IsLeast(x, keys);
      var rest := SortedKeys(keys - {x});
      assert keys == {x} + (keys - {x});
      assert forall i :: 0 <= i < |rest| ==> rest[i] in rest;
      [x] + rest
  }

  lemma HeadNotInTail(s: seq<string>)
    requires StrictlySorted(s) && s != []
    ensures s[0] !in s[1..]
  {
    forall i | 0 <= i < |s| - 1
      ensures s[1..][i] != s[0]
    {
      assert Less(s[0], s[i + 1]);
      LessIrreflexive(s[0]);
    }
  }

  lemma SameHead(s: seq<string>, t: seq<string>)
    requires StrictlySorted(s) && StrictlySorted(t) && s != [] && t != []
    requires s[0] in t && t[0] in s
    ensures s[0] == t[0]
  {
    if s[0] != t[0] {
      LessTransitive(s[0], t[0], s[0]);
      LessIrreflexive(s[0]);
    }
  }

  /** A strictly sorted list is determined by its elements. */
  lemma {:induction false} SortedUnique(s: seq<string>, t: seq<string>)
    requires StrictlySorted(s) && StrictlySorted(t)
    requires forall k :: k in s <==> k in t
    ensures s == t
  {
    assert s != [] ==> s[0] in s;
    assert t != [] ==> t[0] in t;
    if s != [] && t != [] {
      SameHead(s, t);
      HeadNotInTail(s);
      HeadNotInTail(t);
      assert s == [s[0]] + s[1..] && t == [t[0]] + t[1..];
      assert forall k :: k in s <==> k == s[0] || k in s[1..];
      assert forall k :: k in t <==> k == t[0] || k in t[1..];
      SortedUnique(s[1..], t[1..]);
    }
  }

  // ---- Picking members in order ----

  /** The members of a sorted list that were picked so far, still sorted. */
  ghost predicate PickedSoFar(picked: seq<string>, keys: seq<string>, i: nat, chosen: set<string>)
    requires i <= |keys|
  {
    StrictlySorted(picked) && forall p :: p in picked <==> p in keys[..i] && p in chosen
  }

  lemma PickNext(picked: seq<string>, keys: seq<string>, i: nat, chosen: set<string>)
    requires i < |keys| && StrictlySorted(keys) && PickedSoFar(picked, keys, i, chosen)
    ensures PickedSoFar(if keys[i] in chosen then picked + [keys[i]] else picked, keys, i + 1, chosen)
  {
    assert keys[..i + 1] == keys[..i] + [keys[i]];
    forall k | 0 <= k < |picked|
      ensures Less(picked[k], keys[i])
    {
      assert picked[k] in keys[..i];
    }
  }

  lemma PickedAll(picked: seq<string>, keys: seq<string>, chosen: set<string>)
    requires PickedSoFar(picked, keys, |keys|, chosen) && forall p :: p in chosen ==> p in keys
    ensures picked == SortedKeys(chosen)
  {
    assert keys[..|keys|] == keys;
    SortedUnique(picked, SortedKeys(chosen));
  }
}
