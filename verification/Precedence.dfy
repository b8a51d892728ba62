/** Version precedence: what section 11 of Semantic Versioning 2.0.0 compares, as
    an order on keys. This is the reference the comparison code is proved against. */
module Precedence {
  import opened Options
  import opened Ordered

  datatype Ordering = Lt | Eq | Gt
  {
    function Reverse(): Ordering {
      match this
      case Lt => Gt
      case Eq => Eq
      case Gt => Lt
    }

    function Then(next: Ordering): Ordering {
      if Eq? then next else this
    }
  }

  function CompareNat(a: nat, b: nat): Ordering {
    if a < b then Lt else if a == b then Eq else Gt
  }

  function CompareText(a: string, b: string): Ordering {
    if a == b then Eq else if Less(a, b) then Lt else Gt
  }

  lemma CompareTextIsOrder(a: string, b: string, c: string)
    ensures CompareText(b, a) == CompareText(a, b).Reverse()
    ensures CompareText(a, b) == Lt && CompareText(b, c) == Lt ==> CompareText(a, c) == Lt
  {
    LessTotal(a, b);
    LessIrreflexive(a);
    if Less(a, b) && Less(b, a) {
      LessTransitive(a, b, a);
    }
    if Less(a, b) && Less(b, c) {
      LessTransitive(a, b, c);
    }
  }

  /** A pre-release identifier: a number of any size, or a word. */
  datatype Identifier = Number(value: nat) | Word(text: string)

  function CompareIdentifiers(a: Identifier, b: Identifier): Ordering {
    match (a, b)
    case (Number(m), Number(n)) => CompareNat(m, n)
    case (Number(_), Word(_)) => Lt
    case (Word(_), Number(_)) => Gt
    case (Word(s), Word(t)) => CompareText(s, t)
  }

  lemma CompareIdentifiersIsOrder(a: Identifier, b: Identifier, c: Identifier)
    ensures CompareIdentifiers(a, b) == Eq <==> a == b
    ensures CompareIdentifiers(b, a) == CompareIdentifiers(a, b).Reverse()
    ensures CompareIdentifiers(a, b) == Lt && CompareIdentifiers(b, c) == Lt ==> CompareIdentifiers(a, c) == Lt
  {
    if a.Word? && b.Word? {
      CompareTextIsOrder(a.text, b.text, if c.Word? then c.text else "");
    }
  }

  /** Identifier by identifier; when one list runs out first, it is the lower. */
  function CompareLists(a: seq<Identifier>, b: seq<Identifier>): Ordering {
    if a == [] && b == [] then Eq
    else if a == [] then Lt
    else if b == [] then Gt
    else CompareIdentifiers(a[0], b[0]).Then(CompareLists(a[1..], b[1..]))
  }

  lemma {:induction false} CompareListsIsOrder(a: seq<Identifier>, b: seq<Identifier>, c: seq<Identifier>)
    ensures CompareLists(a, b) == Eq <==> a == b
    ensures CompareLists(b, a) == CompareLists(a, b).Reverse()
    ensures CompareLists(a, b) == Lt && CompareLists(b, c) == Lt ==> CompareLists(a, c) == Lt
  {
    if a != [] && b != [] {
      CompareListsIsOrder(a[1..], b[1..], if c == [] then [] else c[1..]);
      CompareIdentifiersIsOrder(a[0], b[0], if c == [] then a[0] else c[0]);
      assert a == [a[0]] + a[1..] && b == [b[0]] + b[1..];
      if c != [] {
        CompareIdentifiersIsOrder(b[0], c[0], a[0]);
      }
    }
  }

  /** The lists agree up to n, where the first one ends or has the lower identifier. */
  predicate LowerAt(a: seq<Identifier>, b: seq<Identifier>, n: int) {
    0 <= n <= |a| && n < |b| && a[..n] == b[..n] && (n == |a| || CompareIdentifiers(a[n], b[n]) == Lt)
  }

  /** A list comes before its extensions, and otherwise the first difference decides. */
  lemma {:induction false} LowerIff(a: seq<Identifier>, b: seq<Identifier>)
    ensures CompareLists(a, b) == Lt <==> exists n :: LowerAt(a, b, n)
  {
    if b != [] && (a == [] || a[0] != b[0]) {
      LowerAtStart(a, b);
    } else if b != [] {
      LowerIff(a[1..], b[1..]);
      LowerFurtherOn(a, b);
      CompareIdentifiersIsOrder(a[0], b[0], b[0]);
    }
  }

  lemma SameHeads<T>(a: seq<T>, b: seq<T>, n: nat)
    requires 0 < n <= |a| && n <= |b| && a[..n] == b[..n]
    ensures a[0] == b[0]
  {
    assert a[0] == a[..n][0] && b[0] == b[..n][0];
  }

  lemma LowerAtStart(a: seq<Identifier>, b: seq<Identifier>)
    requires b != [] && (a == [] || a[0] != b[0])
    ensures (exists n :: LowerAt(a, b, n)) <==> a == [] || CompareIdentifiers(a[0], b[0]) == Lt
    ensures a != [] ==> CompareIdentifiers(a[0], b[0]) != Eq
  {
    if a == [] || CompareIdentifiers(a[0], b[0]) == Lt {
      assert LowerAt(a, b, 0);
    }
    forall n | LowerAt(a, b, n)
      ensures n == 0
    {
      if n > 0 {
        SameHeads(a, b, n);
      }
    }
    if a != [] {
      CompareIdentifiersIsOrder(a[0], b[0], b[0]);
    }
  }

  lemma LowerFurtherOn(a: seq<Identifier>, b: seq<Identifier>)
    requires a != [] && b != [] && a[0] == b[0]
    ensures (exists n :: LowerAt(a, b, n)) <==> exists n :: LowerAt(a[1..], b[1..], n)
  {
    forall n | LowerAt(a[1..], b[1..], n)
      ensures LowerAt(a, b, n + 1)
    {
      assert a[..n + 1] == [a[0]] + a[1..][..n] && b[..n + 1] == [b[0]] + b[1..][..n];
    }
    CompareIdentifiersIsOrder(a[0], b[0], b[0]);
    forall n | LowerAt(a, b, n)
      ensures LowerAt(a[1..], b[1..], n - 1)
    {
      assert a[1..][..n - 1] == a[..n][1..] && b[1..][..n - 1] == b[..n][1..];
    }
  }

  /** A version as precedence sees it; no pre-release list means a release. */
  datatype Key = Key(major: nat, minor: nat, patch: nat, pre: Option<seq<Identifier>>)

  function ComparePre(a: Option<seq<Identifier>>, b: Option<seq<Identifier>>): Ordering {
    match (a, b)
    case (None, None) => Eq
    case (Some(_), None) => Lt
    case (None, Some(_)) => Gt
    case (Some(x), Some(y)) => CompareLists(x, y)
  }

  function CompareKeys(a: Key, b: Key): Ordering {
    CompareNat(a.major, b.major)
      .Then(CompareNat(a.minor, b.minor)
      .Then(CompareNat(a.patch, b.patch)
      .Then(ComparePre(a.pre, b.pre))))
  }

  lemma ComparePreIsOrder(a: Option<seq<Identifier>>, b: Option<seq<Identifier>>, c: Option<seq<Identifier>>)
    ensures ComparePre(a, b) == Eq <==> a == b
    ensures ComparePre(b, a) == ComparePre(a, b).Reverse()
    ensures ComparePre(a, b) == Lt && ComparePre(b, c) == Lt ==> ComparePre(a, c) == Lt
  {
    if a.Some? && b.Some? {
      CompareListsIsOrder(a.value, b.value, if c.Some? then c.value else []);
    }
  }

  /** Precedence is a strict total order on keys. */
  lemma CompareKeysIsOrder(a: Key, b: Key, c: Key)
    ensures CompareKeys(a, b) == Eq <==> a == b
    ensures CompareKeys(b, a) == CompareKeys(a, b).Reverse()
    ensures CompareKeys(a, b) == Lt && CompareKeys(b, c) == Lt ==> CompareKeys(a, c) == Lt
  {
    ComparePreIsOrder(a.pre, b.pre, c.pre);
    ComparePreIsOrder(b.pre, c.pre, a.pre);
  }
}
