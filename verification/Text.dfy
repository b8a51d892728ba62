/** String operations the source takes from its standard library: splitting on a
    separator, joining, and reading and printing decimal numbers. */
module Text {
  import opened Options

  // ---- Splitting ----

  /** The index of the first c in s, or |s| when there is none. */
  function IndexOf(s: string, c: char): (i: nat)
    ensures i <= |s|
    ensures c !in s[..i]
    ensures i < |s| ==> s[i] == c
    ensures c in s <==> i < |s|
  {
    if s == "" then 0
    else if s[0] == c then 0
    else
      var rest := IndexOf(s[1..], c);
      assert s[..rest + 1] == [s[0]] + s[1..][..rest];
      rest + 1
  }

  /** The pieces of s between separators; never empty, and the pieces hold none. */
  function Split(s: string, c: char): (parts: seq<string>)
    ensures |parts| >= 1
    ensures forall p :: p in parts ==> c !in p
    decreases |s|
  {
    var i := IndexOf(s, c);
    if i == |s| then [s] else [s[..i]] + Split(s[i + 1..], c)
  }

  function Join(parts: seq<string>, c: char): string
    requires |parts| >= 1
  {
    if |parts| == 1 then parts[0] else parts[0] + [c] + Join(parts[1..], c)
  }

  lemma {:induction false} JoinSplit(s: string, c: char)
    ensures Join(Split(s, c), c) == s
    decreases |s|
  {
    var i := IndexOf(s, c);
    if i < |s| {
      var rest := s[i + 1..];
      JoinSplit(rest, c);
      JoinCons(s[..i], Split(rest, c), c);
      CutAt(s, i, c);
    }
  }

  lemma JoinCons(p: string, parts: seq<string>, c: char)
    requires |parts| >= 1
    ensures Join([p] + parts, c) == p + [c] + Join(parts, c)
  {
    assert ([p] + parts)[1..] == parts;
  }

  lemma CutAt(s: string, i: nat, c: char)
    requires i < |s| && s[i] == c
    ensures s == s[..i] + [c] + s[i + 1..]
  {
  }

  lemma IndexOfAfter(p: string, c: char, rest: string)
    requires c !in p
    ensures IndexOf(p + [c] + rest, c) == |p|
  {
    var s := p + [c] + rest;
    var i := IndexOf(s, c);
    assert s[|p|] == c;
    assert forall k :: 0 <= k < |p| ==> s[k] == p[k] && p[k] in p;
    assert forall k :: 0 <= k < i ==> s[k] in s[..i];
  }

  lemma SplitHead(p: string, c: char, rest: string)
    requires c !in p
    ensures Split(p + [c] + rest, c) == [p] + Split(rest, c)
  {
    IndexOfAfter(p, c, rest);
    var s := p + [c] + rest;
    assert s[..|p|] == p && s[|p| + 1..] == rest;
  }

  lemma SplitBehind(p: string, tail: string, c: char, rest: string)
    requires c !in p && Split(tail + [c] + rest, c) == Split(tail, c) + Split(rest, c)
    ensures Split(p + [c] + tail + [c] + rest, c) == Split(p + [c] + tail, c) + Split(rest, c)
  {
    var more := tail + [c] + rest;
    Regroup(p + [c], tail, [c], rest);
    SplitHead(p, c, more);
    SplitHead(p, c, tail);
    var x, y := Split(tail, c), Split(rest, c);
    Associates([p], x, y);
  }

  lemma Regroup<T>(a: seq<T>, b: seq<T>, c: seq<T>, d: seq<T>)
    ensures a + b + c + d == a + (b + c + d)
  {
  }

  lemma Associates<T>(a: seq<T>, b: seq<T>, c: seq<T>)
    ensures a + (b + c) == (a + b) + c
  {
  }

  lemma {:induction false} SplitAppend(s: string, c: char, rest: string)
    ensures Split(s + [c] + rest, c) == Split(s, c) + Split(rest, c)
    decreases |s|
  {
    var i := IndexOf(s, c);
    if i == |s| {
      SplitHead(s, c, rest);
    } else {
      var p, tail := s[..i], s[i + 1..];
      SplitAppend(tail, c, rest);
      SplitBehind(p, tail, c, rest);
      CutAt(s, i, c);
    }
  }

  // ---- Decimal numbers ----

  predicate IsDigit(c: char) {
    '0' <= c <= '9'
  }

  predicate AllDigits(s: string) {
    forall c :: c in s ==> IsDigit(c)
  }

  function DigitValue(c: char): (d: nat)
    requires IsDigit(c)
    ensures d <= 9
  {
    c as nat - '0' as nat
  }

  function DigitChar(d: nat): (c: char)
    requires d <= 9
    ensures IsDigit(c) && DigitValue(c) == d
  {
    ('0' as nat + d) as char
  }

  /** The number a digit string denotes; any length, leading zeros allowed. */
  function Value(s: string): nat
    requires AllDigits(s)
  {
    if s == "" then 0
    else
      assert forall c :: c in s[..|s| - 1] ==> c in s;
      10 * Value(s[..|s| - 1]) + DigitValue(s[|s| - 1])
  }

  function Decimal(n: nat): (s: string)
    ensures s != "" && AllDigits(s)
    ensures n > 0 ==> s[0] != '0'
    ensures n == 0 ==> s == "0"
  {
    if n < 10 then [DigitChar(n)] else Decimal(n / 10) + [DigitChar(n % 10)]
  }

  lemma {:induction false} ValueDecimal(n: nat)
    ensures Value(Decimal(n)) == n
  {
    if n < 10 {
      assert Decimal(n)[..0] == "";
    } else {
      ValueDecimal(n / 10);
      assert Decimal(n)[..|Decimal(n)| - 1] == Decimal(n / 10);
    }
  }

  lemma ValuePositive(s: string)
    requires AllDigits(s) && s != "" && s[0] != '0'
    ensures Value(s) > 0
  {
    if |s| > 1 {
      ValuePositive(s[..|s| - 1]);
    } else {
      assert Value(s[..0]) == 0;
    }
  }

  /** A digit string is printed back exactly when it has no leading zero. */
  lemma {:induction false} DecimalValue(s: string)
    requires AllDigits(s) && s != ""
    ensures Decimal(Value(s)) == s <==> s == "0" || s[0] != '0'
  {
    var init, last := s[..|s| - 1], s[|s| - 1];
    assert s == init + [last];
    assert AllDigits(init) by { assert forall c :: c in init ==> c in s; }
    assert DigitChar(DigitValue(last)) == last;
    if init == "" {
      assert Value(init) == 0;
    } else {
      DecimalValue(init);
      if s[0] != '0' {
        ValuePositive(init);
        assert Value(s) / 10 == Value(init) && Value(s) % 10 == DigitValue(last);
      } else {
        assert Value(s) > 0 ==> Decimal(Value(s))[0] != s[0];
        assert |s| > 1;
      }
    }
  }

  // ---- Unsigned 64-bit parsing ----

  const U64_LIMIT: nat := 0x1_0000_0000_0000_0000

  /** Rust's `str::parse::<u64>`: an optional plus sign, then one or more digits
      whose value fits. */
  function ParseU64(s: string): (r: Option<nat>)
    ensures r.Some? ==> r.value < U64_LIMIT
  {
    var digits := if s != "" && s[0] == '+' then s[1..] else s;
    if digits == "" || !AllDigits(digits) || Value(digits) >= U64_LIMIT then None
    else Some(Value(digits))
  }

  lemma ParseDecimal(n: nat)
    ensures ParseU64(Decimal(n)) == if n < U64_LIMIT then Some(n) else None
  {
    ValueDecimal(n);
    assert Decimal(n)[0] in Decimal(n);
  }
}
