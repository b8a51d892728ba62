/** Reading versions and comparing them without machine integers. */
module Semver {
  import opened Options
  import opened Ordered
  import opened Text
  import opened Precedence

  datatype Version = Version(major: nat, minor: nat, patch: nat, pre: Option<string>)

  /** Three numbers between dots. */
  function ParseCore(core: string, pre: Option<string>): Option<Version> {
    var parts := Split(core, '.');
    if |parts| != 3 then None
    else
      match (ParseU64(parts[0]), ParseU64(parts[1]), ParseU64(parts[2]))
      case (Some(major), Some(minor), Some(patch)) => Some(Version(major, minor, patch, pre))
      case _ => None
  }

  /** A dash followed by nothing is not a pre-release; the whole text is then the core. */
  function Parse(input: string): Option<Version> {
    var i := IndexOf(input, '-');
    if i < |input| && input[i + 1..] != "" then ParseCore(input[..i], Some(input[i + 1..]))
    else ParseCore(input, None)
  }

  // ---- Reading back what is written ----

  function Dotted(a: string, b: string, c: string): string {
    a + ['.'] + (b + ['.'] + c)
  }

  function Print(v: Version): string {
    Dotted(Decimal(v.major), Decimal(v.minor), Decimal(v.patch)) + Suffix(v.pre)
  }

  /** A version as it is written. */
  lemma WrittenAs(v: Version)
    ensures Print(v) == Decimal(v.major) + "." + Decimal(v.minor) + "." + Decimal(v.patch)
                        + if v.pre.Some? then "-" + v.pre.value else ""
  {
    var (a, b, c) := (Decimal(v.major), Decimal(v.minor), Decimal(v.patch));
    assert a + "." + b + "." + c == Dotted(a, b, c);
  }

  lemma ParseDotted(a: string, b: string, c: string, pre: Option<string>)
    requires '.' !in a && '.' !in b && '.' !in c
    ensures ParseCore(Dotted(a, b, c), pre)
            == match (ParseU64(a), ParseU64(b), ParseU64(c))
               case (Some(major), Some(minor), Some(patch)) => Some(Version(major, minor, patch, pre))
               case _ => None
  {
    SplitDotted(a, b, c);
  }

  lemma SplitDotted(a: string, b: string, c: string)
    requires '.' !in a && '.' !in b && '.' !in c
    ensures Split(Dotted(a, b, c), '.') == [a, b, c]
  {
    SplitHead(a, '.', b + ['.'] + c);
    SplitHead(b, '.', c);
    assert Split(c, '.') == [c];
  }

  lemma ParseWithPre(core: string, pre: string)
    requires '-' !in core && pre != ""
    ensures Parse(core + ['-'] + pre) == ParseCore(core, Some(pre))
  {
    var text := core + ['-'] + pre;
    IndexOfAfter(core, '-', pre);
    assert text[..|core|] == core && text[|core| + 1..] == pre;
  }

  lemma ParseWithoutPre(core: string)
    requires '-' !in core
    ensures Parse(core) == ParseCore(core, None)
    ensures Parse(core + ['-']) == ParseCore(core + ['-'], None)
  {
    var text := core + ['-'];
    IndexOfAfter(core, '-', "");
    assert core + ['-'] + "" == text;
    assert text[|core| + 1..] == "";
  }

  lemma NoSuchDigit(n: nat, c: char)
    requires !IsDigit(c)
    ensures c !in Decimal(n)
  {
  }

  lemma NoDashInDotted(a: string, b: string, c: string)
    requires '-' !in a && '-' !in b && '-' !in c
    ensures '-' !in Dotted(a, b, c)
  {
  }

  lemma TrailingDashIsNoNumber(digits: string)
    requires digits != ""
    ensures ParseU64(digits + ['-']) == None
  {
    var text := digits + ['-'];
    assert text[|digits|] == '-' && text[1..][|digits| - 1] == '-';
  }

  predicate IsPlain(s: string) {
    s != "" && '.' !in s && '-' !in s
  }

  function Suffix(pre: Option<string>): string {
    match pre
    case None => ""
    case Some(p) => ['-'] + p
  }

  lemma ParsePlain(a: string, b: string, c: string)
    requires IsPlain(a) && IsPlain(b) && IsPlain(c)
    ensures Parse(Dotted(a, b, c) + Suffix(None)) == ParseCore(Dotted(a, b, c), None)
  {
    NoDashInDotted(a, b, c);
    ParseWithoutPre(Dotted(a, b, c));
    assert Dotted(a, b, c) + Suffix(None) == Dotted(a, b, c);
  }

  lemma ParseEmptyPre(a: string, b: string, c: string)
    requires IsPlain(a) && IsPlain(b) && IsPlain(c)
    ensures Parse(Dotted(a, b, c) + Suffix(Some(""))) == None
  {
    var core := Dotted(a, b, c);
    NoDashInDotted(a, b, c);
    ParseWithoutPre(core);
    TrailingDashIsNoNumber(c);
    ParseDotted(a, b, c + ['-'], None);
    DashJoinsThePatch(a, b, c);
    assert core + Suffix(Some("")) == core + ['-'];
  }

  lemma DashJoinsThePatch(a: string, b: string, c: string)
    ensures Dotted(a, b, c) + ['-'] == Dotted(a, b, c + ['-'])
  {
    assert b + ['.'] + c + ['-'] == b + ['.'] + (c + ['-']);
  }

  lemma ParsePre(a: string, b: string, c: string, p: string)
    requires IsPlain(a) && IsPlain(b) && IsPlain(c) && p != ""
    ensures Parse(Dotted(a, b, c) + Suffix(Some(p))) == ParseCore(Dotted(a, b, c), Some(p))
  {
    NoDashInDotted(a, b, c);
    ParseWithPre(Dotted(a, b, c), p);
    Associates(Dotted(a, b, c), ['-'], p);
  }

  lemma DecimalIsPlain(n: nat)
    ensures IsPlain(Decimal(n))
  {
    NoSuchDigit(n, '.');
    NoSuchDigit(n, '-');
  }

  lemma ParseParts(a: string, b: string, c: string, pre: Option<string>)
    requires IsPlain(a) && IsPlain(b) && IsPlain(c)
    ensures Parse(Dotted(a, b, c) + Suffix(pre))
            == match (ParseU64(a), ParseU64(b), ParseU64(c))
               case (Some(major), Some(minor), Some(patch)) =>
                 if pre == Some("") then None else Some(Version(major, minor, patch, pre))
               case _ => None
  {
    ParseDotted(a, b, c, pre);
    match pre
    case None => ParsePlain(a, b, c);
    case Some(p) =>
      if p == "" {
        ParseEmptyPre(a, b, c);
      } else {
        ParsePre(a, b, c, p);
      }
  }

  /** A version written out in full reads back exactly when its numbers fit 64 bits and
      its pre-release, if it has one, is not empty: then the dash stays in the patch. */
  lemma VersionRoundTrip(v: Version)
    ensures Parse(Print(v)) == Some(v)
            <==> v.major < U64_LIMIT && v.minor < U64_LIMIT && v.patch < U64_LIMIT && v.pre != Some("")
  {
    DecimalIsPlain(v.major);
    DecimalIsPlain(v.minor);
    DecimalIsPlain(v.patch);
    ParsedNumbers(v);
    ParseParts(Decimal(v.major), Decimal(v.minor), Decimal(v.patch), v.pre);
  }

  lemma ParsedNumbers(v: Version)
    ensures ParseU64(Decimal(v.major)) == if v.major < U64_LIMIT then Some(v.major) else None
    ensures ParseU64(Decimal(v.minor)) == if v.minor < U64_LIMIT then Some(v.minor) else None
    ensures ParseU64(Decimal(v.patch)) == if v.patch < U64_LIMIT then Some(v.patch) else None
  {
    ParseDecimal(v.major);
    ParseDecimal(v.minor);
    ParseDecimal(v.patch);
  }

  predicate IsNumeric(x: string) {
    x != "" && AllDigits(x)
  }

  function TrimZeros(s: string): (r: string)
    ensures |r| <= |s| && (AllDigits(s) ==> AllDigits(r))
    ensures r != "" ==> r[0] != '0'
  {
    if s != "" && s[0] == '0' then
      assert forall c :: c in s[1..] ==> c in s;
      TrimZeros(s[1..])
    else s
  }

  function CmpIdentifier(x: string, y: string): Ordering {
    if IsNumeric(x) && IsNumeric(y) then
      CompareNat(|TrimZeros(x)|, |TrimZeros(y)|).Then(CompareText(TrimZeros(x), TrimZeros(y)))
    else if IsNumeric(x) then Lt
    else if IsNumeric(y) then Gt
    else CompareText(x, y)
  }

  // ---- Digit strings of any length compare by value ----

  lemma {:induction false} ValueSkipsZero(s: string)
    requires AllDigits(s) && s != "" && s[0] == '0'
    ensures AllDigits(s[1..]) && Value(s[1..]) == Value(s)
    decreases |s|
  {
    assert forall c :: c in s[1..] ==> c in s;
    if |s| == 1 {
      assert Value(s[..0]) == 0;
    } else {
      var init, last := s[..|s| - 1], s[|s| - 1];
      assert forall c :: c in init ==> c in s;
      ValueSkipsZero(init);
      assert s[1..][..|s| - 2] == init[1..] && s[1..][|s| - 2] == last;
    }
  }

  lemma {:induction false} TrimKeepsValue(s: string)
    requires AllDigits(s)
    ensures Value(TrimZeros(s)) == Value(s)
  {
    if s != "" && s[0] == '0' {
      ValueSkipsZero(s);
      TrimKeepsValue(s[1..]);
    }
  }

  lemma {:induction false} ShorterIsLess(a: string, b: string)
    requires AllDigits(a) && AllDigits(b) && |a| < |b| && b[0] != '0'
    ensures Value(a) < Value(b)
  {
    if a == "" {
      ValuePositive(b);
    } else {
      var a0, b0 := a[..|a| - 1], b[..|b| - 1];
      assert forall c :: c in a0 ==> c in a;
      assert forall c :: c in b0 ==> c in b;
      ShorterIsLess(a0, b0);
    }
  }

  lemma {:induction false} LessByLastCharacter(a: string, b: string)
    requires |a| == |b| > 0
    ensures var n := |a| - 1;
            Less(a, b) <==> Less(a[..n], b[..n]) || (a[..n] == b[..n] && a[n] < b[n])
  {
    var n := |a| - 1;
    if n == 0 {
      assert a[..0] == "" && b[..0] == "";
      assert a[1..] == "" && b[1..] == "";
    } else {
      LessByLastCharacter(a[1..], b[1..]);
      assert a[1..][..n - 1] == a[..n][1..] && b[1..][..n - 1] == b[..n][1..];
      assert a[..n] == [a[0]] + a[..n][1..] && b[..n] == [b[0]] + b[..n][1..];
    }
  }

  lemma {:induction false} SameLengthComparesByValue(a: string, b: string)
    requires AllDigits(a) && AllDigits(b) && |a| == |b|
    ensures Less(a, b) ==> Value(a) < Value(b)
  {
    if a != "" {
      var n := |a| - 1;
      var a0, b0 := a[..n], b[..n];
      assert forall c :: c in a0 ==> c in a;
      assert forall c :: c in b0 ==> c in b;
      assert a[n] in a && b[n] in b;
      LessByLastCharacter(a, b);
      SameLengthComparesByValue(a0, b0);
    }
  }

  lemma NumericComparesByValue(x: string, y: string)
    requires IsNumeric(x) && IsNumeric(y)
    ensures CmpIdentifier(x, y) == CompareNat(Value(x), Value(y))
  {
    TrimKeepsValue(x);
    TrimKeepsValue(y);
    var a, b := TrimZeros(x), TrimZeros(y);
    if |a| < |b| {
      ShorterIsLess(a, b);
    } else if |b| < |a| {
      ShorterIsLess(b, a);
    } else {
      LessTotal(a, b);
      SameLengthComparesByValue(a, b);
      SameLengthComparesByValue(b, a);
    }
  }

  // ---- The code computes precedence ----

  function Read(x: string): Identifier {
    if IsNumeric(x) then Number(Value(x)) else Word(x)
  }

  function ReadAll(parts: seq<string>): (ids: seq<Identifier>)
    ensures |ids| == |parts|
    ensures forall i :: 0 <= i < |parts| ==> ids[i] == Read(parts[i])
  {
    if parts == [] then [] else [Read(parts[0])] + ReadAll(parts[1..])
  }

  function KeyOf(v: Version): Key {
    Key(v.major, v.minor, v.patch,
        match v.pre
        case None => None
        case Some(p) => Some(ReadAll(Split(p, '.'))))
  }

  lemma CmpIdentifierIsPrecedence(x: string, y: string)
    ensures CmpIdentifier(x, y) == CompareIdentifiers(Read(x), Read(y))
  {
    if IsNumeric(x) && IsNumeric(y) {
      NumericComparesByValue(x, y);
    }
  }

  /** Two identifiers tie exactly when they are the same text up to leading zeros of
      a number. */
  lemma TiesUpToLeadingZeros(x: string, y: string)
    ensures Read(x) == Read(y) <==> x == y || (IsNumeric(x) && IsNumeric(y) && TrimZeros(x) == TrimZeros(y))
  {
    if IsNumeric(x) && IsNumeric(y) {
      NumericComparesByValue(x, y);
      TrimKeepsValue(x);
      TrimKeepsValue(y);
    }
  }

  lemma CompareFrom(a: seq<Identifier>, b: seq<Identifier>, i: nat)
    requires i < |a| && i < |b|
    ensures CompareLists(a[i..], b[i..]) == CompareIdentifiers(a[i], b[i]).Then(CompareLists(a[i + 1..], b[i + 1..]))
  {
    assert a[i..][1..] == a[i + 1..] && b[i..][1..] == b[i + 1..];
  }

  method CmpPrerelease(a: string, b: string) returns (r: Ordering)
    ensures r == CompareLists(ReadAll(Split(a, '.')), ReadAll(Split(b, '.')))
  {
    var x, y := Split(a, '.'), Split(b, '.');
    ghost var xs, ys := ReadAll(x), ReadAll(y);
    var i := 0;
    while i < |x| && i < |y|
      invariant i <= |x| && i <= |y|
      invariant CompareLists(xs, ys) == CompareLists(xs[i..], ys[i..])
    {
      var ord := CmpIdentifier(x[i], y[i]);
      CmpIdentifierIsPrecedence(x[i], y[i]);
      CompareFrom(xs, ys, i);
      if ord != Eq {
        return ord;
      }
      i := i + 1;
    }
    r := if i == |x| && i == |y| then Eq else if i == |x| then Lt else Gt;
  }

  method CmpVersion(a: Version, b: Version) returns (r: Ordering)
    ensures r == CompareKeys(KeyOf(a), KeyOf(b))
  {
    r := CompareNat(a.major, b.major).Then(CompareNat(a.minor, b.minor)).Then(CompareNat(a.patch, b.patch));
    if r != Eq {
      return;
    }
    match (a.pre, b.pre) {
      case (None, None) => r := Eq;
      case (Some(_), None) => r := Lt;
      case (None, Some(_)) => r := Gt;
      case (Some(p), Some(q)) => r := CmpPrerelease(p, q);
    }
  }

  /** Whether version a has lower precedence than version b. */
  predicate Below(a: Version, b: Version) {
    CompareKeys(KeyOf(a), KeyOf(b)) == Lt
  }

  /** Precedence on versions is a total preorder: exactly one of below, tied and above
      holds, below is transitive, and the ties are the versions with one key. */
  lemma PrecedenceIsTotalPreorder(a: Version, b: Version, c: Version)
    ensures Below(a, b) || Below(b, a) || KeyOf(a) == KeyOf(b)
    ensures Below(a, b) ==> !Below(b, a) && KeyOf(a) != KeyOf(b)
    ensures Below(a, b) && Below(b, c) ==> Below(a, c)
    ensures Below(a, b) && KeyOf(b) == KeyOf(c) ==> Below(a, c)
  {
    CompareKeysIsOrder(KeyOf(a), KeyOf(b), KeyOf(c));
  }

  predicate CoreBelow(a: Version, b: Version) {
    a.major < b.major
    || (a.major == b.major && (a.minor < b.minor || (a.minor == b.minor && a.patch < b.patch)))
  }

  /** A pre-release is above exactly the releases with a lower core, and below every other,
      the release it leads to included. */
  lemma PreReleaseComesFirst(a: Version, b: Version)
    requires a.pre.Some? && b.pre.None?
    ensures Below(b, a) <==> CoreBelow(b, a)
    ensures Below(a, b) <==> !CoreBelow(b, a)
  {
  }

  // ---- Precedence said of the texts ----

  ghost predicate AllNumerals(x: string) {
    x != "" && forall i :: 0 <= i < |x| ==> '0' <= x[i] <= '9'
  }

  /** Numbers by value, a number before a word, words by their first difference. */
  ghost predicate PartBelow(x: string, y: string) {
    if AllNumerals(x) && AllNumerals(y) then Value(x) < Value(y)
    else AllNumerals(x) || (!AllNumerals(y) && exists n :: DiffersAt(x, y, n))
  }

  ghost predicate PartsTie(x: string, y: string) {
    x == y || (AllNumerals(x) && AllNumerals(y) && Value(x) == Value(y))
  }

  /** The dotted parts tie up to n, where the first text ends or has the lower part. */
  ghost predicate PrecedesAt(x: seq<string>, y: seq<string>, n: int) {
    && 0 <= n <= |x| && n < |y| && (forall i :: 0 <= i < n ==> PartsTie(x[i], y[i]))
    && (n == |x| || PartBelow(x[n], y[n]))
  }

  ghost predicate PreBelow(p: Option<string>, q: Option<string>) {
    && p.Some?
    && (q.Some? ==> exists n :: PrecedesAt(Split(p.value, '.'), Split(q.value, '.'), n))
  }

  lemma NumeralsAreDigits(x: string)
    ensures AllNumerals(x) <==> IsNumeric(x)
  {
    if IsNumeric(x) {
      assert forall i :: 0 <= i < |x| ==> x[i] in x;
    }
  }

  lemma ReadsAsText(x: string, y: string)
    ensures AllNumerals(x) <==> IsNumeric(x)
    ensures CompareIdentifiers(Read(x), Read(y)) == Lt <==> PartBelow(x, y)
    ensures Read(x) == Read(y) <==> PartsTie(x, y)
  {
    NumeralsAreDigits(x);
    NumeralsAreDigits(y);
    LessIff(x, y);
    LessIrreflexive(x);
  }

  lemma ReadsAsTexts(x: seq<string>, y: seq<string>, n: int)
    ensures LowerAt(ReadAll(x), ReadAll(y), n) <==> PrecedesAt(x, y, n)
  {
    if 0 <= n <= |x| && n < |y| {
      var a, b := ReadAll(x), ReadAll(y);
      forall i | 0 <= i < n
        ensures a[i] == b[i] <==> PartsTie(x[i], y[i])
      {
        ReadsAsText(x[i], y[i]);
      }
      SamePrefixIff(a, b, n);
      if n < |x| {
        ReadsAsText(x[n], y[n]);
      }
    }
  }

  lemma SamePrefixIff<T>(a: seq<T>, b: seq<T>, n: nat)
    requires n <= |a| && n <= |b|
    ensures a[..n] == b[..n] <==> forall i :: 0 <= i < n ==> a[i] == b[i]
  {
    if a[..n] == b[..n] {
      assert forall i :: 0 <= i < n ==> a[i] == a[..n][i] && b[i] == b[..n][i];
    }
  }

  lemma PreBelowIff(p: Option<string>, q: Option<string>)
    ensures ComparePre(KeyOf(Version(0, 0, 0, p)).pre, KeyOf(Version(0, 0, 0, q)).pre) == Lt <==> PreBelow(p, q)
  {
    if p.Some? && q.Some? {
      var x, y := Split(p.value, '.'), Split(q.value, '.');
      LowerIff(ReadAll(x), ReadAll(y));
      forall n { ReadsAsTexts(x, y, n); }
    }
  }

  /** What below means, said of the numbers and the texts alone: a lower core, or the same
      core and a pre-release that is one where the other is none, that is the beginning of
      the other, or that has the lower part where the two first differ. */
  lemma BelowIff(a: Version, b: Version)
    ensures Below(a, b) <==> CoreBelow(a, b)
                             || ((a.major, a.minor, a.patch) == (b.major, b.minor, b.patch) && PreBelow(a.pre, b.pre))
  {
    PreBelowIff(a.pre, b.pre);
  }

  /** A pre-release is below every one that goes on after it. */
  lemma LongerPreReleaseIsAbove(major: nat, minor: nat, patch: nat, p: string, q: string)
    ensures Below(Version(major, minor, patch, Some(p)), Version(major, minor, patch, Some(p + ['.'] + q)))
  {
    SplitAppend(p, '.', q);
    var x, y := Split(p, '.'), Split(p + ['.'] + q, '.');
    assert PrecedesAt(x, y, |x|);
    BelowIff(Version(major, minor, patch, Some(p)), Version(major, minor, patch, Some(p + ['.'] + q)));
  }
}
