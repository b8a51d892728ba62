/** Issue references as text: `owner/repo#number`. */
module IssueRefs {
  import opened Options
  import opened Text

  type u64 = n: nat | n < U64_LIMIT

  datatype IssueRef = IssueRef(repo: string, number: u64)

  /** Splits at the last separator, as `rsplit_once` does. */
  function SplitLast(s: string, c: char): (r: Option<(string, string)>)
    ensures r.None? <==> c !in s
    ensures r.Some? ==> s == r.value.0 + [c] + r.value.1 && c !in r.value.1
  {
    if s == "" then None
    else
      var init, last := s[..|s| - 1], s[|s| - 1];
      assert s == init + [last];
      if last == c then Some((init, ""))
      else
        match SplitLast(init, c)
        case None => None
        case Some((a, b)) => Some((a, b + [last]))
  }

  lemma {:induction false} SplitLastUnique(a: string, c: char, b: string)
    requires c !in b
    ensures SplitLast(a + [c] + b, c) == Some((a, b))
    decreases |b|
  {
    var s := a + [c] + b;
    if b == "" {
      assert s[..|s| - 1] == a;
    } else {
      var init, last := b[..|b| - 1], b[|b| - 1];
      SplitLastUnique(a, c, init);
      assert s[..|s| - 1] == a + [c] + init && s[|s| - 1] == last && init + [last] == b;
    }
  }

  predicate IsSlug(repo: string) {
    var parts := Split(repo, '/');
    |parts| == 2 && parts[0] != "" && parts[1] != ""
  }

  ghost predicate IsOwnerAndName(repo: string, owner: string, name: string) {
    repo == owner + ['/'] + name && owner != "" && name != "" && '/' !in owner && '/' !in name
  }

  /** A slug is a nonempty owner and a nonempty name with a single slash between. */
  lemma SlugIsOwnerAndName(repo: string)
    ensures IsSlug(repo) <==> exists owner, name :: IsOwnerAndName(repo, owner, name)
  {
    if IsSlug(repo) {
      JoinSplit(repo, '/');
      var parts := Split(repo, '/');
      assert Join(parts[1..], '/') == parts[1];
      assert IsOwnerAndName(repo, parts[0], parts[1]);
    }
    forall owner, name | IsOwnerAndName(repo, owner, name)
      ensures IsSlug(repo)
    {
      SplitHead(owner, '/', name);
      assert Split(name, '/') == [name];
    }
  }

  function PrintIssueRef(r: IssueRef): string {
    r.repo + ['#'] + Decimal(r.number)
  }

  function ParseIssueRef(s: string): Option<IssueRef> {
    match SplitLast(s, '#')
    case None => None
    case Some((repo, text)) =>
      if !IsSlug(repo) then None
      else
        match ParseU64(text)
        case None => None
        case Some(number) => if number == 0 then None else Some(IssueRef(repo, number))
  }

  lemma SplitPrinted(r: IssueRef)
    ensures SplitLast(PrintIssueRef(r), '#') == Some((r.repo, Decimal(r.number)))
  {
    SplitLastUnique(r.repo, '#', Decimal(r.number));
  }

  /** Distinct references print differently, whatever their repository text. */
  lemma PrintIssueRefInjective(a: IssueRef, b: IssueRef)
    ensures PrintIssueRef(a) == PrintIssueRef(b) ==> a == b
  {
    SplitPrinted(a);
    SplitPrinted(b);
    ValueDecimal(a.number);
    ValueDecimal(b.number);
  }

  /** A printed reference parses back exactly when its repository is a slug and its
      number is positive. */
  lemma IssueRefRoundTrip(r: IssueRef)
    ensures ParseIssueRef(PrintIssueRef(r)) == Some(r) <==> IsSlug(r.repo) && r.number >= 1
    ensures ParseIssueRef(PrintIssueRef(r)) != Some(r) ==> ParseIssueRef(PrintIssueRef(r)) == None
  {
    SplitPrinted(r);
    ParseDecimal(r.number);
  }

  /** A text that parses is printed back exactly when its number carries no plus
      sign and no leading zero, both of which parsing accepts. */
  lemma IssueTextRoundTrip(s: string)
    requires ParseIssueRef(s).Some?
    ensures var text := SplitLast(s, '#').value.1;
            PrintIssueRef(ParseIssueRef(s).value) == s <==> text[0] != '+' && text[0] != '0'
  {
    var r := ParseIssueRef(s).value;
    var text := SplitLast(s, '#').value.1;
    SplitPrinted(r);
    assert PrintIssueRef(r) == s <==> Decimal(r.number) == text;
    if text[0] == '+' {
      assert Decimal(r.number)[0] in Decimal(r.number);
    } else {
      DecimalValue(text);
    }
  }

  /** For every repository a plus sign and a leading zero parse, to the reference that
      prints without them. */
  lemma PlusAndZeroDoNotReprint(repo: string)
    requires IsSlug(repo)
    ensures ParseIssueRef(repo + "#+1") == ParseIssueRef(repo + "#01") == Some(IssueRef(repo, 1))
    ensures PrintIssueRef(IssueRef(repo, 1)) == repo + "#1"
  {
    assert repo + "#+1" == repo + ['#'] + "+1" && repo + "#01" == repo + ['#'] + "01";
    OneIsRead();
    SplitLastUnique(repo, '#', "+1");
    SplitLastUnique(repo, '#', "01");
    assert Decimal(1) == "1" && repo + "#1" == repo + ['#'] + "1";
  }

  lemma OneIsRead()
    ensures '#' !in "+1" && '#' !in "01"
    ensures ParseU64("+1") == Some(1) && ParseU64("01") == Some(1)
  {
    assert "+1"[1..] == "1" && "1"[..0] == "" && "01"[..1] == "0" && "0"[..0] == "";
    assert Value("1") == 1 && Value("0") == 0 && Value("01") == 1;
  }
}
