/** The publish gate: its rules, its loop, and what a chain of accepted releases
    can look like. */
module PublishGate {
  import opened Options
  import opened Precedence
  import opened Semver

  datatype Rule = SemverFormat | VersionBump | UniqueVersion | RequireNotes | RequireSpecDigest

  datatype Candidate = Candidate(
    versionLabel: Option<string>,
    previousVersion: Option<string>,
    existingVersions: seq<string>,
    notes: Option<string>,
    specDigest: string)

  /** The characters `str::trim` removes. */
  predicate IsSpace(c: char) {
    var n := c as int;
    9 <= n <= 13 || n == 0x20 || n == 0x85 || n == 0xA0 || n == 0x1680 || 0x2000 <= n <= 0x200A
    || n == 0x2028 || n == 0x2029 || n == 0x202F || n == 0x205F || n == 0x3000
  }

  predicate IsBlank(s: string) {
    forall c :: c in s ==> IsSpace(c)
  }

  /** A label the rules treat as absent. */
  predicate IsGap(version: Option<string>) {
    version == None || version == Some("")
  }

  ghost predicate Parses(version: Option<string>) {
    version.Some? && Parse(version.value).Some?
  }

  ghost predicate LabelBelow(a: Option<string>, b: Option<string>) {
    Parses(a) && Parses(b) && Below(Parse(a.value).value, Parse(b.value).value)
  }

  /** When a candidate breaks a rule. */
  ghost predicate Violates(rule: Rule, c: Candidate) {
    match rule
    case SemverFormat => IsGap(c.versionLabel) || !Parses(c.versionLabel)
    case VersionBump =>
      !IsGap(c.versionLabel) && !IsGap(c.previousVersion) && !LabelBelow(c.previousVersion, c.versionLabel)
    case UniqueVersion => !IsGap(c.versionLabel) && c.versionLabel.value in c.existingVersions
    case RequireNotes => c.notes.None? || IsBlank(c.notes.value)
    case RequireSpecDigest => IsBlank(c.specDigest)
  }

  method CheckRule(rule: Rule, c: Candidate) returns (violated: bool)
    ensures violated <==> Violates(rule, c)
  {
    match rule {
      case SemverFormat =>
        violated := IsGap(c.versionLabel) || Parse(c.versionLabel.value).None?;
      case VersionBump =>
        if IsGap(c.versionLabel) || IsGap(c.previousVersion) {
          return false;
        }
        var current, previous := Parse(c.versionLabel.value), Parse(c.previousVersion.value);
        if current.None? || previous.None? {
          return true;
        }
        var ord := CmpVersion(current.value, previous.value);
        CompareKeysIsOrder(KeyOf(current.value), KeyOf(previous.value), KeyOf(current.value));
        violated := ord != Gt;
      case UniqueVersion =>
        violated := !IsGap(c.versionLabel) && c.versionLabel.value in c.existingVersions;
      case RequireNotes =>
        violated := c.notes.None? || IsBlank(c.notes.value);
      case RequireSpecDigest =>
        violated := IsBlank(c.specDigest);
    }
  }

  datatype Verdict = Verdict(passed: bool, violations: seq<Rule>)

  ghost function Violations(rules: seq<Rule>, c: Candidate): seq<Rule> {
    if rules == [] then []
    else
      var last := rules[|rules| - 1];
      Violations(rules[..|rules| - 1], c) + if Violates(last, c) then [last] else []
  }

  lemma {:induction false} ViolationsAre(rules: seq<Rule>, c: Candidate, rule: Rule)
    ensures rule in Violations(rules, c) <==> rule in rules && Violates(rule, c)
  {
    if rules != [] {
      var init, last := rules[..|rules| - 1], rules[|rules| - 1];
      assert rules == init + [last];
      ViolationsAre(init, c, rule);
    }
  }

  lemma {:induction false} ViolationsPrefix(rules: seq<Rule>, n: nat, c: Candidate)
    requires n <= |rules|
    ensures Violations(rules[..n], c) <= Violations(rules, c)
  {
    if n == |rules| {
      assert rules[..n] == rules;
    } else {
      ViolationsPrefix(rules[..|rules| - 1], n, c);
      assert rules[..|rules| - 1][..n] == rules[..n];
    }
  }

  /** The gate passes exactly when no rule is broken, whether or not it stops early;
      stopping early only shortens the report to its first entry. */
  method EvaluatePublishGate(rules: seq<Rule>, failFast: bool, c: Candidate) returns (v: Verdict)
    ensures v.passed <==> forall rule :: rule in rules ==> !Violates(rule, c)
    ensures v.violations == if failFast && Violations(rules, c) != [] then Violations(rules, c)[..1]
                            else Violations(rules, c)
  {
    var violations: seq<Rule> := [];
    for i := 0 to |rules|
      invariant violations == Violations(rules[..i], c)
      invariant failFast ==> violations == []
    {
      var violated := CheckRule(rules[i], c);
      assert rules[..i + 1][..i] == rules[..i];
      if violated {
        violations := violations + [rules[i]];
        if failFast {
          ViolationsPrefix(rules, i + 1, c);
          ViolationsAre(rules, c, rules[i]);
          return Verdict(false, violations);
        }
      }
    }
    assert rules[..|rules|] == rules;
    forall rule | rule in rules
      ensures rule in violations <==> Violates(rule, c)
    {
      ViolationsAre(rules, c, rule);
    }
    if violations != [] {
      ViolationsAre(rules, c, violations[0]);
    }
    v := Verdict(violations == [], violations);
  }

  // ---- Chains of releases ----

  /** Each candidate was checked against the label published just before it. */
  ghost predicate Chain(releases: seq<Candidate>) {
    forall i :: 0 < i < |releases| ==> releases[i].previousVersion == releases[i - 1].versionLabel
  }

  ghost predicate AllAccepted(rule: Rule, releases: seq<Candidate>) {
    forall i :: 0 <= i < |releases| ==> !Violates(rule, releases[i])
  }

  ghost predicate NoGaps(releases: seq<Candidate>) {
    forall i :: 0 <= i < |releases| ==> !IsGap(releases[i].versionLabel)
  }

  /** Every later release is above every earlier one. */
  ghost predicate Increasing(releases: seq<Candidate>) {
    forall i, j :: 0 <= i < j < |releases| ==> LabelBelow(releases[i].versionLabel, releases[j].versionLabel)
  }

  lemma {:induction false} StepsAddUp(releases: seq<Candidate>, i: nat, j: nat)
    requires Chain(releases) && AllAccepted(VersionBump, releases) && NoGaps(releases)
    requires i < j < |releases|
    ensures LabelBelow(releases[i].versionLabel, releases[j].versionLabel)
    decreases j
  {
    assert !Violates(VersionBump, releases[j]);
    assert !IsGap(releases[j - 1].versionLabel);
    if i < j - 1 {
      StepsAddUp(releases, i, j - 1);
      PrecedenceIsTotalPreorder(Parse(releases[i].versionLabel.value).value,
                                Parse(releases[j - 1].versionLabel.value).value,
                                Parse(releases[j].versionLabel.value).value);
    }
  }

  lemma EmptyLabelDoesNotParse()
    ensures Parse("") == None
  {
  }

  /** A chain the bump rule accepts increases all the way exactly when no release in it
      lacks a label: the rule skips a release with no label, and the one after it. */
  lemma AcceptedChainIncreasesIff(releases: seq<Candidate>)
    requires Chain(releases) && AllAccepted(VersionBump, releases)
    ensures Increasing(releases) <==> |releases| < 2 || NoGaps(releases)
  {
    if |releases| >= 2 {
      if NoGaps(releases) {
        forall i, j | 0 <= i < j < |releases|
          ensures LabelBelow(releases[i].versionLabel, releases[j].versionLabel)
        {
          StepsAddUp(releases, i, j);
        }
      }
      if Increasing(releases) {
        EmptyLabelDoesNotParse();
        forall k | 0 <= k < |releases|
          ensures !IsGap(releases[k].versionLabel)
        {
          assert if k == 0 then LabelBelow(releases[0].versionLabel, releases[1].versionLabel)
                 else LabelBelow(releases[0].versionLabel, releases[k].versionLabel);
        }
      }
    }
  }

  ghost predicate NeverRevisits(releases: seq<Candidate>) {
    forall i, j :: 0 <= i < j < |releases| ==> releases[i].versionLabel != releases[j].versionLabel
  }

  /** Under the format and bump rules together, as in the standard rule set, every chain
      increases and no label comes back. */
  lemma StandardChainsIncrease(releases: seq<Candidate>)
    requires Chain(releases) && AllAccepted(SemverFormat, releases) && AllAccepted(VersionBump, releases)
    ensures Increasing(releases) && NeverRevisits(releases)
  {
    assert NoGaps(releases) by {
      forall i | 0 <= i < |releases|
        ensures !IsGap(releases[i].versionLabel)
      {
        assert !Violates(SemverFormat, releases[i]);
      }
    }
    AcceptedChainIncreasesIff(releases);
    forall i, j | 0 <= i < j < |releases|
      ensures releases[i].versionLabel != releases[j].versionLabel
    {
      assert LabelBelow(releases[i].versionLabel, releases[j].versionLabel);
      var v, w := Parse(releases[i].versionLabel.value).value, Parse(releases[j].versionLabel.value).value;
      PrecedenceIsTotalPreorder(v, w, v);
    }
  }

  /** With the bump rule alone, publishing a release without a label or with an empty one in
      between lets any label be published again. */
  lemma UnlabelledReleaseAllowsRevisit(version: Option<string>, gap: Option<string>, c: Candidate)
    requires gap == None || gap == Some("")
    ensures var first := c.(versionLabel := version, previousVersion := None);
            var second := c.(versionLabel := gap, previousVersion := version);
            var third := c.(versionLabel := version, previousVersion := gap);
            Chain([first, second, third]) && AllAccepted(VersionBump, [first, second, third])
            && !NeverRevisits([first, second, third])
  {
    var first := c.(versionLabel := version, previousVersion := None);
    var second := c.(versionLabel := gap, previousVersion := version);
    var third := c.(versionLabel := version, previousVersion := gap);
    var chain := [first, second, third];
    assert chain[0].versionLabel == chain[2].versionLabel;
  }

  // ---- What the rules ask for, said of the candidate ----

  /** The characters with the property White_Space of the Unicode standard. */
  const WHITE_SPACE: set<char> := {
    '\t', '\n', '\U{000B}', '\U{000C}', '\r', ' ', '\U{0085}', '\U{00A0}', '\U{1680}',
    '\U{2000}', '\U{2001}', '\U{2002}', '\U{2003}', '\U{2004}', '\U{2005}', '\U{2006}',
    '\U{2007}', '\U{2008}', '\U{2009}', '\U{200A}', '\U{2028}', '\U{2029}', '\U{202F}',
    '\U{205F}', '\U{3000}'
  }

  lemma SpaceIff(c: char)
    ensures IsSpace(c) <==> c in WHITE_SPACE
  {
  }

  /** Something is left of the text when white space is taken off. */
  ghost predicate HasText(s: string) {
    exists i :: 0 <= i < |s| && s[i] !in WHITE_SPACE
  }

  lemma HasTextIff(s: string)
    ensures HasText(s) <==> !IsBlank(s)
  {
    forall c { SpaceIff(c); }
    if !IsBlank(s) {
      var c :| c in s && !IsSpace(c);
      var i :| 0 <= i < |s| && s[i] == c;
      assert s[i] !in WHITE_SPACE;
    }
  }

  /** What each rule accepts. */
  lemma RulesAccept(c: Candidate)
    ensures !Violates(SemverFormat, c) <==> c.versionLabel.Some? && Parse(c.versionLabel.value).Some?
    ensures !Violates(VersionBump, c)
            <==> c.versionLabel in {None, Some("")} || c.previousVersion in {None, Some("")}
                 || LabelBelow(c.previousVersion, c.versionLabel)
    ensures !Violates(UniqueVersion, c)
            <==> c.versionLabel in {None, Some("")} || c.versionLabel.value !in c.existingVersions
    ensures !Violates(RequireNotes, c) <==> c.notes.Some? && HasText(c.notes.value)
    ensures !Violates(RequireSpecDigest, c) <==> HasText(c.specDigest)
  {
    EmptyLabelDoesNotParse();
    HasTextIff(c.specDigest);
    if c.notes.Some? {
      HasTextIff(c.notes.value);
    }
  }
}
