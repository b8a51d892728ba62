/** Mesh references as text: `kind:id`. */
module MeshRefs {
  import opened Options
  import opened Text
  import opened Mesh

  function KindName(kind: NodeKind): string {
    match kind
    case Issue => "issue"
    case Pr => "pr"
    case CiRun => "ci-run"
    case Check => "check"
    case Artifact => "artifact"
    case Agent => "agent"
    case CommitNode => "commit"
    case Service => "service"
    case Finding => "finding"
    case Metric => "metric"
  }

  function ParseKind(s: string): Option<NodeKind> {
    if s == "issue" then Some(Issue)
    else if s == "pr" then Some(Pr)
    else if s == "ci-run" then Some(CiRun)
    else if s == "check" then Some(Check)
    else if s == "artifact" then Some(Artifact)
    else if s == "agent" then Some(Agent)
    else if s == "commit" then Some(CommitNode)
    else if s == "service" then Some(Service)
    else if s == "finding" then Some(Finding)
    else if s == "metric" then Some(Metric)
    else None
  }

  lemma KindRoundTrip(kind: NodeKind, s: string)
    ensures ParseKind(s) == Some(kind) <==> s == KindName(kind)
    ensures ':' !in KindName(kind)
  {
    KindNamesDiffer(kind);
    if ParseKind(s) == Some(kind) {
      assert s == KindName(kind);
    }
  }

  lemma KindNamesDiffer(kind: NodeKind)
    ensures ParseKind(KindName(kind)) == Some(kind)
  {
    assert |"issue"| == 5 && |"pr"| == 2 && |"ci-run"| == 6 && |"check"| == 5 && |"artifact"| == 8;
    assert "issue"[0] != "check"[0] && "issue"[0] != "agent"[0] && "check"[0] != "agent"[0];
    assert "ci-run"[1] != "commit"[1] && "metric"[0] != "ci-run"[0] && "metric"[0] != "commit"[0];
    assert "service"[0] != "finding"[0];
  }

  function PrintMeshRef(m: MeshRef): string {
    KindName(m.kind) + [':'] + m.id
  }

  /** References as they are written, kind by kind. */
  lemma WrittenAs(id: string)
    ensures PrintMeshRef(MeshRef(Issue, id)) == "issue:" + id && PrintMeshRef(MeshRef(Pr, id)) == "pr:" + id
    ensures PrintMeshRef(MeshRef(CiRun, id)) == "ci-run:" + id && PrintMeshRef(MeshRef(Check, id)) == "check:" + id
    ensures PrintMeshRef(MeshRef(Artifact, id)) == "artifact:" + id && PrintMeshRef(MeshRef(Agent, id)) == "agent:" + id
    ensures PrintMeshRef(MeshRef(CommitNode, id)) == "commit:" + id
    ensures PrintMeshRef(MeshRef(Service, id)) == "service:" + id
    ensures PrintMeshRef(MeshRef(Finding, id)) == "finding:" + id && PrintMeshRef(MeshRef(Metric, id)) == "metric:" + id
  {
  }

  /** Only the first colon separates; an identity may hold more of them. */
  function ParseMeshRef(s: string): Option<MeshRef> {
    var i := IndexOf(s, ':');
    if i == |s| || s[i + 1..] == "" then None
    else
      match ParseKind(s[..i])
      case None => None
      case Some(kind) => Some(MeshRef(kind, s[i + 1..]))
  }

  /** Parsing undoes printing exactly for references with an identity, and printing
      undoes parsing on every text that parses. */
  lemma MeshRefRoundTrip(m: MeshRef, s: string)
    ensures ParseMeshRef(PrintMeshRef(m)) == Some(m) <==> m.id != ""
    ensures m.id == "" ==> ParseMeshRef(PrintMeshRef(m)) == None
    ensures ParseMeshRef(s) == Some(m) ==> PrintMeshRef(m) == s
  {
    ParsePrinted(m);
    if ParseMeshRef(s) == Some(m) {
      var i := IndexOf(s, ':');
      KindRoundTrip(m.kind, s[..i]);
      CutAt(s, i, ':');
    }
  }

  lemma ParsePrinted(m: MeshRef)
    ensures ParseMeshRef(PrintMeshRef(m)) == if m.id == "" then None else Some(m)
  {
    var name := KindName(m.kind);
    KindRoundTrip(m.kind, name);
    IndexOfAfter(name, ':', m.id);
    var text := PrintMeshRef(m);
    assert text[..|name|] == name && text[|name| + 1..] == m.id;
  }

  lemma PrintMeshRefInjective(a: MeshRef, b: MeshRef)
    ensures PrintMeshRef(a) == PrintMeshRef(b) ==> a == b
  {
    if PrintMeshRef(a) == PrintMeshRef(b) {
      KindRoundTrip(a.kind, KindName(a.kind));
      KindRoundTrip(b.kind, KindName(b.kind));
      IndexOfAfter(KindName(a.kind), ':', a.id);
      IndexOfAfter(KindName(b.kind), ':', b.id);
      var text := PrintMeshRef(a);
      var n := IndexOf(text, ':');
      assert text[..n] == KindName(a.kind) && text[n + 1..] == a.id;
      assert text[..n] == KindName(b.kind) && text[n + 1..] == b.id;
      KindRoundTrip(b.kind, KindName(a.kind));
    }
  }
}
