/** The issue graph: its own blocks-cycle guard, and its place inside the mesh graph
    as the part whose nodes are all issues. */
module IssueRelations {
  import opened Options
  import opened Reachability
  import opened IssueRefs
  import Mesh

  datatype IssueEdgeKind = Blocks | BlockedBy | Relates | Parent | Child
  {
    function Inverse(): IssueEdgeKind {
      match this
      case Blocks => BlockedBy
      case BlockedBy => Blocks
      case Relates => Relates
      case Parent => Child
      case Child => Parent
    }

    predicate IsCanonical() {
      !(BlockedBy? || Child?)
    }
  }

  datatype IssueEdge = IssueEdge(from: IssueRef, kind: IssueEdgeKind, to: IssueRef, createdBy: string)

  function Canonical(from: IssueRef, kind: IssueEdgeKind, to: IssueRef, createdBy: string): Option<IssueEdge> {
    if from == to then None
    else if kind.IsCanonical() then Some(IssueEdge(from, kind, to, createdBy))
    else Some(IssueEdge(to, kind.Inverse(), from, createdBy))
  }

  predicate SameRelationship(a: IssueEdge, b: IssueEdge) {
    a.kind == b.kind
    && ((a.from == b.from && a.to == b.to) || (a.kind == Relates && a.from == b.to && a.to == b.from))
  }

  function Links(edges: seq<IssueEdge>, kind: IssueEdgeKind): set<(IssueRef, IssueRef)> {
    set e | e in edges && e.kind == kind :: (e.from, e.to)
  }

  lemma LinksAppend(edges: seq<IssueEdge>, e: IssueEdge, kind: IssueEdgeKind)
    ensures Links(edges + [e], kind) == Links(edges, kind) + if e.kind == kind then {(e.from, e.to)} else {}
  {
  }

  method PushSuccessors(edges: seq<IssueEdge>, node: IssueRef, stack0: seq<IssueRef>)
    returns (stack: seq<IssueRef>)
    ensures Pushed(Links(edges, Blocks), node, stack0, stack)
  {
    stack := stack0;
    for i := 0 to |edges|
      invariant Pushed(Links(edges[..i], Blocks), node, stack0, stack)
    {
      var e := edges[i];
      assert edges[..i + 1] == edges[..i] + [e];
      LinksAppend(edges[..i], e, Blocks);
      if e.kind == Blocks && e.from == node {
        stack := stack + [e.to];
      }
    }
    assert edges[..|edges|] == edges;
  }

  /** Exact for the blocks relation, and silent about every other kind. */
  method WouldCreateBlocksCycle(edges: seq<IssueEdge>, candidate: IssueEdge) returns (r: bool)
    ensures r <==> candidate.kind == Blocks && Reaches(Links(edges, Blocks), candidate.to, candidate.from)
  {
    if candidate.kind != Blocks {
      return false;
    }
    ghost var links := Links(edges, Blocks);
    ghost var nodes := Nodes(links, candidate.to);
    var stack := [candidate.to];
    var seen: set<IssueRef> := {};
    ReachesSelf(links, candidate.to);
    while stack != []
      invariant SearchInv(links, candidate.to, candidate.from, seen, stack)
      invariant seen <= nodes
      decreases |nodes - seen|, |stack|
    {
      var node := stack[|stack| - 1];
      var rest := stack[..|stack| - 1];
      assert stack == rest + [node];
      if node == candidate.from {
        return true;
      }
      stack := rest;
      if node !in seen {
        FoundNode(links, candidate.to, node);
        OneFewer(nodes, seen, node);
        stack := PushSuccessors(edges, node, rest);
        SearchExpands(links, candidate.to, candidate.from, seen, rest, node, stack);
        seen := seen + {node};
      }
    }
    SearchExhausted(links, candidate.to, candidate.from, seen);
    r := false;
  }

  // ---- The issue graph inside the mesh graph ----

  function MeshNode(r: IssueRef): Mesh.MeshRef {
    Mesh.MeshRef(Mesh.Issue, PrintIssueRef(r))
  }

  function MeshKind(kind: IssueEdgeKind): Mesh.EdgeKind {
    match kind
    case Blocks => Mesh.Blocks
    case BlockedBy => Mesh.BlockedBy
    case Relates => Mesh.Relates
    case Parent => Mesh.Parent
    case Child => Mesh.Child
  }

  function MeshEdge(e: IssueEdge): Mesh.MeshEdge {
    Mesh.MeshEdge(MeshNode(e.from), MeshKind(e.kind), MeshNode(e.to), e.createdBy)
  }

  function MeshEdges(edges: seq<IssueEdge>): (r: seq<Mesh.MeshEdge>)
    ensures |r| == |edges| && forall i :: 0 <= i < |edges| ==> r[i] == MeshEdge(edges[i])
  {
    if edges == [] then [] else MeshEdges(edges[..|edges| - 1]) + [MeshEdge(edges[|edges| - 1])]
  }

  lemma MeshNodeInjective(a: IssueRef, b: IssueRef)
    ensures MeshNode(a) == MeshNode(b) ==> a == b
  {
    PrintIssueRefInjective(a, b);
  }

  lemma SameRelationshipsAgree(e: IssueEdge, f: IssueEdge)
    ensures Mesh.SameRelationship(MeshEdge(e), MeshEdge(f)) <==> SameRelationship(e, f)
  {
    MeshNodeInjective(e.from, f.from);
    MeshNodeInjective(e.to, f.to);
    MeshNodeInjective(e.from, f.to);
    MeshNodeInjective(e.to, f.from);
  }

  /** The kinds are the mesh's kinds of the same reading. */
  lemma KindsAgree(k: IssueEdgeKind)
    ensures MeshKind(k.Inverse()) == MeshKind(k).Inverse()
    ensures k.IsCanonical() <==> MeshKind(k).IsCanonical()
    ensures k == Relates <==> MeshKind(k).IsSymmetric()
  {
  }

  /** Embedding an issue relationship commutes with taking its canonical form, and
      neither merges nor splits relationships. */
  lemma CanonicalFormsAgree(a: IssueRef, k: IssueEdgeKind, b: IssueRef, createdBy: string, e: IssueEdge, f: IssueEdge)
    ensures Mesh.Canonical(MeshNode(a), MeshKind(k), MeshNode(b), createdBy)
            == match Canonical(a, k, b, createdBy)
               case None => None
               case Some(edge) => Some(MeshEdge(edge))
    ensures Mesh.SameRelationship(MeshEdge(e), MeshEdge(f)) <==> SameRelationship(e, f)
  {
    MeshNodeInjective(a, b);
    SameRelationshipsAgree(e, f);
  }

  lemma LinkIsRenamed(edges: seq<IssueEdge>, kind: IssueEdgeKind, l: (IssueRef, IssueRef))
    requires l in Links(edges, kind)
    ensures (MeshNode(l.0), MeshNode(l.1)) in Mesh.Links(MeshEdges(edges), MeshKind(kind))
  {
    var e :| e in edges && e.kind == kind && (e.from, e.to) == l;
    var i :| 0 <= i < |edges| && edges[i] == e;
    assert MeshEdges(edges)[i] == MeshEdge(e);
    assert MeshEdge(e) in MeshEdges(edges);
  }

  lemma OriginOf(edges: seq<IssueEdge>, e: Mesh.MeshEdge) returns (i: nat)
    requires e in MeshEdges(edges)
    ensures i < |edges| && e == MeshEdge(edges[i])
  {
    var images := MeshEdges(edges);
    i :| 0 <= i < |images| && images[i] == e;
  }

  lemma SameKind(a: IssueEdgeKind, b: IssueEdgeKind)
    ensures MeshKind(a) == MeshKind(b) ==> a == b
  {
  }

  lemma HasLink(edges: seq<IssueEdge>, i: nat)
    requires i < |edges|
    ensures (edges[i].from, edges[i].to) in Links(edges, edges[i].kind)
  {
    assert edges[i] in edges;
  }

  lemma LinkComesFromIssues(edges: seq<IssueEdge>, kind: IssueEdgeKind, m: (Mesh.MeshRef, Mesh.MeshRef))
    returns (l: (IssueRef, IssueRef))
    requires m in Mesh.Links(MeshEdges(edges), MeshKind(kind))
    ensures l in Links(edges, kind) && m == (MeshNode(l.0), MeshNode(l.1))
  {
    var e :| e in MeshEdges(edges) && e.kind == MeshKind(kind) && (e.from, e.to) == m;
    var i := OriginOf(edges, e);
    SameKind(edges[i].kind, kind);
    l := (edges[i].from, edges[i].to);
    HasLink(edges, i);
  }

  lemma MeshRenamesLinks(edges: seq<IssueEdge>, kind: IssueEdgeKind)
    ensures Renames(Links(edges, kind), Mesh.Links(MeshEdges(edges), MeshKind(kind)), MeshNode)
  {
    var links, image := Links(edges, kind), Mesh.Links(MeshEdges(edges), MeshKind(kind));
    forall x, y | MeshNode(x) == MeshNode(y)
      ensures x == y
    {
      MeshNodeInjective(x, y);
    }
    forall l | l in links
      ensures (MeshNode(l.0), MeshNode(l.1)) in image
    {
      LinkIsRenamed(edges, kind, l);
    }
    forall m | m in image
      ensures exists l :: l in links && m == (MeshNode(l.0), MeshNode(l.1))
    {
      var l := LinkComesFromIssues(edges, kind, m);
    }
  }

  lemma ReachabilityAgrees(edges: seq<IssueEdge>, kind: IssueEdgeKind, a: IssueRef, b: IssueRef)
    ensures Reaches(Mesh.Links(MeshEdges(edges), MeshKind(kind)), MeshNode(a), MeshNode(b))
            <==> Reaches(Links(edges, kind), a, b)
  {
    MeshRenamesLinks(edges, kind);
    RenamingKeepsReachability(Links(edges, kind), Mesh.Links(MeshEdges(edges), MeshKind(kind)), MeshNode, a, b);
  }

  ghost predicate IssueGuard(edges: seq<IssueEdge>, e: IssueEdge) {
    e.kind == Blocks && Reaches(Links(edges, Blocks), e.to, e.from)
  }

  /** The two guards agree on every canonical edge except a parent link that closes a
      cycle of parents: the mesh guard refuses it, the issue guard does not look. */
  lemma GuardsAgreeIff(edges: seq<IssueEdge>, e: IssueEdge)
    requires e.kind.IsCanonical()
    ensures (Mesh.Forbidden(MeshEdges(edges), MeshEdge(e)) <==> IssueGuard(edges, e))
            <==> !(e.kind == Parent && Reaches(Links(edges, Parent), e.to, e.from))
  {
    ReachabilityAgrees(edges, e.kind, e.to, e.from);
  }

  lemma ParentCyclePassesTheIssueGuard(a: IssueRef, b: IssueRef)
    requires a != b
    ensures var edges := [IssueEdge(a, Parent, b, "")];
            var back := IssueEdge(b, Parent, a, "");
            !IssueGuard(edges, back) && Mesh.Forbidden(MeshEdges(edges), MeshEdge(back))
            && !Acyclic(Links(edges + [back], Parent))
  {
    var edges := [IssueEdge(a, Parent, b, "")];
    var back := IssueEdge(b, Parent, a, "");
    assert edges[0] in edges && (a, b) in Links(edges, Parent);
    ReachesSelf(Links(edges, Parent), b);
    ReachesStep(Links(edges, Parent), a, b, b);
    ReachabilityAgrees(edges, Parent, a, b);
    var links := Links(edges + [back], Parent);
    assert (edges + [back])[0] == edges[0] && (edges + [back])[1] == back;
    assert LinkAt(links, [a, b, a], 0) && LinkAt(links, [a, b, a], 1);
    assert IsPath(links, [a, b, a]);
  }
}
