/** The typed relationship graph: canonical edges and the cycle guard. */
module Mesh {
  import opened Options
  import opened Reachability

  datatype NodeKind = Issue | Pr | CiRun | Check | Artifact | Agent | CommitNode | Service | Finding | Metric

  datatype MeshRef = MeshRef(kind: NodeKind, id: string)

  datatype EdgeKind =
    | Blocks | BlockedBy
    | Relates
    | Parent | Child
    | Implements | ImplementedBy
    | Verifies | VerifiedBy
    | Produces | ProducedBy
    | Triggers | TriggeredBy
    | Authored | AuthoredBy
    | Gates | GatedBy
    | Probes | ProbedBy
    | Found | FoundBy
    | Measured | MeasuredBy
  {
    function Inverse(): EdgeKind {
      match this
      case Blocks => BlockedBy
      case BlockedBy => Blocks
      case Relates => Relates
      case Parent => Child
      case Child => Parent
      case Implements => ImplementedBy
      case ImplementedBy => Implements
      case Verifies => VerifiedBy
      case VerifiedBy => Verifies
      case Produces => ProducedBy
      case ProducedBy => Produces
      case Triggers => TriggeredBy
      case TriggeredBy => Triggers
      case Authored => AuthoredBy
      case AuthoredBy => Authored
      case Gates => GatedBy
      case GatedBy => Gates
      case Probes => ProbedBy
      case ProbedBy => Probes
      case Found => FoundBy
      case FoundBy => Found
      case Measured => MeasuredBy
      case MeasuredBy => Measured
    }

    predicate IsCanonical() {
      !(BlockedBy? || Child? || ImplementedBy? || VerifiedBy? || ProducedBy? || TriggeredBy?
        || AuthoredBy? || GatedBy? || ProbedBy? || FoundBy? || MeasuredBy?)
    }

    predicate IsSymmetric() {
      Relates?
    }
  }

  datatype MeshEdge = MeshEdge(from: MeshRef, kind: EdgeKind, to: MeshRef, createdBy: string)

  /** The stored form of a declared relationship; a node cannot link to itself. */
  function Canonical(from: MeshRef, kind: EdgeKind, to: MeshRef, createdBy: string): Option<MeshEdge> {
    if from == to then None
    else if kind.IsCanonical() then Some(MeshEdge(from, kind, to, createdBy))
    else Some(MeshEdge(to, kind.Inverse(), from, createdBy))
  }

  predicate SameRelationship(a: MeshEdge, b: MeshEdge) {
    a.kind == b.kind
    && ((a.from == b.from && a.to == b.to)
        || (a.kind.IsSymmetric() && a.from == b.to && a.to == b.from))
  }

  lemma InverseFlipsCanonical(kind: EdgeKind)
    ensures kind.Inverse().Inverse() == kind
    ensures kind.Inverse() == kind <==> kind.IsSymmetric()
    ensures !kind.IsSymmetric() ==> (kind.Inverse().IsCanonical() <==> !kind.IsCanonical())
    ensures kind.IsSymmetric() ==> kind.IsCanonical()
  {
  }

  /** The directed relationships, each in its stored form and read from the other end. */
  const PAIRS: set<(EdgeKind, EdgeKind)> := {
    (Blocks, BlockedBy), (Parent, Child), (Implements, ImplementedBy), (Verifies, VerifiedBy),
    (Produces, ProducedBy), (Triggers, TriggeredBy), (Authored, AuthoredBy), (Gates, GatedBy),
    (Probes, ProbedBy), (Found, FoundBy), (Measured, MeasuredBy)
  }

  /** A kind and its inverse are the two readings of one relationship, of which the first is
      stored; only the symmetric kind has one reading. */
  lemma InversesArePairs(kind: EdgeKind)
    ensures kind == Relates || (kind, kind.Inverse()) in PAIRS || (kind.Inverse(), kind) in PAIRS
    ensures kind == Relates <==> kind.IsSymmetric()
    ensures kind.IsCanonical() <==> kind == Relates || (kind, kind.Inverse()) in PAIRS
  {
  }

  /** Two declarations are stored as one relationship exactly when they say the same
      thing: word for word, or read from the other end with the inverse kind. */
  lemma OneRowPerRelationship(a: MeshRef, k: EdgeKind, b: MeshRef, c: MeshRef, l: EdgeKind, d: MeshRef,
                              byFirst: string, bySecond: string)
    requires a != b && c != d
    ensures Canonical(a, k, b, byFirst).Some? && Canonical(c, l, d, bySecond).Some?
    ensures SameRelationship(Canonical(a, k, b, byFirst).value, Canonical(c, l, d, bySecond).value)
            <==> (a == c && k == l && b == d) || (a == d && k == l.Inverse() && b == c)
  {
    InverseFlipsCanonical(k);
    InverseFlipsCanonical(l);
  }

  function Links(edges: seq<MeshEdge>, kind: EdgeKind): set<(MeshRef, MeshRef)> {
    set e | e in edges && e.kind == kind :: (e.from, e.to)
  }

  lemma LinksAppend(edges: seq<MeshEdge>, e: MeshEdge, kind: EdgeKind)
    ensures Links(edges + [e], kind) == Links(edges, kind) + if e.kind == kind then {(e.from, e.to)} else {}
  {
  }

  method PushSuccessors(edges: seq<MeshEdge>, kind: EdgeKind, node: MeshRef, stack0: seq<MeshRef>)
    returns (stack: seq<MeshRef>)
    ensures Pushed(Links(edges, kind), node, stack0, stack)
  {
    stack := stack0;
    for i := 0 to |edges|
      invariant Pushed(Links(edges[..i], kind), node, stack0, stack)
    {
      var e := edges[i];
      assert edges[..i + 1] == edges[..i] + [e];
      LinksAppend(edges[..i], e, kind);
      if e.kind == kind && e.from == node {
        stack := stack + [e.to];
      }
    }
    assert edges[..|edges|] == edges;
  }

  /** The guard is exact: for a non-symmetric kind it answers yes exactly when the
      candidate's source is reachable from its target over edges of that kind. */
  method WouldCreateCycle(edges: seq<MeshEdge>, candidate: MeshEdge) returns (r: bool)
    ensures r <==> !candidate.kind.IsSymmetric()
                   && Reaches(Links(edges, candidate.kind), candidate.to, candidate.from)
  {
    var kind := candidate.kind;
    if kind.IsSymmetric() {
      return false;
    }
    ghost var links := Links(edges, kind);
    ghost var nodes := Nodes(links, candidate.to);
    var stack := [candidate.to];
    var seen: set<MeshRef> := {};
    ReachesSelf(links, candidate.to);
    while stack != []
      invariant SearchInv(links, candidate.to, candidate.from, seen, stack)
      invariant seen <= nodes
      decreases |nodes - seen|, |stack|
    {
      var node := stack[|stack| - 1];
      var rest := stack[..|stack| - 1];
      assert stack == rest + [node];
      if node == candidate.from {
        return true;
      }
      stack := rest;
      if node !in seen {
        FoundNode(links, candidate.to, node);
        OneFewer(nodes, seen, node);
        stack := PushSuccessors(edges, kind, node, rest);
        SearchExpands(links, candidate.to, candidate.from, seen, rest, node, stack);
        seen := seen + {node};
      }
    }
    SearchExhausted(links, candidate.to, candidate.from, seen);
    r := false;
  }

  // ---- Linking: canonical form, deduplication and guard together ----

  predicate AlreadyLinked(edges: seq<MeshEdge>, e: MeshEdge) {
    exists i :: 0 <= i < |edges| && SameRelationship(edges[i], e)
  }

  ghost predicate Forbidden(edges: seq<MeshEdge>, e: MeshEdge) {
    !e.kind.IsSymmetric() && Reaches(Links(edges, e.kind), e.to, e.from)
  }

  /** A store's rows after a link request. */
  ghost function Linked(edges: seq<MeshEdge>, e: MeshEdge): seq<MeshEdge> {
    if AlreadyLinked(edges, e) || Forbidden(edges, e) then edges else edges + [e]
  }

  method Link(edges: seq<MeshEdge>, from: MeshRef, kind: EdgeKind, to: MeshRef, createdBy: string)
    returns (after: seq<MeshEdge>)
    ensures after == match Canonical(from, kind, to, createdBy)
                     case None => edges
                     case Some(e) => Linked(edges, e)
  {
    var canonical := Canonical(from, kind, to, createdBy);
    if canonical.None? {
      return edges;
    }
    var e := canonical.value;
    if AlreadyLinked(edges, e) {
      return edges;
    }
    var cycle := WouldCreateCycle(edges, e);
    after := if cycle then edges else edges + [e];
  }

  ghost predicate Sound(edges: seq<MeshEdge>) {
    && (forall e :: e in edges ==> e.kind.IsCanonical() && e.from != e.to)
    && (forall i, j :: 0 <= i < j < |edges| ==> !SameRelationship(edges[i], edges[j]))
    && (forall kind: EdgeKind :: !kind.IsSymmetric() ==> Acyclic(Links(edges, kind)))
  }

  lemma LinkedStaysSound(edges: seq<MeshEdge>, e: MeshEdge)
    requires Sound(edges) && e.kind.IsCanonical() && e.from != e.to
    ensures Sound(Linked(edges, e))
  {
    var after := Linked(edges, e);
    if after != edges {
      forall kind: EdgeKind | !kind.IsSymmetric()
        ensures Acyclic(Links(after, kind))
      {
        LinksAppend(edges, e, kind);
        if kind == e.kind {
          LinkClosesCycleIff(Links(edges, kind), e.from, e.to);
        } else {
          assert Links(after, kind) == Links(edges, kind);
        }
      }
    }
  }

  datatype Request = Request(from: MeshRef, kind: EdgeKind, to: MeshRef, createdBy: string)

  ghost function LinkAll(requests: seq<Request>): seq<MeshEdge> {
    if requests == [] then []
    else
      var edges, r := LinkAll(requests[..|requests| - 1]), requests[|requests| - 1];
      match Canonical(r.from, r.kind, r.to, r.createdBy)
      case None => edges
      case Some(e) => Linked(edges, e)
  }

  /** Whatever links are requested, in whatever order and from whichever end, the
      rows stay canonical, one per relationship, and acyclic in every directed kind. */
  lemma {:induction false} LinkedRowsAreSound(requests: seq<Request>)
    ensures Sound(LinkAll(requests))
  {
    if requests == [] {
      assert forall p: seq<MeshRef>, kind: EdgeKind :: |p| >= 2 && IsPath(Links([], kind), p) ==> LinkAt(Links([], kind), p, 0);
    } else {
      var init, r := requests[..|requests| - 1], requests[|requests| - 1];
      LinkedRowsAreSound(init);
      InverseFlipsCanonical(r.kind);
      match Canonical(r.from, r.kind, r.to, r.createdBy)
      case None =>
      case Some(e) => LinkedStaysSound(LinkAll(init), e);
    }
  }

  lemma LinkedIsKept(edges: seq<MeshEdge>, e: MeshEdge, other: MeshEdge)
    ensures AlreadyLinked(edges, e) ==> AlreadyLinked(Linked(edges, other), e)
    ensures AlreadyLinked(Linked(edges, e), e) || Forbidden(edges, e)
  {
    if AlreadyLinked(edges, e) {
      var i :| 0 <= i < |edges| && SameRelationship(edges[i], e);
      assert SameRelationship(Linked(edges, other)[i], e);
    }
    if !AlreadyLinked(edges, e) && !Forbidden(edges, e) {
      assert SameRelationship(Linked(edges, e)[|edges|], e);
    }
  }

  lemma StoredStays(init: seq<Request>, last: Request, e: MeshEdge)
    requires AlreadyLinked(LinkAll(init), e)
    ensures AlreadyLinked(LinkAll(init + [last]), e)
  {
    assert (init + [last])[..|init|] == init;
    if last.from != last.to {
      LinkedIsKept(LinkAll(init), e, Canonical(last.from, last.kind, last.to, last.createdBy).value);
    }
  }

  lemma StoredUnlessRefused(init: seq<Request>, r: Request)
    requires r.from != r.to
    ensures var e := Canonical(r.from, r.kind, r.to, r.createdBy).value;
            AlreadyLinked(LinkAll(init + [r]), e) || Forbidden(LinkAll(init), e)
  {
    var e := Canonical(r.from, r.kind, r.to, r.createdBy).value;
    assert (init + [r])[..|init|] == init;
    LinkedIsKept(LinkAll(init), e, e);
  }

  /** Every relationship asked for is among the rows in the end, unless it links a node to
      itself or was refused because of a cycle at its turn. */
  lemma {:induction false} EveryLinkIsStored(requests: seq<Request>, n: nat)
    requires n < |requests| && requests[n].from != requests[n].to
    ensures var r := requests[n];
            var e := Canonical(r.from, r.kind, r.to, r.createdBy).value;
            AlreadyLinked(LinkAll(requests), e) || Forbidden(LinkAll(requests[..n]), e)
  {
    var m := |requests| - 1;
    var init, last, r := requests[..m], requests[m], requests[n];
    var e := Canonical(r.from, r.kind, r.to, r.createdBy).value;
    assert requests == init + [last] && requests[..n] == init[..n];
    if n == m {
      StoredUnlessRefused(init, last);
    } else {
      EveryLinkIsStored(init, n);
      if AlreadyLinked(LinkAll(init), e) {
        StoredStays(init, last, e);
      }
    }
  }

  /** And every row is the stored form of a relationship asked for. */
  lemma {:induction false} EveryRowWasAsked(requests: seq<Request>, e: MeshEdge)
    requires e in LinkAll(requests)
    ensures exists r :: r in requests && Canonical(r.from, r.kind, r.to, r.createdBy) == Some(e)
  {
    var init, last := requests[..|requests| - 1], requests[|requests| - 1];
    assert requests == init + [last];
    if e in LinkAll(init) {
      EveryRowWasAsked(init, e);
    } else {
      assert last in requests;
    }
  }

  /** The guard refuses no more than it must: a refused edge would have closed a
      cycle among the rows of its kind. */
  lemma RefusedOnlyForCycles(requests: seq<Request>, e: MeshEdge)
    requires !e.kind.IsSymmetric()
    ensures Forbidden(LinkAll(requests), e) <==> !Acyclic(Links(LinkAll(requests) + [e], e.kind))
  {
    LinkedRowsAreSound(requests);
    LinksAppend(LinkAll(requests), e, e.kind);
    LinkClosesCycleIff(Links(LinkAll(requests), e.kind), e.from, e.to);
  }
}
