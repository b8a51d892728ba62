/** Reachability and acyclicity of a finite set of directed links. */
module Reachability {

  predicate LinkAt<T(==)>(links: set<(T, T)>, p: seq<T>, i: nat)
    requires i + 1 < |p|
  {
    (p[i], p[i + 1]) in links
  }

  ghost predicate IsPath<T>(links: set<(T, T)>, p: seq<T>) {
    |p| >= 1 && forall i: nat :: i + 1 < |p| ==> LinkAt(links, p, i)
  }

  ghost predicate Connects<T>(links: set<(T, T)>, p: seq<T>, a: T, b: T) {
    IsPath(links, p) && p[0] == a && p[|p| - 1] == b
  }

  ghost predicate Reaches<T(!new)>(links: set<(T, T)>, a: T, b: T) {
    exists p :: Connects(links, p, a, b)
  }

  ghost predicate Acyclic<T(!new)>(links: set<(T, T)>) {
    forall p :: |p| >= 2 && IsPath(links, p) ==> p[0] != p[|p| - 1]
  }

  lemma ReachesSelf<T(!new)>(links: set<(T, T)>, a: T)
    ensures Reaches(links, a, a)
  {
    assert Connects(links, [a], a, a);
  }

  lemma PathCons<T>(links: set<(T, T)>, a: T, p: seq<T>)
    requires IsPath(links, p) && (a, p[0]) in links
    ensures IsPath(links, [a] + p)
  {
    forall i: nat | i + 1 < |p| + 1
      ensures LinkAt(links, [a] + p, i)
    {
      assert i > 0 ==> LinkAt(links, p, i - 1);
    }
  }

  lemma PathTail<T>(links: set<(T, T)>, p: seq<T>)
    requires IsPath(links, p) && |p| >= 2
    ensures (p[0], p[1]) in links && IsPath(links, p[1..])
  {
    assert LinkAt(links, p, 0);
    forall i: nat | i + 1 < |p| - 1
      ensures LinkAt(links, p[1..], i)
    {
      assert LinkAt(links, p, i + 1);
    }
  }

  lemma PathJoin<T>(links: set<(T, T)>, p: seq<T>, q: seq<T>)
    requires IsPath(links, p) && IsPath(links, q) && p[|p| - 1] == q[0]
    ensures IsPath(links, p + q[1..])
  {
    var r := p + q[1..];
    forall i: nat | i + 1 < |r|
      ensures LinkAt(links, r, i)
    {
      if i + 1 < |p| {
        assert LinkAt(links, p, i);
      } else {
        assert LinkAt(links, q, i + 1 - |p|);
      }
    }
  }

  lemma ReachesStep<T(!new)>(links: set<(T, T)>, a: T, b: T, c: T)
    requires (a, b) in links && Reaches(links, b, c)
    ensures Reaches(links, a, c)
  {
    var p :| Connects(links, p, b, c);
    PathCons(links, a, p);
    assert Connects(links, [a] + p, a, c);
  }

  lemma ReachesTransitive<T(!new)>(links: set<(T, T)>, a: T, b: T, c: T)
    requires Reaches(links, a, b) && Reaches(links, b, c)
    ensures Reaches(links, a, c)
  {
    var p :| Connects(links, p, a, b);
    var q :| Connects(links, q, b, c);
    PathJoin(links, p, q);
    assert Connects(links, p + q[1..], a, c);
  }

  lemma ReachesFurther<T(!new)>(links: set<(T, T)>, a: T, b: T, c: T)
    requires Reaches(links, a, b) && (b, c) in links
    ensures Reaches(links, a, c)
  {
    ReachesSelf(links, c);
    ReachesStep(links, b, c, c);
    ReachesTransitive(links, a, b, c);
  }

  /** A set closed under the links contains everything reachable from it. */
  lemma {:induction false} ClosedContainsPath<T>(links: set<(T, T)>, seen: set<T>, p: seq<T>)
    requires IsPath(links, p) && p[0] in seen
    requires forall x, y :: x in seen && (x, y) in links ==> y in seen
    ensures p[|p| - 1] in seen
  {
    if |p| >= 2 {
      PathTail(links, p);
      ClosedContainsPath(links, seen, p[1..]);
    }
  }

  /** A path over one link more either avoids it or leads to it and on from it. */
  lemma {:induction false} PathWithOneMoreLink<T(!new)>(links: set<(T, T)>, from: T, to: T, p: seq<T>)
    requires IsPath(links + {(from, to)}, p)
    ensures IsPath(links, p)
            || (Reaches(links, p[0], from) && Reaches(links, to, p[|p| - 1]))
  {
    if |p| >= 2 {
      PathTail(links + {(from, to)}, p);
      PathWithOneMoreLink(links, from, to, p[1..]);
      if (p[0], p[1]) in links {
        if IsPath(links, p[1..]) {
          PathCons(links, p[0], p[1..]);
          assert [p[0]] + p[1..] == p;
        } else {
          ReachesStep(links, p[0], p[1], from);
        }
      } else {
        ReachesSelf(links, from);
        if IsPath(links, p[1..]) {
          assert Connects(links, p[1..], to, p[|p| - 1]);
        }
      }
    }
  }

  /** Adding a link to an acyclic set closes a cycle exactly when its source is
      already reachable from its target. */
  lemma LinkClosesCycleIff<T(!new)>(links: set<(T, T)>, from: T, to: T)
    requires Acyclic(links)
    ensures Acyclic(links + {(from, to)}) <==> !Reaches(links, to, from)
  {
    var more := links + {(from, to)};
    if Reaches(links, to, from) {
      var p :| Connects(links, p, to, from);
      assert IsPath(more, p) by {
        forall i: nat | i + 1 < |p|
          ensures LinkAt(more, p, i)
        {
          assert LinkAt(links, p, i);
        }
      }
      PathCons(more, from, p);
      assert IsPath(more, [from] + p) && ([from] + p)[0] == ([from] + p)[|p|];
    } else {
      forall p | |p| >= 2 && IsPath(more, p)
        ensures p[0] != p[|p| - 1]
      {
        PathWithOneMoreLink(links, from, to, p);
        if p[0] == p[|p| - 1] && Reaches(links, p[0], from) && Reaches(links, to, p[0]) {
          ReachesTransitive(links, to, p[0], from);
        }
      }
    }
  }

  // ---- Worklist search ----

  /** What a worklist search keeps: everything found is reachable, the goal has not
      been expanded, and an expanded node has all its successors found. */
  ghost predicate SearchInv<T(!new)>(links: set<(T, T)>, start: T, goal: T, seen: set<T>, stack: seq<T>) {
    && (forall x :: x in seen || x in stack ==> Reaches(links, start, x))
    && (start in seen || start in stack)
    && goal !in seen
    && (forall x, y :: x in seen && (x, y) in links ==> y in seen || y in stack)
  }

  ghost predicate Pushed<T(!new)>(links: set<(T, T)>, node: T, before: seq<T>, after: seq<T>) {
    forall x :: x in after <==> x in before || (node, x) in links
  }

  ghost function Nodes<T>(links: set<(T, T)>, start: T): set<T> {
    {start} + set l | l in links :: l.1
  }

  lemma FoundNode<T(!new)>(links: set<(T, T)>, start: T, x: T)
    requires Reaches(links, start, x)
    ensures x in Nodes(links, start)
  {
    var p :| Connects(links, p, start, x);
    if |p| >= 2 {
      assert LinkAt(links, p, |p| - 2);
    }
  }

  lemma SearchExpands<T(!new)>(links: set<(T, T)>, start: T, goal: T, seen: set<T>,
                               rest: seq<T>, node: T, after: seq<T>)
    requires SearchInv(links, start, goal, seen, rest + [node]) && node != goal
    requires Pushed(links, node, rest, after)
    ensures SearchInv(links, start, goal, seen + {node}, after)
  {
    forall x | x in after
      ensures Reaches(links, start, x)
    {
      assert node in rest + [node];
      if x in rest {
        assert x in rest + [node];
      } else {
        ReachesFurther(links, start, node, x);
      }
    }
  }

  lemma SearchExhausted<T(!new)>(links: set<(T, T)>, start: T, goal: T, seen: set<T>)
    requires SearchInv(links, start, goal, seen, [])
    ensures !Reaches(links, start, goal)
  {
    if Reaches(links, start, goal) {
      var p :| Connects(links, p, start, goal);
      ClosedContainsPath(links, seen, p);
    }
  }

  // ---- Renaming nodes ----

  /** image holds exactly the renamed links, and no two nodes get one name. */
  ghost predicate Renames<T(!new), U(!new)>(links: set<(T, T)>, image: set<(U, U)>, f: T -> U) {
    && (forall x, y :: f(x) == f(y) ==> x == y)
    && (forall l :: l in links ==> (f(l.0), f(l.1)) in image)
    && (forall m :: m in image ==> exists l :: l in links && m == (f(l.0), f(l.1)))
  }

  lemma {:induction false} PathRenamed<T(!new), U(!new)>(links: set<(T, T)>, image: set<(U, U)>, f: T -> U, p: seq<T>)
    requires Renames(links, image, f) && IsPath(links, p)
    ensures Reaches(image, f(p[0]), f(p[|p| - 1]))
  {
    if |p| == 1 {
      ReachesSelf(image, f(p[0]));
    } else {
      PathTail(links, p);
      PathRenamed(links, image, f, p[1..]);
      var l := (p[0], p[1]);
      assert (f(l.0), f(l.1)) in image;
      ReachesStep(image, f(p[0]), f(p[1]), f(p[|p| - 1]));
    }
  }

  lemma {:induction false} PathNamedBack<T(!new), U(!new)>(links: set<(T, T)>, image: set<(U, U)>, f: T -> U,
                                                           p: seq<U>, a: T, b: T)
    requires Renames(links, image, f) && Connects(image, p, f(a), f(b))
    ensures Reaches(links, a, b)
  {
    if |p| == 1 {
      ReachesSelf(links, a);
    } else {
      PathTail(image, p);
      var m := (p[0], p[1]);
      var l :| l in links && m == (f(l.0), f(l.1));
      PathNamedBack(links, image, f, p[1..], l.1, b);
      ReachesStep(links, a, l.1, b);
    }
  }

  /** Renaming nodes apart changes nothing about who reaches whom. */
  lemma RenamingKeepsReachability<T(!new), U(!new)>(links: set<(T, T)>, image: set<(U, U)>, f: T -> U, a: T, b: T)
    requires Renames(links, image, f)
    ensures Reaches(image, f(a), f(b)) <==> Reaches(links, a, b)
  {
    if Reaches(links, a, b) {
      var p :| Connects(links, p, a, b);
      PathRenamed(links, image, f, p);
    }
    if Reaches(image, f(a), f(b)) {
      var p :| Connects(image, p, f(a), f(b));
      PathNamedBack(links, image, f, p, a, b);
    }
  }

  lemma OneFewer<T>(nodes: set<T>, seen: set<T>, node: T)
    requires node in nodes && node !in seen
    ensures |nodes - (seen + {node})| < |nodes - seen|
  {
    assert nodes - seen == (nodes - (seen + {node})) + {node};
  }
}
