/** Two outputs of one role in one step, anywhere among other outputs: exactly when it
    matters which of the two comes first. */
module MergeSwaps {
  import opened Sorting
  import opened Orchestration
  import opened MergeKeys

  // ---- Folds that go on with the same writes ----

  ghost predicate SameStands(s: State, t: State) {
    s.values == t.values && s.owners == t.owners
  }

  /** From the same values and owners, the same writes add the same conflicts. */
  lemma {:induction false} FoldGoesOn(a: seq<Write>, b: seq<Write>, l: seq<Write>, strategy: Strategy)
    returns (more: seq<Conflict>)
    requires SameStands(Fold(a, strategy), Fold(b, strategy))
    ensures SameStands(Fold(a + l, strategy), Fold(b + l, strategy))
    ensures Fold(a + l, strategy).conflicts == Fold(a, strategy).conflicts + more
    ensures Fold(b + l, strategy).conflicts == Fold(b, strategy).conflicts + more
  {
    if l == [] {
      assert a + l == a && b + l == b;
      more := [];
    } else {
      var init, w := l[..|l| - 1], l[|l| - 1];
      var before := FoldGoesOn(a, b, init, strategy);
      FoldLast(a, l, strategy);
      FoldLast(b, l, strategy);
      var s, t := Fold(a + init, strategy), Fold(b + init, strategy);
      StepGoesOn(s, t, w, strategy);
      more := before + Added(s, w);
      Associates(Fold(a, strategy).conflicts, before, Added(s, w));
      Associates(Fold(b, strategy).conflicts, before, Added(s, w));
    }
  }

  lemma FoldLast(a: seq<Write>, l: seq<Write>, strategy: Strategy)
    requires l != []
    ensures Fold(a + l, strategy) == Step(Fold(a + l[..|l| - 1], strategy), l[|l| - 1], strategy)
  {
    assert (a + l)[..|a + l| - 1] == a + l[..|l| - 1];
  }

  lemma StepGoesOn(s: State, t: State, w: Write, strategy: Strategy)
    requires SameStands(s, t)
    ensures SameStands(Step(s, w, strategy), Step(t, w, strategy))
    ensures Step(s, w, strategy).conflicts == s.conflicts + Added(s, w)
    ensures Step(t, w, strategy).conflicts == t.conflicts + Added(s, w)
  {
  }

  lemma AddsConflicts(s: State, w: Write, strategy: Strategy)
    ensures Step(s, w, strategy).conflicts == s.conflicts + Added(s, w)
  {
  }

  /** No later write can clash with c's standing value again: a better role owns the key,
      or the same role with another value. */
  ghost predicate Past(s: State, c: Conflict) {
    && c.key in s.owners && c.key in s.values
    && (MergePriority(s.owners[c.key]) < MergePriority(c.existingRole)
        || (s.owners[c.key] == c.existingRole && s.values[c.key] != c.existingValue))
  }

  lemma StepStaysPast(s: State, w: Write, strategy: Strategy, c: Conflict)
    requires Past(s, c) && s.values.Keys == s.owners.Keys
    ensures Past(Step(s, w, strategy), c) && c !in Added(s, w)
  {
  }

  lemma SameKeys(ws: seq<Write>, strategy: Strategy)
    ensures Fold(ws, strategy).values.Keys == Fold(ws, strategy).owners.Keys
  {
    forall key
      ensures key in Fold(ws, strategy).values <==> key in Fold(ws, strategy).owners
    {
      OwnersWroteTheirValues(ws, strategy, key);
    }
  }

  lemma {:induction false} PastStaysPast(a: seq<Write>, l: seq<Write>, strategy: Strategy, c: Conflict)
    requires Past(Fold(a, strategy), c)
    ensures Past(Fold(a + l, strategy), c)
    ensures multiset(Fold(a + l, strategy).conflicts)[c] == multiset(Fold(a, strategy).conflicts)[c]
  {
    if l == [] {
      assert a + l == a;
    } else {
      var init, w := l[..|l| - 1], l[|l| - 1];
      PastStaysPast(a, init, strategy, c);
      FoldLast(a, l, strategy);
      SameKeys(a + init, strategy);
      StepStaysPast(Fold(a + init, strategy), w, strategy, c);
      AddsConflicts(Fold(a + init, strategy), w, strategy);
    }
  }

  // ---- Two writes of one role to one key ----

  /** A value stands that this role cannot override. */
  ghost predicate Shields(s: State, key: string, role: Role, strategy: Strategy) {
    key in s.values && key in s.owners
    && (strategy == FailOnConflict || MergePriority(s.owners[key]) <= MergePriority(role))
  }

  lemma FoldTwo(p: seq<Write>, u: Write, v: Write, strategy: Strategy)
    ensures Fold(p + [u, v], strategy) == Step(Step(Fold(p, strategy), u, strategy), v, strategy)
  {
    var ws := p + [u, v];
    assert ws[..|ws| - 1] == p + [u] && (p + [u])[..|p|] == p;
  }

  lemma ShieldedStep(s: State, w: Write, strategy: Strategy)
    requires Shields(s, w.key, w.role, strategy)
    ensures Step(s, w, strategy) == s.(conflicts := s.conflicts + Added(s, w))
  {
  }

  lemma ShieldedSwap(p: seq<Write>, l: seq<Write>, u: Write, v: Write, strategy: Strategy)
    requires u.key == v.key && u.role == v.role && Shields(Fold(p, strategy), u.key, u.role, strategy)
    ensures var (s, t) := (Fold(p + [u, v] + l, strategy), Fold(p + [v, u] + l, strategy));
            SameStands(s, t) && multiset(s.conflicts) == multiset(t.conflicts)
  {
    var s := Fold(p, strategy);
    var cu, cv := Added(s, u), Added(s, v);
    FoldTwo(p, u, v, strategy);
    FoldTwo(p, v, u, strategy);
    ShieldedStep(s, u, strategy);
    ShieldedStep(s, v, strategy);
    ShieldedStep(s.(conflicts := s.conflicts + cu), v, strategy);
    ShieldedStep(s.(conflicts := s.conflicts + cv), u, strategy);
    var more := FoldGoesOn(p + [u, v], p + [v, u], l, strategy);
    assert multiset(s.conflicts + cu + cv + more) == multiset(s.conflicts + cv + cu + more);
  }

  /** The first of two clashing writes takes the key, whichever it is. */
  lemma FirstTakes(s: State, u: Write, v: Write, strategy: Strategy)
    requires u.key == v.key && u.role == v.role && u.value != v.value
    requires s.values.Keys == s.owners.Keys && !Shields(s, u.key, u.role, strategy)
    requires u.key in s.values ==> s.values[u.key] != u.value
    ensures var t := Step(Step(s, u, strategy), v, strategy);
            && u.key in t.values && t.values == s.values[u.key := u.value] && t.owners == s.owners[u.key := u.role]
            && t.conflicts == s.conflicts + Added(s, u) + [Conflict(u.key, u.role, u.role, u.value, v.value)]
  {
  }

  /** The conflict that tells u came first: the one it made, or the one v made with it. */
  function Telltale(s: State, u: Write, v: Write): Conflict {
    if Added(s, u) == [] then Conflict(u.key, u.role, u.role, u.value, v.value) else Added(s, u)[0]
  }

  lemma FirstTells(s: State, u: Write, v: Write, strategy: Strategy)
    requires u.key == v.key && u.role == v.role && u.value != v.value
    requires s.values.Keys == s.owners.Keys && !Shields(s, u.key, u.role, strategy)
    requires u.key in s.values ==> s.values[u.key] !in {u.value, v.value}
    ensures var c := Telltale(s, u, v);
            var (first, second) := (Step(Step(s, u, strategy), v, strategy), Step(Step(s, v, strategy), u, strategy));
            && Past(second, c)
            && multiset(first.conflicts)[c] == multiset(s.conflicts)[c] + 1
            && multiset(second.conflicts)[c] == multiset(s.conflicts)[c]
  {
    FirstTakes(s, u, v, strategy);
    SecondIsSilent(s, u, v, strategy);
  }

  lemma SecondIsSilent(s: State, u: Write, v: Write, strategy: Strategy)
    requires u.key == v.key && u.role == v.role && u.value != v.value
    requires s.values.Keys == s.owners.Keys && !Shields(s, u.key, u.role, strategy)
    requires u.key in s.values ==> s.values[u.key] !in {u.value, v.value}
    ensures var c := Telltale(s, u, v);
            var second := Step(Step(s, v, strategy), u, strategy);
            Past(second, c) && multiset(second.conflicts)[c] == multiset(s.conflicts)[c]
  {
    FirstTakes(s, v, u, strategy);
  }

  lemma CountsGrow(a: seq<Write>, l: seq<Write>, strategy: Strategy, c: Conflict)
    ensures multiset(Fold(a + l, strategy).conflicts)[c] >= multiset(Fold(a, strategy).conflicts)[c]
  {
    var more := FoldGoesOn(a, a, l, strategy);
    assert multiset(Fold(a, strategy).conflicts + more) == multiset(Fold(a, strategy).conflicts) + multiset(more);
  }

  ghost predicate CountsDiffer(s: State, t: State, c: Conflict) {
    multiset(s.conflicts)[c] != multiset(t.conflicts)[c]
  }

  lemma UnseenSwap(p: seq<Write>, l: seq<Write>, u: Write, v: Write, strategy: Strategy)
    requires u.key == v.key && u.role == v.role && u.value != v.value
    requires var s := Fold(p, strategy);
             !Shields(s, u.key, u.role, strategy) && (u.key in s.values ==> s.values[u.key] !in {u.value, v.value})
    ensures CountsDiffer(Fold(p + [u, v] + l, strategy), Fold(p + [v, u] + l, strategy),
                         Telltale(Fold(p, strategy), u, v))
  {
    var s := Fold(p, strategy);
    var c := Telltale(s, u, v);
    SameKeys(p, strategy);
    FoldTwo(p, u, v, strategy);
    FoldTwo(p, v, u, strategy);
    FirstTells(s, u, v, strategy);
    CountsGrow(p + [u, v], l, strategy, c);
    PastStaysPast(p + [v, u], l, strategy, c);
  }

  /** When u repeats the standing value it is absorbed if it comes first, and makes a
      conflict with v if it comes second. */
  lemma RepeatTells(s: State, u: Write, v: Write, strategy: Strategy)
    requires u.key == v.key && u.role == v.role && u.value != v.value
    requires s.values.Keys == s.owners.Keys && !Shields(s, u.key, u.role, strategy)
    requires u.key in s.values && s.values[u.key] == u.value
    ensures var (first, second) := (Step(Step(s, u, strategy), v, strategy), Step(Step(s, v, strategy), u, strategy));
            && SameStands(first, second)
            && second.conflicts == first.conflicts + [Conflict(u.key, u.role, u.role, v.value, u.value)]
  {
    FirstTakes(s, v, u, strategy);
  }

  lemma RepeatedSwap(p: seq<Write>, l: seq<Write>, u: Write, v: Write, strategy: Strategy)
    requires u.key == v.key && u.role == v.role && u.value != v.value
    requires var s := Fold(p, strategy);
             !Shields(s, u.key, u.role, strategy) && u.key in s.values && s.values[u.key] == u.value
    ensures CountsDiffer(Fold(p + [u, v] + l, strategy), Fold(p + [v, u] + l, strategy),
                         Conflict(u.key, u.role, u.role, v.value, u.value))
  {
    var c := Conflict(u.key, u.role, u.role, v.value, u.value);
    SameKeys(p, strategy);
    FoldTwo(p, u, v, strategy);
    FoldTwo(p, v, u, strategy);
    RepeatTells(Fold(p, strategy), u, v, strategy);
    var more := FoldGoesOn(p + [u, v], p + [v, u], l, strategy);
    var first := Fold(p + [u, v], strategy).conflicts;
    assert multiset(first + more) == multiset(first) + multiset(more);
    assert multiset(first + [c] + more) == multiset(first) + multiset{c} + multiset(more);
  }

  /** Where nothing shields the key, the swap shows in the conflicts. */
  lemma UnshieldedSwap(p: seq<Write>, l: seq<Write>, u: Write, v: Write, strategy: Strategy) returns (c: Conflict)
    requires u.key == v.key && u.role == v.role && u.value != v.value
    requires !Shields(Fold(p, strategy), u.key, u.role, strategy)
    ensures c.key == u.key && CountsDiffer(Fold(p + [u, v] + l, strategy), Fold(p + [v, u] + l, strategy), c)
  {
    var s := Fold(p, strategy);
    if u.key in s.values && s.values[u.key] == u.value {
      RepeatedSwap(p, l, u, v, strategy);
      c := Conflict(u.key, u.role, u.role, v.value, u.value);
    } else if u.key in s.values && s.values[u.key] == v.value {
      RepeatedSwap(p, l, v, u, strategy);
      c := Conflict(u.key, u.role, u.role, u.value, v.value);
    } else {
      UnseenSwap(p, l, u, v, strategy);
      c := Telltale(s, u, v);
    }
  }

  // ---- Two outputs among others ----

  /** Two merges that leave the same values and the same conflicts, counted. */
  ghost predicate SameMerge(m: Outcome, n: Outcome) {
    m.values == n.values && multiset(m.conflicts) == multiset(n.conflicts)
  }

  lemma {:induction false} WritesAppend(a: seq<RoleOutput>, b: seq<RoleOutput>)
    ensures Writes(a + b) == Writes(a) + Writes(b)
  {
    if b == [] {
      assert a + b == a;
    } else {
      var init, o := b[..|b| - 1], b[|b| - 1];
      WritesAppend(a, init);
      assert (a + b)[..|a + b| - 1] == a + init && (a + b)[|a + b| - 1] == o;
      Associates(Writes(a), Writes(init), OutputWrites(o));
    }
  }

  /** The writes to one key, the two outputs' in the middle. */
  function KeyTwo(before: seq<RoleOutput>, a: RoleOutput, b: RoleOutput, after: seq<RoleOutput>, key: string): seq<Write> {
    KeyWrites(Writes(before), key) + (KeyWrites(OutputWrites(a), key) + KeyWrites(OutputWrites(b), key))
    + KeyWrites(Writes(after), key)
  }

  lemma WritesInOrder(before: seq<RoleOutput>, a: RoleOutput, b: RoleOutput, after: seq<RoleOutput>)
    ensures Writes(before + [a, b] + after)
            == Writes(before) + (OutputWrites(a) + OutputWrites(b)) + Writes(after)
  {
    WritesAppend(before + [a, b], after);
    WritesAppend(before, [a, b]);
    WritesOfPair(a, b);
  }

  lemma WritesOfPair(a: RoleOutput, b: RoleOutput)
    ensures Writes([a, b]) == OutputWrites(a) + OutputWrites(b)
  {
    assert [a, b][..1] == [a] && [a][..0] == [];
    assert Writes([a]) == OutputWrites(a);
  }

  lemma WritesOfTwo(before: seq<RoleOutput>, a: RoleOutput, b: RoleOutput, after: seq<RoleOutput>, key: string)
    ensures KeyWrites(Writes(before + [a, b] + after), key) == KeyTwo(before, a, b, after, key)
  {
    var x, y, z := Writes(before), OutputWrites(a) + OutputWrites(b), Writes(after);
    WritesInOrder(before, a, b, after);
    KeyWritesAppend(x + y, z, key);
    KeyWritesAppend(x, y, key);
    KeyWritesAppend(OutputWrites(a), OutputWrites(b), key);
  }

  /** What a sorted merge leaves at one key. */
  lemma MergedAtKey(before: seq<RoleOutput>, a: RoleOutput, b: RoleOutput, after: seq<RoleOutput>,
                    strategy: Strategy, key: string)
    requires SortedByKey(before + [a, b] + after, Slot)
    ensures var m := Merged(before + [a, b] + after, strategy);
            var s := Fold(KeyTwo(before, a, b, after, key), strategy);
            && (key in m.values <==> key in s.values)
            && (key in s.values ==> m.values[key] == s.values[key])
            && forall c: Conflict :: c.key == key ==> multiset(m.conflicts)[c] == multiset(s.conflicts)[c]
  {
    var outputs := before + [a, b] + after;
    SortOfSorted(outputs, Slot);
    WritesOfTwo(before, a, b, after, key);
    FoldIsKeywise(Writes(outputs), strategy, key);
    forall c: Conflict | c.key == key
      ensures multiset(Fold(Writes(outputs), strategy).conflicts)[c]
              == multiset(Fold(KeyTwo(before, a, b, after, key), strategy).conflicts)[c]
    {
      CountAtKey(Fold(Writes(outputs), strategy).conflicts, c);
      CountAtKey(Fold(KeyTwo(before, a, b, after, key), strategy).conflicts, c);
    }
  }

  /** After the outputs before them, a value stands that the role of the two cannot
      override. */
  ghost predicate Shielded(before: seq<RoleOutput>, key: string, role: Role, strategy: Strategy) {
    Shields(Fold(Writes(before), strategy), key, role, strategy)
  }

  /** The two disagree on this key and nothing shields it. */
  ghost predicate OrderShows(before: seq<RoleOutput>, a: RoleOutput, b: RoleOutput, strategy: Strategy, key: string) {
    key in a.values && key in b.values && a.values[key] != b.values[key] && !Shielded(before, key, a.role, strategy)
  }

  lemma KeyTwoOfBoth(before: seq<RoleOutput>, a: RoleOutput, b: RoleOutput, after: seq<RoleOutput>, key: string)
    requires key in a.values && key in b.values
    ensures KeyTwo(before, a, b, after, key)
            == KeyWrites(Writes(before), key)
               + [Write(key, a.values[key], a.role), Write(key, b.values[key], b.role)]
               + KeyWrites(Writes(after), key)
  {
    OutputOnKey(a, key);
    OutputOnKey(b, key);
    assert [Write(key, a.values[key], a.role)] + [Write(key, b.values[key], b.role)]
           == [Write(key, a.values[key], a.role), Write(key, b.values[key], b.role)];
  }

  lemma KeyTwoOfOne(before: seq<RoleOutput>, a: RoleOutput, b: RoleOutput, after: seq<RoleOutput>, key: string)
    requires key !in a.values || key !in b.values
    ensures KeyTwo(before, a, b, after, key) == KeyTwo(before, b, a, after, key)
  {
    OutputOnKey(a, key);
    OutputOnKey(b, key);
    var x, y := KeyWrites(OutputWrites(a), key), KeyWrites(OutputWrites(b), key);
    assert x + y == y + x;
  }

  lemma SwapAtKey(before: seq<RoleOutput>, a: RoleOutput, b: RoleOutput, after: seq<RoleOutput>,
                  strategy: Strategy, key: string)
    requires a.role == b.role && !OrderShows(before, a, b, strategy, key)
    ensures var s := Fold(KeyTwo(before, a, b, after, key), strategy);
            var t := Fold(KeyTwo(before, b, a, after, key), strategy);
            SameStands(s, t) && multiset(s.conflicts) == multiset(t.conflicts)
  {
    if key in a.values && key in b.values {
      KeyTwoOfBoth(before, a, b, after, key);
      KeyTwoOfBoth(before, b, a, after, key);
      if a.values[key] != b.values[key] {
        FoldIsKeywise(Writes(before), strategy, key);
        ShieldedSwap(KeyWrites(Writes(before), key), KeyWrites(Writes(after), key),
                     Write(key, a.values[key], a.role), Write(key, b.values[key], b.role), strategy);
      }
    } else {
      KeyTwoOfOne(before, a, b, after, key);
    }
  }

  lemma SwapShowsAtKey(before: seq<RoleOutput>, a: RoleOutput, b: RoleOutput, after: seq<RoleOutput>,
                       strategy: Strategy, key: string) returns (c: Conflict)
    requires a.role == b.role && OrderShows(before, a, b, strategy, key)
    ensures c.key == key
    ensures CountsDiffer(Fold(KeyTwo(before, a, b, after, key), strategy),
                         Fold(KeyTwo(before, b, a, after, key), strategy), c)
  {
    KeyTwoOfBoth(before, a, b, after, key);
    KeyTwoOfBoth(before, b, a, after, key);
    FoldIsKeywise(Writes(before), strategy, key);
    c := UnshieldedSwap(KeyWrites(Writes(before), key), KeyWrites(Writes(after), key),
                        Write(key, a.values[key], a.role), Write(key, b.values[key], b.role), strategy);
  }

  ghost predicate SameMergeAt(m: Outcome, n: Outcome, key: string) {
    && (key in m.values <==> key in n.values)
    && (key in m.values ==> m.values[key] == n.values[key])
    && forall c: Conflict :: c.key == key ==> multiset(m.conflicts)[c] == multiset(n.conflicts)[c]
  }

  lemma SameMergeIff(m: Outcome, n: Outcome)
    ensures SameMerge(m, n) <==> forall key :: SameMergeAt(m, n, key)
  {
    if forall key :: SameMergeAt(m, n, key) {
      forall key
        ensures key in m.values <==> key in n.values
        ensures key in m.values ==> m.values[key] == n.values[key]
      {
        assert SameMergeAt(m, n, key);
      }
      forall c
        ensures multiset(m.conflicts)[c] == multiset(n.conflicts)[c]
      {
        assert SameMergeAt(m, n, c.key);
      }
    }
  }

  lemma SameMergeAtIff(before: seq<RoleOutput>, a: RoleOutput, b: RoleOutput, after: seq<RoleOutput>,
                       strategy: Strategy, key: string)
    requires Slot(a) == Slot(b) && a.role == b.role && SortedByKey(before + [a, b] + after, Slot)
    ensures SameMergeAt(Merged(before + [a, b] + after, strategy), Merged(before + [b, a] + after, strategy), key)
            <==> !OrderShows(before, a, b, strategy, key)
  {
    SwappedSorted(before, a, b, after);
    MergedAtKey(before, a, b, after, strategy, key);
    MergedAtKey(before, b, a, after, strategy, key);
    if OrderShows(before, a, b, strategy, key) {
      var c := SwapShowsAtKey(before, a, b, after, strategy, key);
    } else {
      SwapAtKey(before, a, b, after, strategy, key);
    }
  }

  lemma SwappedSorted(before: seq<RoleOutput>, a: RoleOutput, b: RoleOutput, after: seq<RoleOutput>)
    requires Slot(a) == Slot(b) && SortedByKey(before + [a, b] + after, Slot)
    ensures SortedByKey(before + [b, a] + after, Slot)
  {
    var s, t := before + [a, b] + after, before + [b, a] + after;
    assert |s| == |t| && forall i :: 0 <= i < |t| ==> Slot(t[i]) == Slot(s[i]);
  }

  /** Wherever they stand among the outputs, and whatever else they write, two neighbouring
      outputs of one role in one step can be exchanged, values and counted conflicts
      unchanged, exactly when every key they disagree on is shielded: an earlier value stands
      there that their role cannot override. */
  lemma SwapShowsIff(before: seq<RoleOutput>, a: RoleOutput, b: RoleOutput, after: seq<RoleOutput>, strategy: Strategy)
    requires a.step == b.step && a.role == b.role && SortedByKey(before + [a, b] + after, Slot)
    ensures SameMerge(Merged(before + [a, b] + after, strategy), Merged(before + [b, a] + after, strategy))
            <==> forall key :: !OrderShows(before, a, b, strategy, key)
  {
    var m, n := Merged(before + [a, b] + after, strategy), Merged(before + [b, a] + after, strategy);
    SlotIsStepThenRole(a, b);
    SameMergeIff(m, n);
    forall key
      ensures SameMergeAt(m, n, key) <==> !OrderShows(before, a, b, strategy, key)
    {
      SameMergeAtIff(before, a, b, after, strategy, key);
    }
  }
}
