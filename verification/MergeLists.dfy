/** The order of the conflict list: exactly when two neighbouring outputs of one role in one
    step can be exchanged without any change to the outcome. */
module MergeLists {
  import opened Sorting
  import opened Orchestration
  import opened MergeKeys
  import opened MergeSwaps

  /** Right after these outputs, the two record the same list of conflicts in either order. */
  ghost predicate SameList(before: seq<RoleOutput>, a: RoleOutput, b: RoleOutput, strategy: Strategy) {
    Fold(Writes(before + [a, b]), strategy).conflicts == Fold(Writes(before + [b, a]), strategy).conflicts
  }

  lemma FoldOfSorted(outputs: seq<RoleOutput>, strategy: Strategy)
    requires SortedByKey(outputs, Slot)
    ensures var s := Fold(Writes(outputs), strategy); Merged(outputs, strategy) == Outcome(s.values, s.conflicts)
  {
    SortOfSorted(outputs, Slot);
  }

  /** An exchange that shows, shows in the list. */
  lemma SameListShowsNothing(before: seq<RoleOutput>, a: RoleOutput, b: RoleOutput, strategy: Strategy, key: string)
    requires Slot(a) == Slot(b) && a.role == b.role && SortedByKey(before + [a, b], Slot)
    requires SameList(before, a, b, strategy)
    ensures !OrderShows(before, a, b, strategy, key)
  {
    assert before + [a, b] + [] == before + [a, b] && before + [b, a] + [] == before + [b, a];
    SwappedSorted(before, a, b, []);
    FoldOfSorted(before + [a, b], strategy);
    FoldOfSorted(before + [b, a], strategy);
    MergedAtKey(before, a, b, [], strategy, key);
    MergedAtKey(before, b, a, [], strategy, key);
    if OrderShows(before, a, b, strategy, key) {
      var c := SwapShowsAtKey(before, a, b, [], strategy, key);
    }
  }

  lemma SameStandsEverywhere(s: State, t: State)
    requires forall key :: SameStanding(s, t, key)
    ensures SameStands(s, t)
  {
    forall key
      ensures key in s.values <==> key in t.values
      ensures key in s.owners <==> key in t.owners
      ensures key in s.values ==> s.values[key] == t.values[key]
      ensures key in s.owners ==> s.owners[key] == t.owners[key]
    {
      assert SameStanding(s, t, key);
    }
  }

  lemma SwapStandsAt(before: seq<RoleOutput>, a: RoleOutput, b: RoleOutput, strategy: Strategy, key: string)
    requires a.role == b.role && !OrderShows(before, a, b, strategy, key)
    ensures SameStanding(Fold(Writes(before + [a, b]), strategy), Fold(Writes(before + [b, a]), strategy), key)
  {
    assert before + [a, b] + [] == before + [a, b] && before + [b, a] + [] == before + [b, a];
    SwapAtKey(before, a, b, [], strategy, key);
    WritesOfTwo(before, a, b, [], key);
    WritesOfTwo(before, b, a, [], key);
    FoldIsKeywise(Writes(before + [a, b]), strategy, key);
    FoldIsKeywise(Writes(before + [b, a]), strategy, key);
  }

  /** An exchange that does not show leaves values and owners as they are. */
  lemma SwapStands(before: seq<RoleOutput>, a: RoleOutput, b: RoleOutput, strategy: Strategy)
    requires a.role == b.role && forall key :: !OrderShows(before, a, b, strategy, key)
    ensures SameStands(Fold(Writes(before + [a, b]), strategy), Fold(Writes(before + [b, a]), strategy))
  {
    var s, t := Fold(Writes(before + [a, b]), strategy), Fold(Writes(before + [b, a]), strategy);
    forall key
      ensures SameStanding(s, t, key)
    {
      SwapStandsAt(before, a, b, strategy, key);
    }
    SameStandsEverywhere(s, t);
  }

  lemma SameTails<T>(a: seq<T>, b: seq<T>, more: seq<T>)
    ensures a + more == b + more <==> a == b
  {
    if a + more == b + more {
      assert a == (a + more)[..|a|] && b == (b + more)[..|b|];
    }
  }

  lemma SameListGoesOn(before: seq<RoleOutput>, a: RoleOutput, b: RoleOutput, after: seq<RoleOutput>, strategy: Strategy)
    requires SameStands(Fold(Writes(before + [a, b]), strategy), Fold(Writes(before + [b, a]), strategy))
    ensures var s := Fold(Writes(before + [a, b] + after), strategy);
            var t := Fold(Writes(before + [b, a] + after), strategy);
            s.values == t.values && (s.conflicts == t.conflicts <==> SameList(before, a, b, strategy))
  {
    var p, q := Writes(before + [a, b]), Writes(before + [b, a]);
    WritesAppend(before + [a, b], after);
    WritesAppend(before + [b, a], after);
    var more := FoldGoesOn(p, q, Writes(after), strategy);
    SameTails(Fold(p, strategy).conflicts, Fold(q, strategy).conflicts, more);
  }

  /** Two neighbouring outputs of one role in one step can be exchanged without any change,
      the order of the conflicts included, exactly when right after the outputs before them
      they record the same list in either order. */
  lemma SwapKeepsOutcomeIff(before: seq<RoleOutput>, a: RoleOutput, b: RoleOutput, after: seq<RoleOutput>,
                            strategy: Strategy)
    requires a.step == b.step && a.role == b.role && SortedByKey(before + [a, b] + after, Slot)
    ensures Merged(before + [a, b] + after, strategy) == Merged(before + [b, a] + after, strategy)
            <==> SameList(before, a, b, strategy)
  {
    SlotIsStepThenRole(a, b);
    SwappedSorted(before, a, b, after);
    FoldOfSorted(before + [a, b] + after, strategy);
    FoldOfSorted(before + [b, a] + after, strategy);
    SwapShowsIff(before, a, b, after, strategy);
    if SameList(before, a, b, strategy) {
      FirstPartSorted(before, a, b, after);
      forall key { SameListShowsNothing(before, a, b, strategy, key); }
    }
    if forall key :: !OrderShows(before, a, b, strategy, key) {
      SwapStands(before, a, b, strategy);
      SameListGoesOn(before, a, b, after, strategy);
    }
  }

  lemma FirstPartSorted(before: seq<RoleOutput>, a: RoleOutput, b: RoleOutput, after: seq<RoleOutput>)
    requires SortedByKey(before + [a, b] + after, Slot)
    ensures SortedByKey(before + [a, b], Slot)
  {
    var s, t := before + [a, b], before + [a, b] + after;
    assert forall i :: 0 <= i < |s| ==> s[i] == t[i];
  }

  // ---- More outputs of the same slot in between ----

  /** The conflicts at keys where the two states stand alike. */
  ghost function Untouched(conflicts: seq<Conflict>, s: State, t: State): seq<Conflict> {
    if conflicts == [] then []
    else
      var last := conflicts[|conflicts| - 1];
      Untouched(conflicts[..|conflicts| - 1], s, t) + if SameStanding(s, t, last.key) then [last] else []
  }

  lemma UntouchedNext(conflicts: seq<Conflict>, c: Conflict, s: State, t: State)
    ensures Untouched(conflicts + [c], s, t)
            == Untouched(conflicts, s, t) + if SameStanding(s, t, c.key) then [c] else []
  {
    assert (conflicts + [c])[..|conflicts|] == conflicts;
  }

  lemma UntouchedAdded(conflicts: seq<Conflict>, s: State, w: Write, s0: State, t0: State)
    ensures Untouched(conflicts + Added(s, w), s0, t0)
            == Untouched(conflicts, s0, t0) + if SameStanding(s0, t0, w.key) then Added(s, w) else []
  {
    if Added(s, w) == [] {
      assert conflicts + [] == conflicts;
    } else {
      UntouchedNext(conflicts, Added(s, w)[0], s0, t0);
      assert Added(s, w) == [Added(s, w)[0]];
    }
  }

  /** Key by key, t1 goes with s1 where t stood as s did, and has not moved elsewhere. */
  ghost predicate GoesAlong(s: State, t: State, s1: State, t1: State) {
    forall key :: if SameStanding(s, t, key) then SameStanding(s1, t1, key) else SameStanding(t, t1, key)
  }

  /** This write meets the same standing in both, or the value it carries. */
  ghost predicate MeetsItself(s: State, t: State, w: Write) {
    SameStanding(s, t, w.key) || (w.key in t.values && t.values[w.key] == w.value)
  }

  lemma StepGoesAlong(s: State, t: State, s1: State, t1: State, w: Write, strategy: Strategy)
    requires GoesAlong(s, t, s1, t1) && MeetsItself(s, t, w)
    ensures GoesAlong(s, t, Step(s1, w, strategy), Step(t1, w, strategy))
    ensures Added(t1, w) == if SameStanding(s, t, w.key) then Added(s1, w) else []
  {
    var s2, t2 := Step(s1, w, strategy), Step(t1, w, strategy);
    assert if SameStanding(s, t, w.key) then SameStanding(s1, t1, w.key) else SameStanding(t, t1, w.key);
    if SameStanding(s, t, w.key) {
      StepStanding(s1, t1, w, strategy);
    }
    forall key
      ensures if SameStanding(s, t, key) then SameStanding(s2, t2, key) else SameStanding(t, t2, key)
    {
      assert if SameStanding(s, t, key) then SameStanding(s1, t1, key) else SameStanding(t, t1, key);
      if key != w.key {
        StepElsewhere(s1, w, strategy, key);
        StepElsewhere(t1, w, strategy, key);
      }
    }
  }

  /** Writes that meet themselves add, from the later state, the conflicts they add from the
      earlier one, but for those at the keys in which the two states differ. */
  lemma {:induction false} WritesGoAlong(p: seq<Write>, q: seq<Write>, ws: seq<Write>, strategy: Strategy)
    returns (more: seq<Conflict>)
    requires forall w :: w in ws ==> MeetsItself(Fold(p, strategy), Fold(q, strategy), w)
    ensures GoesAlong(Fold(p, strategy), Fold(q, strategy), Fold(p + ws, strategy), Fold(q + ws, strategy))
    ensures Fold(p + ws, strategy).conflicts == Fold(p, strategy).conflicts + more
    ensures Fold(q + ws, strategy).conflicts
            == Fold(q, strategy).conflicts + Untouched(more, Fold(p, strategy), Fold(q, strategy))
  {
    if ws == [] {
      assert p + ws == p && q + ws == q;
      more := [];
    } else {
      var init, w := ws[..|ws| - 1], ws[|ws| - 1];
      var s, t := Fold(p, strategy), Fold(q, strategy);
      assert w in ws && forall v :: v in init ==> v in ws;
      var sofar := WritesGoAlong(p, q, init, strategy);
      var s1, t1 := Fold(p + init, strategy), Fold(q + init, strategy);
      FoldLast(p, ws, strategy);
      FoldLast(q, ws, strategy);
      StepGoesAlong(s, t, s1, t1, w, strategy);
      AddsConflicts(s1, w, strategy);
      AddsConflicts(t1, w, strategy);
      UntouchedAdded(sofar, s1, w, s, t);
      more := sofar + Added(s1, w);
      Associates(s.conflicts, sofar, Added(s1, w));
      Associates(t.conflicts, Untouched(sofar, s, t), Added(t1, w));
    }
  }

  /** Writes of a role that cannot override what stands leave it standing. */
  lemma {:induction false} ShieldKeepsStanding(p: seq<Write>, ws: seq<Write>, key: string, role: Role, strategy: Strategy)
    requires Shields(Fold(p, strategy), key, role, strategy) && forall w :: w in ws ==> w.role == role
    ensures SameStanding(Fold(p, strategy), Fold(p + ws, strategy), key)
  {
    if ws == [] {
      assert p + ws == p;
    } else {
      var init, w := ws[..|ws| - 1], ws[|ws| - 1];
      assert w in ws && forall v :: v in init ==> v in ws;
      ShieldKeepsStanding(p, init, key, role, strategy);
      FoldLast(p, ws, strategy);
      if w.key == key {
        ShieldedStep(Fold(p + init, strategy), w, strategy);
      } else {
        StepElsewhere(Fold(p + init, strategy), w, strategy, key);
      }
    }
  }

  ghost predicate StandsOrSame(s: State, t: State, key: string, value: string) {
    SameStanding(s, t, key) || (key in t.values && t.values[key] == value)
  }

  /** Writes that carry one value to a key leave what stands, or that value. */
  lemma {:induction false} OneValueStands(p: seq<Write>, ws: seq<Write>, key: string, value: string, strategy: Strategy)
    requires forall w :: w in ws && w.key == key ==> w.value == value
    ensures StandsOrSame(Fold(p, strategy), Fold(p + ws, strategy), key, value)
  {
    if ws == [] {
      assert p + ws == p;
    } else {
      var init, w := ws[..|ws| - 1], ws[|ws| - 1];
      assert w in ws && forall v :: v in init ==> v in ws;
      OneValueStands(p, init, key, value, strategy);
      FoldLast(p, ws, strategy);
      if w.key != key {
        StepElsewhere(Fold(p + init, strategy), w, strategy, key);
      }
    }
  }

  /** None of these outputs of a's role shows an order with a. */
  ghost predicate Unseen(before: seq<RoleOutput>, more: seq<RoleOutput>, a: RoleOutput, strategy: Strategy) {
    forall o :: o in more ==> o.role == a.role && forall key :: !OrderShows(before, o, a, strategy, key)
  }

  lemma MeetsItselfLater(before: seq<RoleOutput>, more: seq<RoleOutput>, a: RoleOutput, w: Write, strategy: Strategy)
    requires Unseen(before, more, a, strategy) && w in OutputWrites(a)
    ensures MeetsItself(Fold(Writes(before), strategy), Fold(Writes(before + more), strategy), w)
  {
    WritesAppend(before, more);
    forall v | v in Writes(more)
      ensures v.role == a.role && (v.key == w.key && v.value != w.value ==> Shielded(before, w.key, a.role, strategy))
    {
      WritesComeFromOutputs(more, v);
      var o :| o in more && Wrote(o, v);
      assert !OrderShows(before, o, a, strategy, v.key);
    }
    if Shielded(before, w.key, a.role, strategy) {
      ShieldKeepsStanding(Writes(before), Writes(more), w.key, a.role, strategy);
    } else {
      OneValueStands(Writes(before), Writes(more), w.key, w.value, strategy);
    }
  }

  lemma PairMeetsItself(before: seq<RoleOutput>, more: seq<RoleOutput>, a: RoleOutput, b: RoleOutput, strategy: Strategy)
    returns (recorded: seq<Conflict>)
    requires Unseen(before, more, a, strategy) && Unseen(before, more, b, strategy)
    ensures Fold(Writes(before + [a, b]), strategy).conflicts == Fold(Writes(before), strategy).conflicts + recorded
    ensures var (s, t) := (Fold(Writes(before), strategy), Fold(Writes(before + more), strategy));
            Fold(Writes(before + more + [a, b]), strategy).conflicts == t.conflicts + Untouched(recorded, s, t)
  {
    WritesAppend(before, [a, b]);
    WritesAppend(before + more, [a, b]);
    WritesOfPair(a, b);
    forall w | w in Writes([a, b])
      ensures MeetsItself(Fold(Writes(before), strategy), Fold(Writes(before + more), strategy), w)
    {
      if w in OutputWrites(a) {
        MeetsItselfLater(before, more, a, w, strategy);
      } else {
        MeetsItselfLater(before, more, b, w, strategy);
      }
    }
    recorded := WritesGoAlong(Writes(before), Writes(before + more), Writes([a, b]), strategy);
  }

  /** Two outputs that record the same list in either order still do so after more outputs
      of their slot, as long as those show no order with them. */
  lemma SameListLater(before: seq<RoleOutput>, more: seq<RoleOutput>, a: RoleOutput, b: RoleOutput, strategy: Strategy)
    requires Unseen(before, more, a, strategy) && Unseen(before, more, b, strategy)
    requires SameList(before, a, b, strategy)
    ensures SameList(before + more, a, b, strategy)
  {
    var c := PairMeetsItself(before, more, a, b, strategy);
    var d := PairMeetsItself(before, more, b, a, strategy);
    SameHeads(Fold(Writes(before), strategy).conflicts, c, d);
  }

  lemma SameHeads<T>(a: seq<T>, b: seq<T>, c: seq<T>)
    requires a + b == a + c
    ensures b == c
  {
    assert b == (a + b)[|a|..] && c == (a + c)[|a|..];
  }

  // ---- An order that shows only in the list ----

  /** Two writes that clash with what stands make their conflicts in their order. */
  lemma TwoClashes(p: seq<Write>, u: Write, v: Write, strategy: Strategy)
    requires u.key != v.key
    requires Shields(Fold(p, strategy), u.key, u.role, strategy) && Shields(Fold(p, strategy), v.key, v.role, strategy)
    ensures Fold(p + [u, v], strategy).conflicts
            == Fold(p, strategy).conflicts + (Added(Fold(p, strategy), u) + Added(Fold(p, strategy), v))
  {
    FoldTwo(p, u, v, strategy);
    ShieldedStep(Fold(p, strategy), u, strategy);
    ShieldedStep(Fold(p, strategy).(conflicts := Fold(p, strategy).conflicts + Added(Fold(p, strategy), u)), v, strategy);
  }

  lemma PairClashes(before: seq<RoleOutput>, a: RoleOutput, b: RoleOutput, k: string, l: string,
                    x: string, y: string, strategy: Strategy)
    requires k != l && a.values == map[k := x] && b.values == map[l := y]
    requires Shielded(before, k, a.role, strategy) && Shielded(before, l, b.role, strategy)
    ensures var s := Fold(Writes(before), strategy);
            Fold(Writes(before + [a, b]), strategy).conflicts
            == s.conflicts + (Added(s, Write(k, x, a.role)) + Added(s, Write(l, y, b.role)))
  {
    OneKeyWrites(a, k, x);
    OneKeyWrites(b, l, y);
    WritesAppend(before, [a, b]);
    WritesOfPair(a, b);
    var u, v := Write(k, x, a.role), Write(l, y, b.role);
    assert [u] + [v] == [u, v];
    TwoClashes(Writes(before), u, v, strategy);
  }

  /** Two outputs of one slot that clash with earlier values at different keys: their order
      shows in the list of conflicts, and nowhere else. */
  lemma OnlyTheListShows(before: seq<RoleOutput>, a: RoleOutput, b: RoleOutput, k: string, l: string,
                         x: string, y: string, strategy: Strategy)
    requires k != l && a.role == b.role && a.values == map[k := x] && b.values == map[l := y]
    requires Shielded(before, k, a.role, strategy) && Shielded(before, l, a.role, strategy)
    requires Fold(Writes(before), strategy).values[k] != x && Fold(Writes(before), strategy).values[l] != y
    ensures !SameList(before, a, b, strategy) && forall key :: !OrderShows(before, a, b, strategy, key)
  {
    PairClashes(before, a, b, k, l, x, y, strategy);
    PairClashes(before, b, a, l, k, y, x, strategy);
    var s := Fold(Writes(before), strategy);
    var c: seq<Conflict>, d: seq<Conflict> := Added(s, Write(k, x, a.role)), Added(s, Write(l, y, b.role));
    assert c[0].key == k && d[0].key == l && (c + d)[0] == c[0] && (d + c)[0] == d[0];
    if s.conflicts + (c + d) == s.conflicts + (d + c) {
      SameHeads(s.conflicts, c + d, d + c);
    }
  }
}
