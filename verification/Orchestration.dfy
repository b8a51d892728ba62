/** Merging the outputs of several agent roles. */
module Orchestration {
  import opened Options
  import opened Ordered
  import opened Sorting

  datatype Role = Planner | Coder | Reviewer | Tester | Fixer

  /** Declaration order, which breaks ties within a step. */
  function Rank(role: Role): nat {
    match role
    case Planner => 0
    case Coder => 1
    case Reviewer => 2
    case Tester => 3
    case Fixer => 4
  }

  /** Lower wins a conflict. */
  function MergePriority(role: Role): nat {
    match role
    case Fixer => 0
    case Reviewer => 1
    case Tester => 2
    case Coder => 3
    case Planner => 4
  }

  datatype RoleOutput = RoleOutput(role: Role, step: nat, values: map<string, string>)

  datatype Conflict = Conflict(key: string, existingRole: Role, incomingRole: Role,
                               existingValue: string, incomingValue: string)

  datatype Strategy = FailOnConflict | PreferRolePriority

  datatype Outcome = Outcome(values: map<string, string>, conflicts: seq<Conflict>)

  /** Step and role as one number, ordered as the pair is. */
  function Slot(o: RoleOutput): int {
    5 * o.step + Rank(o.role)
  }

  lemma SlotIsStepThenRole(a: RoleOutput, b: RoleOutput)
    ensures Slot(a) < Slot(b) <==> a.step < b.step || (a.step == b.step && Rank(a.role) < Rank(b.role))
    ensures Slot(a) == Slot(b) <==> a.step == b.step && a.role == b.role
  {
  }

  // ---- The merge as a fold over single writes ----

  datatype Write = Write(key: string, value: string, role: Role)

  datatype State = State(values: map<string, string>, owners: map<string, Role>, conflicts: seq<Conflict>)

  function Step(s: State, w: Write, strategy: Strategy): State {
    if w.key !in s.values then
      State(s.values[w.key := w.value], s.owners[w.key := w.role], s.conflicts)
    else if s.values[w.key] == w.value then s
    else
      var owner := if w.key in s.owners then s.owners[w.key] else w.role;
      var conflicts := s.conflicts + [Conflict(w.key, owner, w.role, s.values[w.key], w.value)];
      if strategy == PreferRolePriority && MergePriority(w.role) < MergePriority(owner) then
        State(s.values[w.key := w.value], s.owners[w.key := w.role], conflicts)
      else s.(conflicts := conflicts)
  }

  function Fold(ws: seq<Write>, strategy: Strategy): State {
    if ws == [] then State(map[], map[], [])
    else Step(Fold(ws[..|ws| - 1], strategy), ws[|ws| - 1], strategy)
  }

  /** One output's writes, in key order. */
  function OutputWrites(o: RoleOutput): (ws: seq<Write>)
    ensures forall w :: w in ws ==> w.key in o.values && w == Write(w.key, o.values[w.key], o.role)
  {
    var keys := SortedKeys(o.values.Keys);
    seq(|keys|, i requires 0 <= i < |keys| =>
      assert keys[i] in keys;
      Write(keys[i], o.values[keys[i]], o.role))
  }

  lemma KeyIsWritten(o: RoleOutput, key: string)
    requires key in o.values
    ensures Write(key, o.values[key], o.role) in OutputWrites(o)
  {
    var keys := SortedKeys(o.values.Keys);
    assert key in keys;
    var i :| 0 <= i < |keys| && keys[i] == key;
    assert OutputWrites(o)[i] == Write(key, o.values[key], o.role);
  }

  function Writes(outputs: seq<RoleOutput>): seq<Write> {
    if outputs == [] then []
    else Writes(outputs[..|outputs| - 1]) + OutputWrites(outputs[|outputs| - 1])
  }

  function Merged(outputs: seq<RoleOutput>, strategy: Strategy): Outcome {
    var s := Fold(Writes(SortByKey(outputs, Slot)), strategy);
    Outcome(s.values, s.conflicts)
  }

  lemma FoldNext(before: seq<Write>, ws: seq<Write>, j: nat, strategy: Strategy)
    requires j < |ws|
    ensures Fold(before + ws[..j + 1], strategy) == Step(Fold(before + ws[..j], strategy), ws[j], strategy)
  {
    var longer := before + ws[..j + 1];
    assert longer[..|longer| - 1] == before + ws[..j];
  }

  lemma WritesNext(ordered: seq<RoleOutput>, i: nat)
    requires i < |ordered|
    ensures Writes(ordered[..i + 1]) == Writes(ordered[..i]) + OutputWrites(ordered[i])
  {
    assert ordered[..i + 1][..i] == ordered[..i];
  }

  /** The nested loops over outputs and their keys. */
  method MergeRoleOutputs(outputs: seq<RoleOutput>, strategy: Strategy) returns (r: Outcome)
    ensures r == Merged(outputs, strategy)
  {
    var ordered := SortByKey(outputs, Slot);
    var values: map<string, string>, owners: map<string, Role>, conflicts: seq<Conflict> := map[], map[], [];
    for i := 0 to |ordered|
      invariant State(values, owners, conflicts) == Fold(Writes(ordered[..i]), strategy)
    {
      WritesNext(ordered, i);
      values, owners, conflicts :=
        MergeOutput(values, owners, conflicts, Writes(ordered[..i]), OutputWrites(ordered[i]), strategy);
    }
    assert ordered[..|ordered|] == ordered;
    r := Outcome(values, conflicts);
  }

  method MergeOutput(values0: map<string, string>, owners0: map<string, Role>, conflicts0: seq<Conflict>,
                     ghost before: seq<Write>, writes: seq<Write>, strategy: Strategy)
    returns (values: map<string, string>, owners: map<string, Role>, conflicts: seq<Conflict>)
    requires State(values0, owners0, conflicts0) == Fold(before, strategy)
    ensures State(values, owners, conflicts) == Fold(before + writes, strategy)
  {
    values, owners, conflicts := values0, owners0, conflicts0;
    assert before + writes[..0] == before;
    for j := 0 to |writes|
      invariant State(values, owners, conflicts) == Fold(before + writes[..j], strategy)
    {
      var w := writes[j];
      FoldNext(before, writes, j, strategy);
      if w.key !in values {
        values := values[w.key := w.value];
        owners := owners[w.key := w.role];
      } else if values[w.key] != w.value {
        var owner := if w.key in owners then owners[w.key] else w.role;
        conflicts := conflicts + [Conflict(w.key, owner, w.role, values[w.key], w.value)];
        if strategy == PreferRolePriority && MergePriority(w.role) < MergePriority(owner) {
          values := values[w.key := w.value];
          owners := owners[w.key := w.role];
        }
      }
    }
    assert writes[..|writes|] == writes;
  }

  // ---- What the fold keeps ----

  ghost predicate Writer(ws: seq<Write>, i: int, key: string) {
    0 <= i < |ws| && ws[i].key == key
  }

  /** The merged keys are all written keys, and each final value was written, by its
      final owner. */
  lemma {:induction false} OwnersWroteTheirValues(ws: seq<Write>, strategy: Strategy, key: string)
    ensures var s := Fold(ws, strategy);
            && (key in s.values <==> key in s.owners)
            && (key in s.values <==> exists i :: Writer(ws, i, key))
            && (key in s.values ==> Write(key, s.values[key], s.owners[key]) in ws)
  {
    if ws != [] {
      var init, last := ws[..|ws| - 1], ws[|ws| - 1];
      assert ws == init + [last];
      OwnersWroteTheirValues(init, strategy, key);
      OwnersWroteTheirValues(init, strategy, last.key);
      if key in Fold(init, strategy).values {
        var i :| Writer(init, i, key);
        assert Writer(ws, i, key);
      } else if key == last.key {
        assert Writer(ws, |ws| - 1, key);
      } else {
        forall i | Writer(ws, i, key)
          ensures Writer(init, i, key)
        {
        }
      }
    }
  }

  ghost predicate InConflict(conflicts: seq<Conflict>, key: string) {
    exists i :: 0 <= i < |conflicts| && conflicts[i].key == key
  }

  ghost predicate WritesAgree(ws: seq<Write>, key: string) {
    forall i, j :: Writer(ws, i, key) && Writer(ws, j, key) ==> ws[i].value == ws[j].value
  }

  lemma DisagreementIsRecorded(s: State, w: Write, strategy: Strategy)
    ensures w.key in s.values && s.values[w.key] != w.value ==> InConflict(Step(s, w, strategy).conflicts, w.key)
  {
    if w.key in s.values && s.values[w.key] != w.value {
      assert Step(s, w, strategy).conflicts[|s.conflicts|].key == w.key;
    }
  }

  lemma {:induction false} QuietKeysAgree(ws: seq<Write>, strategy: Strategy, key: string)
    requires !InConflict(Fold(ws, strategy).conflicts, key)
    ensures forall i :: Writer(ws, i, key) ==>
              key in Fold(ws, strategy).values && ws[i].value == Fold(ws, strategy).values[key]
  {
    if ws != [] {
      var init, last := ws[..|ws| - 1], ws[|ws| - 1];
      var s, t := Fold(init, strategy), Fold(ws, strategy);
      assert s.conflicts <= t.conflicts;
      QuietKeysAgree(init, strategy, key);
      DisagreementIsRecorded(s, last, strategy);
      forall i | Writer(ws, i, key)
        ensures key in t.values && ws[i].value == t.values[key]
      {
        if i < |init| {
          assert Writer(init, i, key);
        }
      }
    }
  }

  /** The j-th write disagrees with what stands when it arrives, as the conflict says. */
  ghost predicate DisagreesAt(ws: seq<Write>, strategy: Strategy, j: int, c: Conflict) {
    0 <= j < |ws|
    && var s := Fold(ws[..j], strategy);
       && ws[j] == Write(c.key, c.incomingValue, c.incomingRole)
       && c.key in s.values && c.key in s.owners
       && s.values[c.key] == c.existingValue && s.owners[c.key] == c.existingRole
       && c.existingValue != c.incomingValue
  }

  /** The conflicts are exactly the disagreements, each naming the value and owner that
      stood and the write that came. */
  lemma {:induction false} ConflictsAreDisagreements(ws: seq<Write>, strategy: Strategy, c: Conflict)
    ensures c in Fold(ws, strategy).conflicts <==> exists j :: DisagreesAt(ws, strategy, j, c)
  {
    if ws != [] {
      var n := |ws| - 1;
      var init, last := ws[..n], ws[n];
      ConflictsAreDisagreements(init, strategy, c);
      OwnersWroteTheirValues(init, strategy, last.key);
      forall j | 0 <= j < n
        ensures DisagreesAt(ws, strategy, j, c) <==> DisagreesAt(init, strategy, j, c)
      {
        assert ws[..j] == init[..j];
      }
      assert c in Step(Fold(init, strategy), last, strategy).conflicts
             <==> c in Fold(init, strategy).conflicts || DisagreesAt(ws, strategy, n, c);
    }
  }

  /** Each recorded conflict is between two different values that were written. */
  lemma {:induction false} ConflictsAreReal(ws: seq<Write>, strategy: Strategy, c: Conflict)
    requires c in Fold(ws, strategy).conflicts
    ensures c.existingValue != c.incomingValue
    ensures Write(c.key, c.existingValue, c.existingRole) in ws && Write(c.key, c.incomingValue, c.incomingRole) in ws
  {
    if ws != [] {
      var init, last := ws[..|ws| - 1], ws[|ws| - 1];
      assert ws == init + [last];
      if c in Fold(init, strategy).conflicts {
        ConflictsAreReal(init, strategy, c);
      } else {
        OwnersWroteTheirValues(init, strategy, last.key);
      }
    }
  }

  /** A key is free of conflicts exactly when all its writes carry one value. */
  lemma ConflictFreeIffWritesAgree(ws: seq<Write>, strategy: Strategy, key: string)
    ensures !InConflict(Fold(ws, strategy).conflicts, key) <==> WritesAgree(ws, key)
  {
    var conflicts := Fold(ws, strategy).conflicts;
    if InConflict(conflicts, key) {
      var n :| 0 <= n < |conflicts| && conflicts[n].key == key;
      ConflictsAreReal(ws, strategy, conflicts[n]);
      var i :| 0 <= i < |ws| && ws[i] == Write(key, conflicts[n].existingValue, conflicts[n].existingRole);
      var j :| 0 <= j < |ws| && ws[j] == Write(key, conflicts[n].incomingValue, conflicts[n].incomingRole);
      assert Writer(ws, i, key) && Writer(ws, j, key);
    } else {
      QuietKeysAgree(ws, strategy, key);
    }
  }

  ghost predicate Wrote(o: RoleOutput, w: Write) {
    w.key in o.values && w == Write(w.key, o.values[w.key], o.role)
  }

  lemma {:induction false} WritesComeFromOutputs(outputs: seq<RoleOutput>, w: Write)
    ensures w in Writes(outputs) <==> exists o :: o in outputs && Wrote(o, w)
  {
    if outputs != [] {
      var init, last := outputs[..|outputs| - 1], outputs[|outputs| - 1];
      assert outputs == init + [last];
      WritesComeFromOutputs(init, w);
      if Wrote(last, w) {
        KeyIsWritten(last, w.key);
      }
    }
  }

  ghost predicate WritesOf(outputs: seq<RoleOutput>, ws: seq<Write>) {
    && (forall o, w :: o in outputs && Wrote(o, w) ==> w in ws)
    && (forall i :: 0 <= i < |ws| ==> exists o :: o in outputs && Wrote(o, ws[i]))
  }

  lemma SortedWrites(outputs: seq<RoleOutput>)
    ensures WritesOf(outputs, Writes(SortByKey(outputs, Slot)))
  {
    var sorted := SortByKey(outputs, Slot);
    var ws := Writes(sorted);
    forall o, w | o in outputs && Wrote(o, w)
      ensures w in ws
    {
      SortMember(outputs, Slot, o);
      WritesComeFromOutputs(sorted, w);
    }
    forall i | 0 <= i < |ws|
      ensures exists o :: o in outputs && Wrote(o, ws[i])
    {
      WritesComeFromOutputs(sorted, ws[i]);
      var o :| o in sorted && Wrote(o, ws[i]);
      SortMember(outputs, Slot, o);
    }
  }

  ghost predicate OutputsAgree(outputs: seq<RoleOutput>, key: string) {
    forall o, p :: o in outputs && p in outputs && key in o.values && key in p.values
                   ==> o.values[key] == p.values[key]
  }

  lemma WritesAgreeIffOutputsAgree(outputs: seq<RoleOutput>, ws: seq<Write>, key: string)
    requires WritesOf(outputs, ws)
    ensures WritesAgree(ws, key) <==> OutputsAgree(outputs, key)
  {
    if WritesAgree(ws, key) {
      forall o, p | o in outputs && p in outputs && key in o.values && key in p.values
        ensures o.values[key] == p.values[key]
      {
        var v, w := Write(key, o.values[key], o.role), Write(key, p.values[key], p.role);
        assert Wrote(o, v) && Wrote(p, w);
        var i :| 0 <= i < |ws| && ws[i] == v;
        var j :| 0 <= j < |ws| && ws[j] == w;
        assert Writer(ws, i, key) && Writer(ws, j, key);
      }
    }
    if OutputsAgree(outputs, key) {
      forall i, j | Writer(ws, i, key) && Writer(ws, j, key)
        ensures ws[i].value == ws[j].value
      {
        var o :| o in outputs && Wrote(o, ws[i]);
        var p :| p in outputs && Wrote(p, ws[j]);
      }
    }
  }

  /** The merged keys are those any output wrote, every merged value is some output's, and
      a key is free of conflicts exactly when all outputs that write it agree. */
  lemma MergeOfOutputs(outputs: seq<RoleOutput>, strategy: Strategy, key: string)
    ensures var r := Merged(outputs, strategy);
            && (key in r.values <==> exists o :: o in outputs && key in o.values)
            && (key in r.values ==> exists o :: o in outputs && key in o.values && o.values[key] == r.values[key])
            && (!InConflict(r.conflicts, key) <==> OutputsAgree(outputs, key))
  {
    var ws := Writes(SortByKey(outputs, Slot));
    SortedWrites(outputs);
    WritesAgreeIffOutputsAgree(outputs, ws, key);
    ConflictFreeIffWritesAgree(ws, strategy, key);
    KeysOfOutputs(outputs, ws, strategy, key);
  }

  lemma KeysOfOutputs(outputs: seq<RoleOutput>, ws: seq<Write>, strategy: Strategy, key: string)
    requires WritesOf(outputs, ws)
    ensures var s := Fold(ws, strategy);
            && (key in s.values <==> exists o :: o in outputs && key in o.values)
            && (key in s.values ==> exists o :: o in outputs && key in o.values && o.values[key] == s.values[key])
  {
    var s := Fold(ws, strategy);
    OwnersWroteTheirValues(ws, strategy, key);
    forall o | o in outputs && key in o.values
      ensures key in s.values
    {
      var w := Write(key, o.values[key], o.role);
      assert Wrote(o, w);
      var i :| 0 <= i < |ws| && ws[i] == w;
      assert Writer(ws, i, key);
    }
    if key in s.values {
      var w := Write(key, s.values[key], s.owners[key]);
      var i :| 0 <= i < |ws| && ws[i] == w;
      var o :| o in outputs && Wrote(o, ws[i]);
      assert key in o.values && o.values[key] == s.values[key];
    }
  }

  // ---- Owners ----

  /** Once a key has an owner, later owners never have a worse priority. */
  lemma {:induction false} OwnerNeverWorsens(ws: seq<Write>, n: nat, strategy: Strategy, key: string)
    requires n <= |ws| && key in Fold(ws[..n], strategy).owners
    ensures key in Fold(ws, strategy).owners
    ensures MergePriority(Fold(ws, strategy).owners[key]) <= MergePriority(Fold(ws[..n], strategy).owners[key])
  {
    if n == |ws| {
      assert ws[..n] == ws;
    } else {
      var init := ws[..|ws| - 1];
      assert init[..n] == ws[..n];
      OwnerNeverWorsens(init, n, strategy, key);
      OwnersWroteTheirValues(init, strategy, key);
    }
  }

  /** A write that changed nothing: its value was already standing. */
  ghost predicate Absorbed(ws: seq<Write>, i: nat, strategy: Strategy)
    requires i < |ws|
  {
    var s := Fold(ws[..i], strategy);
    ws[i].key in s.values && s.values[ws[i].key] == ws[i].value
  }

  /** By priority, the final owner is at least as good as every writer whose value was
      not already standing when it wrote. */
  lemma OnlyAbsorbedWritersRankHigher(ws: seq<Write>, i: nat, key: string)
    requires Writer(ws, i, key) && !Absorbed(ws, i, PreferRolePriority)
    ensures key in Fold(ws, PreferRolePriority).owners
    ensures MergePriority(Fold(ws, PreferRolePriority).owners[key]) <= MergePriority(ws[i].role)
  {
    assert ws[..i + 1][..i] == ws[..i];
    OwnersWroteTheirValues(ws[..i], PreferRolePriority, key);
    OwnerNeverWorsens(ws, i + 1, PreferRolePriority, key);
  }

  /** The final owner is itself a writer that was not absorbed, so its priority is exactly
      the best among those. */
  lemma {:induction false} OwnerWasNotAbsorbed(ws: seq<Write>, key: string) returns (i: nat)
    requires ws != []
    requires key in Fold(ws, PreferRolePriority).owners
    ensures Writer(ws, i, key) && !Absorbed(ws, i, PreferRolePriority)
    ensures ws[i].role == Fold(ws, PreferRolePriority).owners[key]
  {
    var init, last := ws[..|ws| - 1], ws[|ws| - 1];
    var s, t := Fold(init, PreferRolePriority), Fold(ws, PreferRolePriority);
    OwnersWroteTheirValues(init, PreferRolePriority, key);
    if key in s.owners && t.owners[key] == s.owners[key] {
      i := OwnerWasNotAbsorbed(init, key);
      assert ws[..i] == init[..i];
    } else {
      i := |ws| - 1;
    }
  }

  ghost predicate BestAmongWriters(ws: seq<Write>, role: Role, key: string) {
    forall i :: Writer(ws, i, key) ==> MergePriority(role) <= MergePriority(ws[i].role)
  }

  /** A best-ranked writer of the key that was not absorbed. */
  ghost predicate BestUnabsorbed(ws: seq<Write>, i: int, key: string) {
    Writer(ws, i, key) && BestAmongWriters(ws, ws[i].role, key) && !Absorbed(ws, i, PreferRolePriority)
  }

  /** The final owner has the best priority among all writers of its key exactly when some
      best-ranked writer was not absorbed. */
  lemma BestRoleOwnsIff(ws: seq<Write>, key: string)
    requires key in Fold(ws, PreferRolePriority).owners
    ensures BestAmongWriters(ws, Fold(ws, PreferRolePriority).owners[key], key)
            <==> exists i :: BestUnabsorbed(ws, i, key)
  {
    var k := OwnerWasNotAbsorbed(ws, key);
    if BestAmongWriters(ws, Fold(ws, PreferRolePriority).owners[key], key) {
      assert BestUnabsorbed(ws, k, key);
    }
    if exists i :: BestUnabsorbed(ws, i, key) {
      var i :| BestUnabsorbed(ws, i, key);
      OnlyAbsorbedWritersRankHigher(ws, i, key);
    }
  }

  /** The earliest of the best-ranked writers that were not absorbed. */
  ghost predicate Wins(ws: seq<Write>, i: int, key: string) {
    Writer(ws, i, key) && !Absorbed(ws, i, PreferRolePriority)
    && forall j :: Writer(ws, j, key) && !Absorbed(ws, j, PreferRolePriority) ==> Outranks(ws, i, j)
  }

  /** The i-th write ranks above the j-th, the earlier one on a tie. */
  predicate Outranks(ws: seq<Write>, i: int, j: int)
    requires 0 <= i < |ws| && 0 <= j < |ws|
  {
    var (p, q) := (MergePriority(ws[i].role), MergePriority(ws[j].role));
    p < q || (p == q && i <= j)
  }

  lemma WinsBefore(ws: seq<Write>, i: int, key: string)
    requires Wins(ws, i, key) && i < |ws| - 1
    ensures Wins(ws[..|ws| - 1], i, key)
  {
    var init := ws[..|ws| - 1];
    assert init[..i] == ws[..i];
    forall j | Writer(init, j, key) && !Absorbed(init, j, PreferRolePriority)
      ensures Outranks(init, i, j)
    {
      assert init[..j] == ws[..j];
      assert Writer(ws, j, key) && !Absorbed(ws, j, PreferRolePriority);
    }
  }

  /** The winning write is the one that stands, value and owner. */
  lemma {:induction false} WinnerStands(ws: seq<Write>, i: int, key: string)
    requires Wins(ws, i, key)
    ensures var s := Fold(ws, PreferRolePriority);
            key in s.values && key in s.owners && s.values[key] == ws[i].value && s.owners[key] == ws[i].role
  {
    var n := |ws| - 1;
    var init := ws[..n];
    OwnersWroteTheirValues(init, PreferRolePriority, key);
    if i < n {
      WinsBefore(ws, i, key);
      WinnerStands(init, i, key);
      assert Writer(ws, n, key) && !Absorbed(ws, n, PreferRolePriority) ==> Outranks(ws, i, n);
    } else if key in Fold(init, PreferRolePriority).owners {
      var k := OwnerWasNotAbsorbed(init, key);
      assert init[..k] == ws[..k];
      assert Writer(ws, k, key) && !Absorbed(ws, k, PreferRolePriority);
    }
  }

  lemma WinsAfter(ws: seq<Write>, k: int, i: int, key: string)
    requires ws != [] && Wins(ws[..|ws| - 1], k, key)
    requires var n := |ws| - 1;
             if ws[n].key != key || Absorbed(ws, n, PreferRolePriority) || Outranks(ws, k, n) then i == k else i == n
    ensures Wins(ws, i, key)
  {
    var n := |ws| - 1;
    var init := ws[..n];
    assert init[..k] == ws[..k];
    forall j | Writer(ws, j, key) && !Absorbed(ws, j, PreferRolePriority)
      ensures Outranks(ws, i, j)
    {
      if j < n {
        assert init[..j] == ws[..j];
        assert Writer(init, j, key) && Outranks(init, k, j);
      }
    }
  }

  lemma {:induction false} SomeWriteWins(ws: seq<Write>, key: string) returns (i: nat)
    requires key in Fold(ws, PreferRolePriority).values
    ensures Wins(ws, i, key)
  {
    var n := |ws| - 1;
    var init := ws[..n];
    OwnersWroteTheirValues(init, PreferRolePriority, key);
    i := n;
    if key in Fold(init, PreferRolePriority).values {
      var k := SomeWriteWins(init, key);
      if ws[n].key != key || Absorbed(ws, n, PreferRolePriority) || Outranks(ws, k, n) {
        i := k;
      }
      WinsAfter(ws, k, i, key);
    } else {
      FirstWriterWins(ws, key);
    }
  }

  lemma FirstWriterWins(ws: seq<Write>, key: string)
    requires ws != [] && ws[|ws| - 1].key == key
    requires key !in Fold(ws[..|ws| - 1], PreferRolePriority).values
    ensures Wins(ws, |ws| - 1, key)
  {
    OwnersWroteTheirValues(ws[..|ws| - 1], PreferRolePriority, key);
    assert forall j :: Writer(ws, j, key) && j < |ws| - 1 ==> Writer(ws[..|ws| - 1], j, key);
  }

  /** Absorption needs no fold either: the winner so far carries the same value. */
  lemma AbsorbedIff(ws: seq<Write>, i: nat)
    requires i < |ws|
    ensures Absorbed(ws, i, PreferRolePriority)
            <==> exists k :: Wins(ws[..i], k, ws[i].key) && ws[k].value == ws[i].value
  {
    var before, key := ws[..i], ws[i].key;
    if key in Fold(before, PreferRolePriority).values {
      var k := SomeWriteWins(before, key);
      WinnerStands(before, k, key);
    }
    forall k | Wins(before, k, key)
      ensures key in Fold(before, PreferRolePriority).values
              && Fold(before, PreferRolePriority).values[key] == ws[k].value
    {
      WinnerStands(before, k, key);
    }
  }

  ghost predicate BestWriter(ws: seq<Write>, i: int, key: string) {
    Writer(ws, i, key) && BestAmongWriters(ws, ws[i].role, key)
  }

  ghost predicate BestWrote(ws: seq<Write>, key: string, value: string) {
    exists i :: BestWriter(ws, i, key) && ws[i].value == value
  }

  /** The final value is one that a best-ranked role wrote exactly when such a role won, or
      the winner happens to carry the value of a best-ranked role that was absorbed. */
  lemma BestValueStandsIff(ws: seq<Write>, i: nat, key: string)
    requires Wins(ws, i, key)
    ensures key in Fold(ws, PreferRolePriority).values
    ensures BestWrote(ws, key, Fold(ws, PreferRolePriority).values[key])
            <==> BestWriter(ws, i, key)
                 || exists j :: BestWriter(ws, j, key) && Absorbed(ws, j, PreferRolePriority)
                                && ws[j].value == ws[i].value
  {
    WinnerStands(ws, i, key);
    forall j | BestWriter(ws, j, key) && !Absorbed(ws, j, PreferRolePriority)
      ensures BestWriter(ws, i, key)
    {
      assert Outranks(ws, i, j);
    }
  }

  /** The writes without one role's writes to one key. */
  function WithoutRole(ws: seq<Write>, key: string, role: Role): seq<Write> {
    if ws == [] then []
    else
      var last := ws[|ws| - 1];
      WithoutRole(ws[..|ws| - 1], key, role) + if last.key == key && last.role == role then [] else [last]
  }

  ghost predicate AllAbsorbed(ws: seq<Write>, key: string, role: Role, strategy: Strategy) {
    forall i :: Writer(ws, i, key) && ws[i].role == role ==> Absorbed(ws, i, strategy)
  }

  lemma AbsorbedBefore(ws: seq<Write>, key: string, role: Role, strategy: Strategy)
    requires ws != [] && AllAbsorbed(ws, key, role, strategy)
    ensures AllAbsorbed(ws[..|ws| - 1], key, role, strategy)
  {
    var init := ws[..|ws| - 1];
    forall i | Writer(init, i, key) && init[i].role == role
      ensures Absorbed(init, i, strategy)
    {
      assert Writer(ws, i, key) && init[..i] == ws[..i];
    }
  }

  /** A role whose writes to a key are all absorbed leaves no trace there or anywhere, not
      even among the conflicts. */
  lemma {:induction false} AbsorbedRoleLeavesNoTrace(ws: seq<Write>, key: string, role: Role, strategy: Strategy)
    requires AllAbsorbed(ws, key, role, strategy)
    ensures Fold(WithoutRole(ws, key, role), strategy) == Fold(ws, strategy)
  {
    if ws != [] {
      var init, last := ws[..|ws| - 1], ws[|ws| - 1];
      AbsorbedBefore(ws, key, role, strategy);
      AbsorbedRoleLeavesNoTrace(init, key, role, strategy);
      var others := WithoutRole(init, key, role);
      if last.key == key && last.role == role {
        assert Writer(ws, |ws| - 1, key) && others + [] == others;
      } else {
        assert (others + [last])[..|others|] == others;
      }
    }
  }

  lemma {:induction false} RoleIsGone(ws: seq<Write>, key: string, role: Role, w: Write)
    requires w in WithoutRole(ws, key, role)
    ensures w in ws && (w.key != key || w.role != role)
  {
    if ws != [] && w in WithoutRole(ws[..|ws| - 1], key, role) {
      RoleIsGone(ws[..|ws| - 1], key, role, w);
    }
  }

  /** A best-ranked role that was not absorbed every time owns the key. */
  lemma BestUnabsorbedOwns(ws: seq<Write>, i: nat, key: string)
    requires BestUnabsorbed(ws, i, key)
    ensures key in Fold(ws, PreferRolePriority).owners && Fold(ws, PreferRolePriority).owners[key] == ws[i].role
  {
    OnlyAbsorbedWritersRankHigher(ws, i, key);
    var k := OwnerWasNotAbsorbed(ws, key);
    assert MergePriority(ws[i].role) <= MergePriority(ws[k].role);
  }

  /** The best-ranked role of a key makes a difference exactly when it was not absorbed every
      time. When it was, the merge is that of the other writes. */
  lemma BestRoleCountsIff(ws: seq<Write>, key: string, role: Role)
    requires BestAmongWriters(ws, role, key)
    ensures Fold(WithoutRole(ws, key, role), PreferRolePriority) == Fold(ws, PreferRolePriority)
            <==> AllAbsorbed(ws, key, role, PreferRolePriority)
  {
    var others := WithoutRole(ws, key, role);
    if AllAbsorbed(ws, key, role, PreferRolePriority) {
      AbsorbedRoleLeavesNoTrace(ws, key, role, PreferRolePriority);
    } else {
      var i :| Writer(ws, i, key) && ws[i].role == role && !Absorbed(ws, i, PreferRolePriority);
      BestUnabsorbedOwns(ws, i, key);
      var s := Fold(others, PreferRolePriority);
      OwnersWroteTheirValues(others, PreferRolePriority, key);
      if key in s.owners {
        RoleIsGone(ws, key, role, Write(key, s.values[key], s.owners[key]));
      }
    }
  }

  /** The first best-ranked writer that was not absorbed has the last word. */
  lemma FirstBestUnabsorbedStands(ws: seq<Write>, i: nat, key: string)
    requires BestUnabsorbed(ws, i, key) && forall j :: BestUnabsorbed(ws, j, key) ==> i <= j
    ensures key in Fold(ws, PreferRolePriority).values && Fold(ws, PreferRolePriority).values[key] == ws[i].value
  {
    forall j | Writer(ws, j, key) && !Absorbed(ws, j, PreferRolePriority)
      ensures Outranks(ws, i, j)
    {
      if MergePriority(ws[j].role) == MergePriority(ws[i].role) {
        assert BestUnabsorbed(ws, j, key);
      }
    }
    WinnerStands(ws, i, key);
  }

  ghost predicate AllValuesDiffer(ws: seq<Write>, key: string) {
    forall i, j :: Writer(ws, i, key) && Writer(ws, j, key) && i != j ==> ws[i].value != ws[j].value
  }

  /** When no two writes to a key agree, the best-ranked role keeps it. */
  lemma BestRoleWinsWhenValuesDiffer(ws: seq<Write>, i: nat, key: string)
    requires Writer(ws, i, key) && AllValuesDiffer(ws, key)
    ensures key in Fold(ws, PreferRolePriority).owners
    ensures MergePriority(Fold(ws, PreferRolePriority).owners[key]) <= MergePriority(ws[i].role)
  {
    var s := Fold(ws[..i], PreferRolePriority);
    OwnersWroteTheirValues(ws[..i], PreferRolePriority, key);
    assert key in s.values ==> s.values[key] != ws[i].value by {
      if key in s.values {
        var w := Write(key, s.values[key], s.owners[key]);
        var j :| 0 <= j < i && ws[..i][j] == w;
        assert Writer(ws, j, key);
      }
    }
    OnlyAbsorbedWritersRankHigher(ws, i, key);
  }

  /** When they do agree it need not: a fixer repeating the planner's value is absorbed,
      and a coder then overrides both. */
  lemma BestRoleCanLose(key: string, x: string, y: string)
    requires x != y
    ensures var ws := [Write(key, x, Planner), Write(key, x, Fixer), Write(key, y, Coder)];
            Fold(ws, PreferRolePriority).values == map[key := y]
            && Fold(ws, PreferRolePriority).owners == map[key := Coder]
  {
    var ws := [Write(key, x, Planner), Write(key, x, Fixer), Write(key, y, Coder)];
    assert ws[..2] == [ws[0], ws[1]] && ws[..2][..1] == [ws[0]] && ws[..2][..1][..0] == [];
    assert Fold([ws[0]], PreferRolePriority) == State(map[key := x], map[key := Planner], []);
    assert Fold(ws[..2], PreferRolePriority) == Fold([ws[0]], PreferRolePriority);
  }

  /** The value can also be the best role's while another role owns it. */
  lemma BestValueUnderAnotherOwner(key: string, x: string)
    ensures var ws := [Write(key, x, Planner), Write(key, x, Fixer)];
            Fold(ws, PreferRolePriority) == State(map[key := x], map[key := Planner], [])
  {
    var ws := [Write(key, x, Planner), Write(key, x, Fixer)];
    assert ws[..1] == [ws[0]] && ws[..1][..0] == [];
    assert Fold([ws[0]], PreferRolePriority) == State(map[key := x], map[key := Planner], []);
  }

  // ---- The first write ----

  function First(ws: seq<Write>, key: string): Option<Write> {
    if ws == [] then None
    else if First(ws[..|ws| - 1], key).Some? then First(ws[..|ws| - 1], key)
    else if ws[|ws| - 1].key == key then Some(ws[|ws| - 1])
    else None
  }

  ghost predicate OneRole(ws: seq<Write>) {
    forall i, j :: 0 <= i < |ws| && 0 <= j < |ws| ==> ws[i].role == ws[j].role
  }

  /** Without role priority, or within a single role, the first write to a key stands. */
  lemma {:induction false} FirstWriteStands(ws: seq<Write>, strategy: Strategy, key: string)
    requires strategy == FailOnConflict || OneRole(ws)
    ensures var s := Fold(ws, strategy);
            match First(ws, key)
            case None => key !in s.values
            case Some(w) => key in s.values && key in s.owners && s.values[key] == w.value && s.owners[key] == w.role
  {
    if ws != [] {
      var init, last := ws[..|ws| - 1], ws[|ws| - 1];
      FirstWriteStands(init, strategy, key);
      OwnersWroteTheirValues(init, strategy, last.key);
      if strategy != FailOnConflict && last.key in Fold(init, strategy).owners {
        var w := Write(last.key, Fold(init, strategy).values[last.key], Fold(init, strategy).owners[last.key]);
        var i :| 0 <= i < |init| && init[i] == w;
        assert ws[i].role == last.role;
      }
    }
  }

  lemma {:induction false} FirstAppend(a: seq<Write>, b: seq<Write>, key: string)
    ensures First(a + b, key) == if First(a, key).Some? then First(a, key) else First(b, key)
  {
    if b == [] {
      assert a + b == a;
    } else {
      FirstAppend(a, b[..|b| - 1], key);
      assert (a + b)[..|a + b| - 1] == a + b[..|b| - 1];
    }
  }

  lemma {:induction false} FirstIsWriter(ws: seq<Write>, key: string)
    ensures First(ws, key).Some? ==> First(ws, key).value in ws && First(ws, key).value.key == key
    ensures First(ws, key).None? ==> forall i :: !Writer(ws, i, key)
  {
    if ws != [] {
      FirstIsWriter(ws[..|ws| - 1], key);
      forall i | Writer(ws, i, key)
        ensures First(ws, key).Some?
      {
        assert i < |ws| - 1 ==> Writer(ws[..|ws| - 1], i, key);
      }
    }
  }

  lemma OneKeyWrites(o: RoleOutput, key: string, value: string)
    requires o.values == map[key := value]
    ensures OutputWrites(o) == [Write(key, value, o.role)]
  {
    var keys := SortedKeys(o.values.Keys);
    assert o.values.Keys == {key};
    assert |keys| == 1 && keys[0] in keys;
  }

  lemma ThreeWrites(a: RoleOutput, b: RoleOutput, c: RoleOutput, key: string, x: string, y: string)
    requires Slot(a) < Slot(b) < Slot(c)
    requires a.values == map[key := x] && b.values == map[key := x] && c.values == map[key := y]
    ensures Writes(SortByKey([a, b, c], Slot)) == [Write(key, x, a.role), Write(key, x, b.role), Write(key, y, c.role)]
  {
    ThreeInOrder(a, b, c);
    OneKeyWrites(a, key, x);
    OneKeyWrites(b, key, x);
    OneKeyWrites(c, key, y);
  }

  /** The same for whole outputs: planner, fixer and coder write one key in three steps, the
      fixer repeating the planner, and the coder's value is the one merged. */
  lemma BestRolesOutputCanLose(key: string, x: string, y: string)
    requires x != y
    ensures var outputs := [RoleOutput(Planner, 0, map[key := x]), RoleOutput(Fixer, 1, map[key := x]),
                            RoleOutput(Coder, 2, map[key := y])];
            Merged(outputs, PreferRolePriority).values == map[key := y]
  {
    var a := RoleOutput(Planner, 0, map[key := x]);
    var b := RoleOutput(Fixer, 1, map[key := x]);
    var c := RoleOutput(Coder, 2, map[key := y]);
    ThreeWrites(a, b, c, key, x, y);
    BestRoleCanLose(key, x, y);
  }

  // ---- Which role and which step comes first ----

  /** The roles in the order in which they win conflicts. */
  const BY_PRIORITY: seq<Role> := [Fixer, Reviewer, Tester, Coder, Planner]

  /** The roles in the order in which their outputs of one step are merged. */
  const DECLARED: seq<Role> := [Planner, Coder, Reviewer, Tester, Fixer]

  lemma FoldOfTwo(u: Write, v: Write, strategy: Strategy)
    ensures Fold([u, v], strategy) == Step(Step(State(map[], map[], []), u, strategy), v, strategy)
  {
    assert [u, v][..1] == [u] && [u][..0] == [];
    assert Fold([u], strategy) == Step(State(map[], map[], []), u, strategy);
  }

  /** Of two roles that disagree the one further up in this list prevails, whichever wrote
      first. */
  lemma PriorityDecides(i: nat, j: nat, key: string, x: string, y: string)
    requires i < 5 && j < 5 && i != j && x != y
    ensures var s := Fold([Write(key, x, BY_PRIORITY[i]), Write(key, y, BY_PRIORITY[j])], PreferRolePriority);
            s.values == map[key := if j < i then y else x]
  {
    FoldOfTwo(Write(key, x, BY_PRIORITY[i]), Write(key, y, BY_PRIORITY[j]), PreferRolePriority);
  }

  /** The output merged first: of the earlier step, and within a step of the role declared
      first; with neither, the one that arrived first. */
  predicate MergedFirst(a: RoleOutput, i: nat, b: RoleOutput, j: nat) {
    a.step < b.step || (a.step == b.step && i <= j)
  }

  lemma TwoSorted(a: RoleOutput, b: RoleOutput)
    ensures SortByKey([a, b], Slot) == if Slot(a) <= Slot(b) then [a, b] else [b, a]
  {
    assert [a, b][..1] == [a] && [a][..0] == [];
    assert SortByKey([a], Slot) == [a];
    assert InsertSorted([], b, Slot) == [b] && [b] + [a] == [b, a] && [a] + [b] == [a, b];
  }

  lemma TwoWrites(a: RoleOutput, b: RoleOutput, key: string, x: string, y: string)
    requires a.values == map[key := x] && b.values == map[key := y]
    ensures Writes([a, b]) == [Write(key, x, a.role), Write(key, y, b.role)]
  {
    assert [a, b][..1] == [a] && [a][..0] == [];
    assert Writes([a]) == OutputWrites(a);
    OneKeyWrites(a, key, x);
    OneKeyWrites(b, key, y);
  }

  lemma FirstOfTwoStands(u: Write, v: Write)
    requires u.key == v.key
    ensures Fold([u, v], FailOnConflict).values == map[u.key := u.value]
  {
    FoldOfTwo(u, v, FailOnConflict);
  }

  /** Without role priority the value of the output merged first stands. */
  lemma FirstMergedStands(a: RoleOutput, i: nat, b: RoleOutput, j: nat, key: string, x: string, y: string)
    requires i < 5 && j < 5 && a.role == DECLARED[i] && b.role == DECLARED[j]
    requires a.values == map[key := x] && b.values == map[key := y]
    ensures Merged([a, b], FailOnConflict).values == map[key := if MergedFirst(a, i, b, j) then x else y]
  {
    RanksAsDeclared(a, i, b, j);
    TwoSorted(a, b);
    TwoWrites(a, b, key, x, y);
    TwoWrites(b, a, key, y, x);
    FirstOfTwoStands(Write(key, x, a.role), Write(key, y, b.role));
    FirstOfTwoStands(Write(key, y, b.role), Write(key, x, a.role));
  }

  lemma RanksAsDeclared(a: RoleOutput, i: nat, b: RoleOutput, j: nat)
    requires i < 5 && j < 5 && a.role == DECLARED[i] && b.role == DECLARED[j]
    ensures Slot(a) <= Slot(b) <==> MergedFirst(a, i, b, j)
  {
    assert Rank(a.role) == i && Rank(b.role) == j;
  }

  lemma ThreeInOrder(a: RoleOutput, b: RoleOutput, c: RoleOutput)
    requires Slot(a) < Slot(b) < Slot(c)
    ensures Writes(SortByKey([a, b, c], Slot)) == OutputWrites(a) + OutputWrites(b) + OutputWrites(c)
  {
    assert [a, b, c][..2] == [a, b] && [a, b][..1] == [a] && [a][..0] == [];
    assert SortByKey([a], Slot) == [a];
    assert SortByKey([a, b], Slot) == [a, b];
    assert SortByKey([a, b, c], Slot) == [a, b, c];
    assert Writes([a]) == OutputWrites(a);
    assert Writes([a, b]) == OutputWrites(a) + OutputWrites(b);
  }

  // ---- Order of the inputs ----

  /** When no two outputs share a step and a role, the merge does not depend on the order
      they arrive in. */
  lemma MergeIgnoresArrivalOrder(outputs: seq<RoleOutput>, shuffled: seq<RoleOutput>, strategy: Strategy)
    requires multiset(outputs) == multiset(shuffled)
    requires forall i, j :: 0 <= i < j < |outputs| ==>
               (outputs[i].step, outputs[i].role) != (outputs[j].step, outputs[j].role)
    ensures Merged(outputs, strategy) == Merged(shuffled, strategy)
  {
    forall i, j | 0 <= i < j < |outputs|
      ensures Slot(outputs[i]) != Slot(outputs[j])
    {
      SlotIsStepThenRole(outputs[i], outputs[j]);
    }
    SortIgnoresInputOrder(outputs, shuffled, Slot);
  }

  lemma OutputFirst(o: RoleOutput, key: string)
    ensures First(OutputWrites(o), key)
            == if key in o.values then Some(Write(key, o.values[key], o.role)) else None
  {
    var ws := OutputWrites(o);
    FirstIsWriter(ws, key);
    if key in o.values {
      KeyIsWritten(o, key);
      var i :| 0 <= i < |ws| && ws[i] == Write(key, o.values[key], o.role);
      assert Writer(ws, i, key);
    }
  }

  ghost predicate Agree(a: RoleOutput, b: RoleOutput) {
    forall k :: k in a.values && k in b.values ==> a.values[k] == b.values[k]
  }

  lemma TwoOutputs(a: RoleOutput, b: RoleOutput, strategy: Strategy)
    requires a.step == b.step && a.role == b.role
    ensures var s := Fold(OutputWrites(a) + OutputWrites(b), strategy);
            Merged([a, b], strategy) == Outcome(s.values, s.conflicts)
  {
    assert [a, b][..1] == [a] && [a][..0] == [];
    assert SortByKey([a], Slot) == [a];
    assert SortByKey([a, b], Slot) == [a, b];
    assert Writes([a]) == OutputWrites(a);
  }

  /** The merge of two batches of one role: the first batch's values, then the second's. */
  lemma TwoBatches(x: seq<Write>, y: seq<Write>, role: Role, strategy: Strategy, key: string)
    requires forall w :: w in x || w in y ==> w.role == role
    ensures var s := Fold(x + y, strategy);
            match (First(x, key), First(y, key))
            case (Some(w), _) => key in s.values && s.values[key] == w.value
            case (None, Some(w)) => key in s.values && s.values[key] == w.value
            case (None, None) => key !in s.values
  {
    assert OneRole(x + y) by {
      forall i | 0 <= i < |x + y|
        ensures (x + y)[i].role == role
      {
        assert (x + y)[i] in x || (x + y)[i] in y;
      }
    }
    FirstWriteStands(x + y, strategy, key);
    FirstAppend(x, y, key);
  }

  lemma PairValue(a: RoleOutput, b: RoleOutput, strategy: Strategy, key: string)
    requires a.step == b.step && a.role == b.role
    ensures var v := Merged([a, b], strategy).values;
            && (key in v <==> key in a.values || key in b.values)
            && (key in a.values ==> v[key] == a.values[key])
            && (key in b.values && key !in a.values ==> v[key] == b.values[key])
  {
    var x, y := OutputWrites(a), OutputWrites(b);
    TwoBatches(x, y, a.role, strategy, key);
    OutputFirst(a, key);
    OutputFirst(b, key);
    TwoOutputs(a, b, strategy);
  }

  lemma PairWithoutConflicts(a: RoleOutput, b: RoleOutput, strategy: Strategy)
    requires a.step == b.step && a.role == b.role && Agree(a, b)
    ensures Merged([a, b], strategy).conflicts == []
  {
    TwoOutputs(a, b, strategy);
    var ws := OutputWrites(a) + OutputWrites(b);
    var conflicts := Fold(ws, strategy).conflicts;
    if conflicts != [] {
      ConflictsAreReal(ws, strategy, conflicts[0]);
    }
  }

  lemma PairsMatch(a: RoleOutput, b: RoleOutput, v: map<string, string>, w: map<string, string>)
    requires PairsAreMerged(a, b, v) && PairsAreMerged(b, a, w)
    ensures v == w <==> Agree(a, b)
  {
    if v == w {
      forall k | k in a.values && k in b.values
        ensures a.values[k] == b.values[k]
      {
        assert v[k] == w[k];
      }
    }
  }

  /** Two outputs of one role in one step merge the same in either order exactly when
      they agree on every key they share. */
  lemma SameSlotOrderMattersIff(a: RoleOutput, b: RoleOutput, strategy: Strategy)
    requires a.step == b.step && a.role == b.role
    ensures Merged([a, b], strategy) == Merged([b, a], strategy) <==> Agree(a, b)
  {
    var m, n := Merged([a, b], strategy), Merged([b, a], strategy);
    assert PairsAreMerged(a, b, m.values) by {
      forall key { PairValue(a, b, strategy, key); }
    }
    assert PairsAreMerged(b, a, n.values) by {
      forall key { PairValue(b, a, strategy, key); }
    }
    PairsMatch(a, b, m.values, n.values);
    if Agree(a, b) {
      PairWithoutConflicts(a, b, strategy);
      PairWithoutConflicts(b, a, strategy);
    }
  }

  ghost predicate PairsAreMerged(a: RoleOutput, b: RoleOutput, v: map<string, string>) {
    && (forall key :: key in v <==> key in a.values || key in b.values)
    && (forall key :: key in a.values ==> v[key] == a.values[key])
    && (forall key :: key in b.values && key !in a.values ==> v[key] == b.values[key])
  }
}
