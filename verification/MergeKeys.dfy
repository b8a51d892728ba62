/** The merge looks at each key by itself. */
module MergeKeys {
  import opened Ordered
  import opened Orchestration

  function KeyWrites(ws: seq<Write>, key: string): seq<Write> {
    if ws == [] then []
    else KeyWrites(ws[..|ws| - 1], key) + if ws[|ws| - 1].key == key then [ws[|ws| - 1]] else []
  }

  function KeyConflicts(conflicts: seq<Conflict>, key: string): seq<Conflict> {
    if conflicts == [] then []
    else KeyConflicts(conflicts[..|conflicts| - 1], key)
         + if conflicts[|conflicts| - 1].key == key then [conflicts[|conflicts| - 1]] else []
  }

  ghost predicate SameStanding(s: State, t: State, key: string) {
    && (key in s.values <==> key in t.values)
    && (key in s.values ==> s.values[key] == t.values[key])
    && (key in s.owners <==> key in t.owners)
    && (key in s.owners ==> s.owners[key] == t.owners[key])
  }

  ghost predicate SameAt(s: State, t: State, key: string) {
    SameStanding(s, t, key) && KeyConflicts(s.conflicts, key) == KeyConflicts(t.conflicts, key)
  }

  lemma KeyConflictsAppend(conflicts: seq<Conflict>, c: Conflict, key: string)
    ensures KeyConflicts(conflicts + [c], key) == KeyConflicts(conflicts, key) + if c.key == key then [c] else []
  {
    assert (conflicts + [c])[..|conflicts|] == conflicts;
  }

  /** The conflict one write adds. */
  function Added(s: State, w: Write): seq<Conflict> {
    if w.key !in s.values || s.values[w.key] == w.value then []
    else
      var owner := if w.key in s.owners then s.owners[w.key] else w.role;
      [Conflict(w.key, owner, w.role, s.values[w.key], w.value)]
  }

  lemma StepConflicts(s: State, w: Write, strategy: Strategy, key: string)
    ensures KeyConflicts(Step(s, w, strategy).conflicts, key)
            == KeyConflicts(s.conflicts, key) + if w.key == key then Added(s, w) else []
  {
    var c := Added(s, w);
    if c == [] {
      assert Step(s, w, strategy).conflicts == s.conflicts;
    } else {
      assert Step(s, w, strategy).conflicts == s.conflicts + [c[0]];
      KeyConflictsAppend(s.conflicts, c[0], key);
    }
  }

  lemma StepElsewhere(s: State, w: Write, strategy: Strategy, key: string)
    requires w.key != key
    ensures SameAt(Step(s, w, strategy), s, key)
  {
    StepConflicts(s, w, strategy, key);
  }

  lemma StepStanding(s: State, t: State, w: Write, strategy: Strategy)
    requires SameStanding(s, t, w.key)
    ensures SameStanding(Step(s, w, strategy), Step(t, w, strategy), w.key)
  {
  }

  lemma StepHere(s: State, t: State, w: Write, strategy: Strategy)
    requires SameAt(s, t, w.key)
    ensures SameAt(Step(s, w, strategy), Step(t, w, strategy), w.key)
  {
    StepStanding(s, t, w, strategy);
    assert Added(s, w) == Added(t, w);
    StepConflicts(s, w, strategy, w.key);
    StepConflicts(t, w, strategy, w.key);
  }

  /** What the fold leaves at a key depends only on the writes to that key. */
  lemma {:induction false} FoldIsKeywise(ws: seq<Write>, strategy: Strategy, key: string)
    ensures SameAt(Fold(ws, strategy), Fold(KeyWrites(ws, key), strategy), key)
  {
    if ws != [] {
      var init, last := ws[..|ws| - 1], ws[|ws| - 1];
      FoldIsKeywise(init, strategy, key);
      if last.key == key {
        var mine := KeyWrites(init, key);
        assert (mine + [last])[..|mine|] == mine;
        StepHere(Fold(init, strategy), Fold(mine, strategy), last, strategy);
      } else {
        assert KeyWrites(ws, key) == KeyWrites(init, key);
        StepElsewhere(Fold(init, strategy), last, strategy, key);
      }
    }
  }

  lemma {:induction false} KeyWritesAppend(a: seq<Write>, b: seq<Write>, key: string)
    ensures KeyWrites(a + b, key) == KeyWrites(a, key) + KeyWrites(b, key)
  {
    if b == [] {
      assert a + b == a;
    } else {
      KeyWritesAppend(a, b[..|b| - 1], key);
      assert (a + b)[..|a + b| - 1] == a + b[..|b| - 1];
    }
  }

  ghost predicate Once(ws: seq<Write>) {
    forall i, j :: 0 <= i < j < |ws| ==> ws[i].key != ws[j].key
  }

  lemma {:induction false} KeyWrittenOnce(ws: seq<Write>, key: string)
    requires Once(ws)
    ensures forall i :: Writer(ws, i, key) ==> KeyWrites(ws, key) == [ws[i]]
    ensures (forall i :: !Writer(ws, i, key)) ==> KeyWrites(ws, key) == []
  {
    if ws != [] {
      var init := ws[..|ws| - 1];
      KeyWrittenOnce(init, key);
      assert forall i :: Writer(init, i, key) <==> i < |init| && Writer(ws, i, key);
    }
  }

  lemma OutputWritesOnce(o: RoleOutput)
    ensures Once(OutputWrites(o))
  {
    var keys := SortedKeys(o.values.Keys);
    forall i, j | 0 <= i < j < |keys|
      ensures keys[i] != keys[j]
    {
      LessIrreflexive(keys[i]);
    }
  }

  lemma OutputOnKey(o: RoleOutput, key: string)
    ensures KeyWrites(OutputWrites(o), key)
            == if key in o.values then [Write(key, o.values[key], o.role)] else []
  {
    var ws := OutputWrites(o);
    OutputWritesOnce(o);
    KeyWrittenOnce(ws, key);
    if key in o.values {
      KeyIsWritten(o, key);
      var i :| 0 <= i < |ws| && ws[i] == Write(key, o.values[key], o.role);
      assert Writer(ws, i, key);
    }
  }

  lemma Associates<T>(a: seq<T>, b: seq<T>, c: seq<T>)
    ensures a + (b + c) == (a + b) + c
  {
  }

  lemma {:induction false} CountAtKey(conflicts: seq<Conflict>, c: Conflict)
    ensures multiset(conflicts)[c] == multiset(KeyConflicts(conflicts, c.key))[c]
  {
    if conflicts != [] {
      var init, last := conflicts[..|conflicts| - 1], conflicts[|conflicts| - 1];
      assert conflicts == init + [last];
      CountAtKey(init, c);
    }
  }
}
