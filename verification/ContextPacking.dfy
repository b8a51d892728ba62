/** Packing context segments into a token budget, with the machine's addition. */
module ContextPacking {
  import opened Sorting
  import opened Text

  type usize = n: nat | n < U64_LIMIT

  datatype Segment = Segment(name: string, content: string, priority: nat, tokens: usize)

  datatype Assembled = Assembled(segments: seq<Segment>, totalTokens: nat, droppedCount: nat)

  function Descending(s: Segment): int {
    0 - s.priority
  }

  /** Release builds wrap around at 64 bits. */
  function WrappingAdd(a: usize, b: usize): usize {
    (a + b) % U64_LIMIT
  }

  datatype Packed = Packed(included: seq<Segment>, total: nat, dropped: seq<Segment>)

  /** Greedy packing in the order given, with unbounded addition. */
  function Pack(segments: seq<Segment>, budget: nat): Packed {
    if segments == [] then Packed([], 0, [])
    else
      var p, s := Pack(segments[..|segments| - 1], budget), segments[|segments| - 1];
      if p.total + s.tokens <= budget then Packed(p.included + [s], p.total + s.tokens, p.dropped)
      else p.(dropped := p.dropped + [s])
  }

  /** The same with wrapping addition: what the code does. */
  function WrappedPack(segments: seq<Segment>, budget: usize): (p: Packed)
    ensures p.total < U64_LIMIT
  {
    if segments == [] then Packed([], 0, [])
    else
      var p, s := WrappedPack(segments[..|segments| - 1], budget), segments[|segments| - 1];
      if WrappingAdd(p.total, s.tokens) <= budget then
        Packed(p.included + [s], WrappingAdd(p.total, s.tokens), p.dropped)
      else p.(dropped := p.dropped + [s])
  }

  method Assemble(segments: seq<Segment>, budget: usize) returns (r: Assembled)
    ensures var p := WrappedPack(SortByKey(segments, Descending), budget);
            r == Assembled(p.included, p.total, |p.dropped|)
    ensures forall i, j :: 0 <= i < j < |r.segments| ==> r.segments[i].priority >= r.segments[j].priority
    ensures multiset(r.segments) <= multiset(segments) && |r.segments| + r.droppedCount == |segments|
  {
    PackedInPriority(segments, budget);
    var sorted := SortByKey(segments, Descending);
    var included: seq<Segment> := [];
    var total: usize := 0;
    var dropped := 0;
    for i := 0 to |sorted|
      invariant var p := WrappedPack(sorted[..i], budget);
                included == p.included && total == p.total && dropped == |p.dropped|
    {
      var seg := sorted[i];
      assert sorted[..i + 1][..i] == sorted[..i];
      if WrappingAdd(total, seg.tokens) <= budget {
        total := WrappingAdd(total, seg.tokens);
        included := included + [seg];
      } else {
        dropped := dropped + 1;
      }
    }
    assert sorted[..|sorted|] == sorted;
    r := Assembled(included, total, dropped);
  }

  // ---- What greedy packing gives ----

  function Sum(segments: seq<Segment>): nat {
    if segments == [] then 0 else Sum(segments[..|segments| - 1]) + segments[|segments| - 1].tokens
  }

  lemma {:induction false} WrappedPackConserves(segments: seq<Segment>, budget: usize)
    ensures var p := WrappedPack(segments, budget);
            && multiset(p.included) + multiset(p.dropped) == multiset(segments)
            && |p.included| + |p.dropped| == |segments|
  {
    if segments != [] {
      WrappedPackConserves(segments[..|segments| - 1], budget);
      assert segments == segments[..|segments| - 1] + [segments[|segments| - 1]];
    }
  }

  ghost predicate ByPriority(segments: seq<Segment>) {
    forall i, j :: 0 <= i < j < |segments| ==> segments[i].priority >= segments[j].priority
  }

  lemma PackedInPriority(segments: seq<Segment>, budget: usize)
    ensures var p := WrappedPack(SortByKey(segments, Descending), budget);
            && ByPriority(p.included) && multiset(p.included) <= multiset(segments)
            && |p.included| + |p.dropped| == |segments|
  {
    var sorted := SortByKey(segments, Descending);
    SortIsSorted(segments, Descending);
    assert forall i, j :: 0 <= i < j < |sorted| ==> Descending(sorted[i]) <= Descending(sorted[j]);
    WrappedPackKeepsOrder(sorted, budget);
    WrappedPackConserves(sorted, budget);
  }

  lemma {:induction false} WrappedPackKeepsOrder(segments: seq<Segment>, budget: usize)
    requires ByPriority(segments)
    ensures ByPriority(WrappedPack(segments, budget).included)
  {
    if segments != [] {
      var init, last := segments[..|segments| - 1], segments[|segments| - 1];
      WrappedPackKeepsOrder(init, budget);
      WrappedPackConserves(init, budget);
      var p := WrappedPack(init, budget);
      forall i | 0 <= i < |p.included|
        ensures p.included[i].priority >= last.priority
      {
        assert p.included[i] in multiset(p.included);
        InElements(init, p.included[i]);
        var j :| 0 <= j < |init| && init[j] == p.included[i];
        assert segments[j] == init[j];
      }
    }
  }

  /** With unbounded addition: the total is the sum of what was included, it stays within
      the budget, and nothing that was dropped would fit in the space finally left. */
  lemma {:induction false} PackIsGreedy(segments: seq<Segment>, budget: nat)
    ensures var p := Pack(segments, budget);
            && p.total == Sum(p.included) && p.total <= budget
            && forall s :: s in p.dropped ==> p.total + s.tokens > budget
  {
    if segments != [] {
      var init, last := segments[..|segments| - 1], segments[|segments| - 1];
      PackIsGreedy(init, budget);
      var p := Pack(init, budget);
      assert (p.included + [last])[..|p.included|] == p.included;
    }
  }

  // ---- When the machine's addition matters ----

  ghost predicate Overflows(segments: seq<Segment>, budget: nat, i: nat)
    requires i < |segments|
  {
    Pack(segments[..i], budget).total + segments[i].tokens >= U64_LIMIT
  }

  /** No segment reaches 2^64 together with what was packed before it. */
  ghost predicate NoOverflow(segments: seq<Segment>, budget: nat) {
    forall i :: 0 <= i < |segments| ==> !Overflows(segments, budget, i)
  }

  lemma {:induction false} WithoutOverflowExact(segments: seq<Segment>, budget: usize)
    requires NoOverflow(segments, budget)
    ensures WrappedPack(segments, budget) == Pack(segments, budget)
  {
    if segments != [] {
      var init := segments[..|segments| - 1];
      assert NoOverflow(init, budget) by {
        forall i | 0 <= i < |init|
          ensures !Overflows(init, budget, i)
        {
          assert init[..i] == segments[..i] && !Overflows(segments, budget, i);
        }
      }
      WithoutOverflowExact(init, budget);
      assert !Overflows(segments, budget, |segments| - 1);
    }
  }

  lemma {:induction false} IncludedOnlyGrows(segments: seq<Segment>, n: nat, budget: usize)
    requires n <= |segments|
    ensures Sum(WrappedPack(segments[..n], budget).included) <= Sum(WrappedPack(segments, budget).included)
  {
    if n == |segments| {
      assert segments[..n] == segments;
    } else {
      var init, last := segments[..|segments| - 1], segments[|segments| - 1];
      IncludedOnlyGrows(init, n, budget);
      assert init[..n] == segments[..n];
      var p := WrappedPack(init, budget);
      assert (p.included + [last])[..|p.included|] == p.included;
    }
  }

  /** At the first overflow the wrapped sum looks small, and the segment is included. */
  lemma FirstOverflowIsIncluded(segments: seq<Segment>, n: nat, budget: usize)
    requires n < |segments| && NoOverflow(segments[..n], budget)
    requires Overflows(segments, budget, n)
    ensures Sum(WrappedPack(segments[..n + 1], budget).included) >= U64_LIMIT
  {
    var p, s := Pack(segments[..n], budget), segments[n];
    WithoutOverflowExact(segments[..n], budget);
    PackIsGreedy(segments[..n], budget);
    assert segments[..n + 1][..n] == segments[..n];
    assert WrappingAdd(p.total, s.tokens) == p.total + s.tokens - U64_LIMIT;
    assert (p.included + [s])[..|p.included|] == p.included;
  }

  lemma {:induction false} FirstOverflow(segments: seq<Segment>, budget: nat) returns (n: nat)
    requires segments != [] && !NoOverflow(segments, budget)
    ensures n < |segments| && NoOverflow(segments[..n], budget)
    ensures Overflows(segments, budget, n)
  {
    var init := segments[..|segments| - 1];
    if NoOverflow(init, budget) {
      n := |segments| - 1;
      assert exists i :: 0 <= i < |segments| && Overflows(segments, budget, i);
      forall i | 0 <= i < n
        ensures !Overflows(segments, budget, i)
      {
        assert init[..i] == segments[..i];
        assert !Overflows(init, budget, i);
      }
    } else {
      n := FirstOverflow(init, budget);
      assert init[..n] == segments[..n];
    }
  }

  /** What the code includes stays within the budget exactly when no addition overflows;
      then it is the exact greedy packing. Past an overflow it is over budget by far. */
  lemma WithinBudgetIff(segments: seq<Segment>, budget: usize)
    ensures Sum(WrappedPack(segments, budget).included) <= budget <==> NoOverflow(segments, budget)
    ensures WrappedPack(segments, budget) == Pack(segments, budget) <==> NoOverflow(segments, budget)
  {
    PackIsGreedy(segments, budget);
    if NoOverflow(segments, budget) {
      WithoutOverflowExact(segments, budget);
    } else {
      var n := FirstOverflow(segments, budget);
      FirstOverflowIsIncluded(segments, n, budget);
      IncludedOnlyGrows(segments, n + 1, budget);
    }
  }

  /** A caller is safe when the budget and any one segment together stay below 2^64. */
  lemma SmallSegmentsNeverOverflow(segments: seq<Segment>, budget: usize)
    requires forall s :: s in segments ==> budget + s.tokens < U64_LIMIT
    ensures NoOverflow(segments, budget)
  {
    forall i | 0 <= i < |segments|
      ensures !Overflows(segments, budget, i)
    {
      PackIsGreedy(segments[..i], budget);
      assert segments[i] in segments;
    }
  }

  /** Every budget from one token up can be overrun by two segments. */
  lemma AnyBudgetCanBeOverrun(budget: usize)
    requires budget >= 1
    ensures var small, huge := Segment("", "", 1, 1), Segment("", "", 0, U64_LIMIT - 1);
            var p := WrappedPack(SortByKey([small, huge], Descending), budget);
            p.included == [small, huge] && p.total == 0 && Sum(p.included) == U64_LIMIT
  {
    var small, huge := Segment("", "", 1, 1), Segment("", "", 0, U64_LIMIT - 1);
    var both := [small, huge];
    assert both[..1] == [small] && [small][..0] == [];
    assert SortByKey([small], Descending) == [small];
    assert SortByKey(both, Descending) == both;
    assert WrappedPack([small], budget) == Packed([small], 1, []);
    assert WrappingAdd(1, U64_LIMIT - 1) == 0;
    assert Sum([small]) == 1;
  }
}
