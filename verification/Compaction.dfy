/** Compacting memory entries: an age limit, then a limit per key. */
module Compaction {
  import opened Options
  import opened Sorting
  import opened Text

  datatype Entry = Entry(key: string, content: string, commitId: string, createdAt: int)

  datatype Policy = Policy(maxAgeDays: Option<nat>, maxEntriesPerKey: Option<nat>)

  datatype Result = Result(retained: seq<Entry>, compactedCount: int)

  /** A day, in the clock's nanoseconds. */
  const DAY: int := 86_400_000_000_000

  // ---- The date library's ranges (chrono 0.4) ----

  /** A duration holds at most i64::MAX milliseconds, which is this many whole days. */
  const MAX_DAYS: int := 106_751_991_167

  /** Dates run from the start of the year -262143 to the end of the year 262142. */
  const MIN_TIME: int := -96_465_292 * DAY
  const END_OF_TIME: int := 95_026_237 * DAY

  predicate IsTime(t: int) {
    MIN_TIME <= t < END_OF_TIME
  }

  /** `u64 as i64`: the upper half of the range turns negative. */
  function AsI64(n: nat): int {
    var m := n % U64_LIMIT;
    if m < U64_LIMIT / 2 then m else m - U64_LIMIT
  }

  function CreatedAt(e: Entry): int {
    e.createdAt
  }

  function NewestFirst(e: Entry): int {
    -e.createdAt
  }

  /** The moment before which entries are dropped; none when the library panics, because
      the days make no duration or the moment is no date. */
  function Cutoff(now: int, days: nat): Option<int> {
    var d := AsI64(days);
    if !(-MAX_DAYS <= d <= MAX_DAYS) then None
    else if IsTime(now - d * DAY) then Some(now - d * DAY)
    else None
  }

  function NotBefore(entries: seq<Entry>, cutoff: int): (r: seq<Entry>)
    ensures |r| <= |entries|
  {
    if entries == [] then []
    else
      var last := entries[|entries| - 1];
      NotBefore(entries[..|entries| - 1], cutoff) + if last.createdAt >= cutoff then [last] else []
  }

  /** What the age limit leaves, or none when the process stops. The cutoff is computed
      anew for each entry, so with no entries nothing can fail. */
  function AfterAge(entries: seq<Entry>, now: int, maxAgeDays: Option<nat>): (r: Option<seq<Entry>>)
    ensures r.Some? ==> |r.value| <= |entries|
  {
    if entries == [] || maxAgeDays == None then Some(entries)
    else
      match Cutoff(now, maxAgeDays.value)
      case None => None
      case Some(cutoff) => Some(NotBefore(entries, cutoff))
  }

  /** The entries with one key, in order. */
  function OfKey(entries: seq<Entry>, key: string): seq<Entry> {
    if entries == [] then []
    else
      var last := entries[|entries| - 1];
      OfKey(entries[..|entries| - 1], key) + if last.key == key then [last] else []
  }

  function Keys(entries: seq<Entry>): set<string> {
    set e | e in entries :: e.key
  }

  function Min(a: nat, b: nat): nat {
    if a <= b then a else b
  }

  function Ranked(entries: seq<Entry>, key: string): seq<Entry> {
    SortByKey(OfKey(entries, key), NewestFirst)
  }

  /** What the limit keeps of one key. */
  function KeptOf(entries: seq<Entry>, key: string, limit: nat): seq<Entry> {
    var ranked := Ranked(entries, key);
    ranked[..Min(limit, |ranked|)]
  }

  function DroppedOf(entries: seq<Entry>, key: string, limit: nat): seq<Entry> {
    var ranked := Ranked(entries, key);
    ranked[Min(limit, |ranked|)..]
  }

  /** The keys' kept entries, one key after another. */
  function Kept(entries: seq<Entry>, limit: nat, order: seq<string>): seq<Entry> {
    if order == [] then []
    else Kept(entries, limit, order[..|order| - 1]) + KeptOf(entries, order[|order| - 1], limit)
  }

  function DroppedCount(entries: seq<Entry>, limit: nat, order: seq<string>): nat {
    if order == [] then 0
    else DroppedCount(entries, limit, order[..|order| - 1]) + |DroppedOf(entries, order[|order| - 1], limit)|
  }

  ghost predicate NoRepeats(order: seq<string>) {
    forall i, j :: 0 <= i < j < |order| ==> order[i] != order[j]
  }

  /** A possible iteration order of a hash map: each key once. */
  ghost predicate OrderOf(order: seq<string>, keys: set<string>) {
    NoRepeats(order) && forall k :: k in order <==> k in keys
  }

  /** The per-key limit on what the age limit left of that many entries. */
  function Limited(total: nat, young: seq<Entry>, maxEntriesPerKey: Option<nat>, order: seq<string>): Result {
    match maxEntriesPerKey
    case None => Result(SortByKey(young, CreatedAt), total - |young|)
    case Some(limit) =>
      Result(SortByKey(Kept(young, limit, order), CreatedAt), total - |young| + DroppedCount(young, limit, order))
  }

  // ---- The code ----

  ghost predicate GroupAt(byKey: map<string, seq<Entry>>, entries: seq<Entry>, key: string) {
    (key in byKey <==> key in Keys(entries)) && (key in byKey ==> byKey[key] == OfKey(entries, key))
  }

  ghost predicate Grouped(byKey: map<string, seq<Entry>>, entries: seq<Entry>) {
    forall key :: GroupAt(byKey, entries, key)
  }

  lemma OfKeyNext(entries: seq<Entry>, e: Entry, key: string)
    ensures OfKey(entries + [e], key) == if e.key == key then OfKey(entries, key) + [e] else OfKey(entries, key)
  {
    assert (entries + [e])[..|entries|] == entries;
    assert OfKey(entries, key) + [] == OfKey(entries, key);
  }

  lemma KeysNext(entries: seq<Entry>, e: Entry)
    ensures Keys(entries + [e]) == Keys(entries) + {e.key}
  {
    assert forall x :: x in entries + [e] <==> x in entries || x == e;
  }

  lemma GroupAtNext(byKey: map<string, seq<Entry>>, entries: seq<Entry>, e: Entry, key: string)
    requires GroupAt(byKey, entries, key)
    ensures GroupAt(byKey[e.key := (if e.key in byKey then byKey[e.key] else []) + [e]], entries + [e], key)
  {
    KeysNext(entries, e);
    OfKeyNext(entries, e, key);
    if key !in byKey {
      AbsentKey(entries, key);
    }
  }

  lemma GroupedNext(byKey: map<string, seq<Entry>>, entries: seq<Entry>, e: Entry)
    requires Grouped(byKey, entries)
    ensures Grouped(byKey[e.key := (if e.key in byKey then byKey[e.key] else []) + [e]], entries + [e])
  {
    var next := byKey[e.key := (if e.key in byKey then byKey[e.key] else []) + [e]];
    forall key
      ensures GroupAt(next, entries + [e], key)
    {
      GroupAtNext(byKey, entries, e, key);
    }
  }

  lemma GroupedMeans(byKey: map<string, seq<Entry>>, entries: seq<Entry>)
    requires Grouped(byKey, entries)
    ensures byKey.Keys == Keys(entries) && forall k :: k in byKey ==> byKey[k] == OfKey(entries, k)
  {
    forall k
      ensures (k in byKey <==> k in Keys(entries)) && (k in byKey ==> byKey[k] == OfKey(entries, k))
    {
      assert GroupAt(byKey, entries, k);
    }
  }

  method GroupByKey(entries: seq<Entry>) returns (byKey: map<string, seq<Entry>>)
    ensures byKey.Keys == Keys(entries)
    ensures forall k :: k in byKey ==> byKey[k] == OfKey(entries, k)
  {
    byKey := map[];
    for i := 0 to |entries|
      invariant Grouped(byKey, entries[..i])
    {
      var e := entries[i];
      GroupedNext(byKey, entries[..i], e);
      assert entries[..i + 1] == entries[..i] + [e];
      var group := if e.key in byKey then byKey[e.key] else [];
      byKey := byKey[e.key := group + [e]];
    }
    assert entries[..|entries|] == entries;
    GroupedMeans(byKey, entries);
  }

  lemma {:induction false} AbsentKey(entries: seq<Entry>, key: string)
    requires key !in Keys(entries)
    ensures OfKey(entries, key) == []
  {
    if entries != [] {
      var init := entries[..|entries| - 1];
      assert entries == init + [entries[|entries| - 1]];
      AbsentKey(init, key);
    }
  }

  /** Keeps the first entries of one ranked group and counts the rest. */
  method TakeNewest(retained0: seq<Entry>, ranked: seq<Entry>, limit: nat)
    returns (retained: seq<Entry>, dropped: nat)
    ensures retained == retained0 + ranked[..Min(limit, |ranked|)]
    ensures dropped == |ranked[Min(limit, |ranked|)..]|
  {
    retained, dropped := retained0, 0;
    for i := 0 to |ranked|
      invariant retained == retained0 + ranked[..Min(limit, i)]
      invariant dropped == i - Min(limit, i)
    {
      if i < limit {
        retained := retained + [ranked[i]];
      } else {
        dropped := dropped + 1;
      }
    }
  }

  ghost predicate LimitedSoFar(young: seq<Entry>, limit: nat, order: seq<string>, done: set<string>,
                               retained: seq<Entry>, dropped: nat) {
    OrderOf(order, done) && retained == Kept(young, limit, order) && dropped == DroppedCount(young, limit, order)
  }

  lemma LimitedNext(young: seq<Entry>, limit: nat, order: seq<string>, done: set<string>,
                    retained: seq<Entry>, dropped: nat, key: string)
    requires LimitedSoFar(young, limit, order, done, retained, dropped) && key !in done
    ensures LimitedSoFar(young, limit, order + [key], done + {key},
                         retained + KeptOf(young, key, limit), dropped + |DroppedOf(young, key, limit)|)
  {
    var more := order + [key];
    assert more[..|order|] == order && more[|order|] == key;
    assert forall k :: k in more <==> k in order || k == key;
  }

  lemma MovedOver<T>(done: set<T>, left: set<T>, x: T)
    requires done !! left && x in left
    ensures (done + {x}) !! (left - {x}) && (done + {x}) + (left - {x}) == done + left
    ensures |left - {x}| < |left|
  {
  }

  lemma NothingLimited(young: seq<Entry>, limit: nat)
    ensures LimitedSoFar(young, limit, [], {}, [], 0)
  {
  }

  /** Limits one group. */
  method LimitGroup(ghost young: seq<Entry>, ghost order0: seq<string>, ghost done: set<string>,
                    ghost key: string, group: seq<Entry>, limit: nat, retained0: seq<Entry>, dropped0: nat)
    returns (retained: seq<Entry>, dropped: nat, ghost order: seq<string>)
    requires LimitedSoFar(young, limit, order0, done, retained0, dropped0)
    requires key !in done && group == OfKey(young, key)
    ensures LimitedSoFar(young, limit, order, done + {key}, retained, dropped)
  {
    var ranked := SortByKey(group, NewestFirst);
    var more: nat;
    retained, more := TakeNewest(retained0, ranked, limit);
    LimitedNext(young, limit, order0, done, retained0, dropped0, key);
    dropped, order := dropped0 + more, order0 + [key];
  }

  /** Limits every group. The map of groups is walked in an arbitrary order, which the
      method leaves open. */
  method LimitGroups(young: seq<Entry>, limit: nat) returns (retained: seq<Entry>, dropped: nat, ghost order: seq<string>)
    ensures LimitedSoFar(young, limit, order, Keys(young), retained, dropped)
  {
    var byKey := GroupByKey(young);
    var left := byKey.Keys;
    ghost var done: set<string> := {};
    retained, dropped, order := [], 0, [];
    NothingLimited(young, limit);
    while left != {}
      invariant done !! left && done + left == byKey.Keys
      invariant LimitedSoFar(young, limit, order, done, retained, dropped)
      decreases |left|
    {
      var key :| key in left;
      retained, dropped, order := LimitGroup(young, order, done, key, byKey[key], limit, retained, dropped);
      MovedOver(done, left, key);
      done, left := done + {key}, left - {key};
    }
    assert done == byKey.Keys;
  }

  /** None when the age limit stops the process. */
  method Compact(entries: seq<Entry>, now: int, policy: Policy) returns (r: Option<Result>)
    ensures r.None? <==> AfterAge(entries, now, policy.maxAgeDays).None?
    ensures r.Some? ==>
              var young := AfterAge(entries, now, policy.maxAgeDays).value;
              exists order :: OrderOf(order, Keys(young))
                              && r.value == Limited(|entries|, young, policy.maxEntriesPerKey, order)
  {
    var after := AfterAge(entries, now, policy.maxAgeDays);
    if after.None? {
      return None;
    }
    var young := after.value;
    var retained: seq<Entry>, dropped := young, 0;
    ghost var order: seq<string>;
    match policy.maxEntriesPerKey {
      case None => order := SomeOrder(Keys(young));
      case Some(limit) => retained, dropped, order := LimitGroups(young, limit);
    }
    assert OrderOf(order, Keys(young));
    r := Some(Result(SortByKey(retained, CreatedAt), |entries| - |young| + dropped));
  }

  lemma {:induction false} SomeOrder(keys: set<string>) returns (order: seq<string>)
    ensures OrderOf(order, keys)
    decreases |keys|
  {
    if keys == {} {
      order := [];
    } else {
      var k :| k in keys;
      var rest := SomeOrder(keys - {k});
      order := rest + [k];
    }
  }

  // ---- One key ----

  /** The limit splits a key's entries: as many as allowed are kept, nothing is lost, and
      everything dropped is no newer than everything kept. */
  lemma LimitKeepsTheNewest(entries: seq<Entry>, key: string, limit: nat)
    ensures |KeptOf(entries, key, limit)| == Min(limit, |OfKey(entries, key)|)
    ensures multiset(KeptOf(entries, key, limit)) + multiset(DroppedOf(entries, key, limit))
            == multiset(OfKey(entries, key))
    ensures forall d, r :: d in DroppedOf(entries, key, limit) && r in KeptOf(entries, key, limit)
                           ==> d.createdAt <= r.createdAt
  {
    var ranked := Ranked(entries, key);
    SortIsSorted(OfKey(entries, key), NewestFirst);
    SplitRanked(ranked, Min(limit, |ranked|));
  }

  lemma SplitRanked(ranked: seq<Entry>, n: nat)
    requires SortedByKey(ranked, NewestFirst) && n <= |ranked|
    ensures multiset(ranked[..n]) + multiset(ranked[n..]) == multiset(ranked)
    ensures forall d, r :: d in ranked[n..] && r in ranked[..n] ==> d.createdAt <= r.createdAt
  {
    assert ranked == ranked[..n] + ranked[n..];
    forall d, r | d in ranked[n..] && r in ranked[..n]
      ensures d.createdAt <= r.createdAt
    {
      var i :| 0 <= i < n && ranked[..n][i] == r;
      var j :| 0 <= j < |ranked| - n && ranked[n..][j] == d;
      assert NewestFirst(ranked[i]) <= NewestFirst(ranked[n + j]);
    }
  }

  lemma {:induction false} OfKeyMembers(entries: seq<Entry>, key: string, e: Entry)
    ensures multiset(OfKey(entries, key))[e] == if e.key == key then multiset(entries)[e] else 0
  {
    if entries != [] {
      var init, last := entries[..|entries| - 1], entries[|entries| - 1];
      OfKeyMembers(init, key, e);
      assert entries == init + [last];
    }
  }

  lemma KeptOfHasKey(entries: seq<Entry>, key: string, limit: nat, e: Entry)
    requires e.key != key
    ensures multiset(KeptOf(entries, key, limit))[e] == 0
  {
    OfKeyMembers(entries, key, e);
    LimitKeepsTheNewest(entries, key, limit);
    assert multiset(KeptOf(entries, key, limit))[e] + multiset(DroppedOf(entries, key, limit))[e]
           == multiset(OfKey(entries, key))[e];
  }

  // ---- All keys together ----

  lemma {:induction false} KeptCount(entries: seq<Entry>, limit: nat, order: seq<string>, e: Entry)
    requires NoRepeats(order)
    ensures multiset(Kept(entries, limit, order))[e]
            == if e.key in order then multiset(KeptOf(entries, e.key, limit))[e] else 0
  {
    if order != [] {
      var init, last := order[..|order| - 1], order[|order| - 1];
      assert order == init + [last];
      KeptCount(entries, limit, init, e);
      if e.key == last {
        assert last !in init;
      } else {
        KeptOfHasKey(entries, last, limit, e);
      }
    }
  }

  /** Which entries survive does not depend on the order the groups are walked in. */
  lemma OrderDoesNotMatter(total: nat, young: seq<Entry>, max: Option<nat>, order: seq<string>, other: seq<string>)
    requires OrderOf(order, Keys(young)) && OrderOf(other, Keys(young))
    ensures var r, s := Limited(total, young, max, order), Limited(total, young, max, other);
            multiset(r.retained) == multiset(s.retained) && r.compactedCount == s.compactedCount
  {
    match max
    case None =>
    case Some(limit) =>
      SameKept(young, limit, order, other);
      SortIsSorted(Kept(young, limit, order), CreatedAt);
      SortIsSorted(Kept(young, limit, other), CreatedAt);
      KeptAndDropped(young, limit, order);
      KeptAndDropped(young, limit, other);
      assert |Kept(young, limit, order)| == |multiset(Kept(young, limit, order))|;
      assert |Kept(young, limit, other)| == |multiset(Kept(young, limit, other))|;
  }

  lemma SameKept(young: seq<Entry>, limit: nat, order: seq<string>, other: seq<string>)
    requires OrderOf(order, Keys(young)) && OrderOf(other, Keys(young))
    ensures multiset(Kept(young, limit, order)) == multiset(Kept(young, limit, other))
  {
    forall e: Entry
      ensures multiset(Kept(young, limit, order))[e] == multiset(Kept(young, limit, other))[e]
    {
      KeptCount(young, limit, order, e);
      KeptCount(young, limit, other, e);
    }
  }

  /** When no two surviving entries were created at the same instant, not even their order
      depends on it. */
  lemma DistinctTimesFixTheOrder(young: seq<Entry>, limit: nat, order: seq<string>, other: seq<string>)
    requires OrderOf(order, Keys(young)) && OrderOf(other, Keys(young))
    requires DistinctKeys(Kept(young, limit, order), CreatedAt)
    ensures SortByKey(Kept(young, limit, order), CreatedAt) == SortByKey(Kept(young, limit, other), CreatedAt)
  {
    SameKept(young, limit, order, other);
    DistinctKeysIdentify(Kept(young, limit, order), CreatedAt);
    SortIgnoresInputOrder(Kept(young, limit, order), Kept(young, limit, other), CreatedAt);
  }

  function GroupSizes(entries: seq<Entry>, order: seq<string>): nat {
    if order == [] then 0
    else GroupSizes(entries, order[..|order| - 1]) + |OfKey(entries, order[|order| - 1])|
  }

  lemma {:induction false} OneMoreEntry(entries: seq<Entry>, e: Entry, order: seq<string>)
    requires NoRepeats(order)
    ensures GroupSizes(entries + [e], order) == GroupSizes(entries, order) + if e.key in order then 1 else 0
  {
    if order != [] {
      var init, last := order[..|order| - 1], order[|order| - 1];
      assert order == init + [last];
      OneMoreEntry(entries, e, init);
      assert (entries + [e])[..|entries|] == entries;
      if e.key == last {
        assert last !in init;
      }
    }
  }

  lemma {:induction false} GroupsCoverEntries(entries: seq<Entry>, order: seq<string>)
    requires NoRepeats(order) && forall k :: k in Keys(entries) ==> k in order
    ensures GroupSizes(entries, order) == |entries|
  {
    if entries == [] {
      NoGroups(order);
    } else {
      var init, last := entries[..|entries| - 1], entries[|entries| - 1];
      assert entries == init + [last];
      assert last in entries && last.key in Keys(entries);
      assert forall k :: k in Keys(init) ==> k in Keys(entries);
      GroupsCoverEntries(init, order);
      OneMoreEntry(init, last, order);
    }
  }

  lemma {:induction false} NoGroups(order: seq<string>)
    ensures GroupSizes([], order) == 0
  {
    if order != [] {
      NoGroups(order[..|order| - 1]);
    }
  }

  lemma {:induction false} KeptAndDroppedPerKey(entries: seq<Entry>, limit: nat, order: seq<string>)
    ensures |Kept(entries, limit, order)| + DroppedCount(entries, limit, order) == GroupSizes(entries, order)
  {
    if order != [] {
      KeptAndDroppedPerKey(entries, limit, order[..|order| - 1]);
    }
  }

  lemma KeptAndDropped(entries: seq<Entry>, limit: nat, order: seq<string>)
    requires OrderOf(order, Keys(entries))
    ensures |Kept(entries, limit, order)| + DroppedCount(entries, limit, order) == |entries|
  {
    KeptAndDroppedPerKey(entries, limit, order);
    GroupsCoverEntries(entries, order);
  }

  /** Entries retained and entries compacted add up to the input, whatever the policy and
      the order, and the retained ones stand in time order. */
  lemma CompactionConserves(total: nat, young: seq<Entry>, max: Option<nat>, order: seq<string>)
    requires OrderOf(order, Keys(young))
    ensures var r := Limited(total, young, max, order);
            && |r.retained| + r.compactedCount == total
            && forall i, j :: 0 <= i < j < |r.retained| ==> r.retained[i].createdAt <= r.retained[j].createdAt
  {
    match max
    case None => SortedIsInTime(young);
    case Some(limit) =>
      KeptAndDropped(young, limit, order);
      SortedIsInTime(Kept(young, limit, order));
  }

  lemma SortedIsInTime(entries: seq<Entry>)
    ensures var r := SortByKey(entries, CreatedAt);
            |r| == |entries| && forall i, j :: 0 <= i < j < |r| ==> r[i].createdAt <= r[j].createdAt
  {
    SortIsSorted(entries, CreatedAt);
    var r := SortByKey(entries, CreatedAt);
    assert forall i, j :: 0 <= i < j < |r| ==> CreatedAt(r[i]) <= CreatedAt(r[j]);
  }

  /** Under a limit, what is left of each key is its newest entries, at most the limit. */
  lemma RetainedPerKey(total: nat, young: seq<Entry>, limit: nat, order: seq<string>, key: string)
    requires OrderOf(order, Keys(young))
    ensures var left := OfKey(Limited(total, young, Some(limit), order).retained, key);
            && multiset(left) == multiset(KeptOf(young, key, limit))
            && |left| == Min(limit, |OfKey(young, key)|)
  {
    var kept := Kept(young, limit, order);
    var retained := SortByKey(kept, CreatedAt);
    SortIsSorted(kept, CreatedAt);
    forall e: Entry
      ensures multiset(OfKey(retained, key))[e] == multiset(KeptOf(young, key, limit))[e]
    {
      OfKeyMembers(retained, key, e);
      KeptCount(young, limit, order, e);
      if e.key != key {
        KeptOfHasKey(young, key, limit, e);
      } else if key !in order {
        AbsentKey(young, key);
      }
    }
    LimitKeepsTheNewest(young, key, limit);
    assert multiset(OfKey(retained, key)) == multiset(KeptOf(young, key, limit));
    assert |OfKey(retained, key)| == |multiset(OfKey(retained, key))|;
    assert |KeptOf(young, key, limit)| == |multiset(KeptOf(young, key, limit))|;
  }

  // ---- The age limit ----

  lemma {:induction false} NotBeforeMember(entries: seq<Entry>, cutoff: int, e: Entry)
    ensures multiset(NotBefore(entries, cutoff))[e] == if e.createdAt >= cutoff then multiset(entries)[e] else 0
  {
    if entries != [] {
      var init, last := entries[..|entries| - 1], entries[|entries| - 1];
      assert entries == init + [last];
      NotBeforeMember(init, cutoff, e);
    }
  }

  /** Of every entry at most so many days old all copies stay, and of every other none. */
  ghost predicate KeepsWithinDays(entries: seq<Entry>, young: seq<Entry>, now: int, days: nat) {
    forall e: Entry :: multiset(young)[e] == if now - e.createdAt <= days * DAY then multiset(entries)[e] else 0
  }

  /** The limit does what it says on every list of entries. */
  ghost predicate MeansWhatItSays(now: int, days: nat) {
    forall entries: seq<Entry> ::
      AfterAge(entries, now, Some(days)).Some?
      && KeepsWithinDays(entries, AfterAge(entries, now, Some(days)).value, now, days)
  }

  /** The limit drops everything that exists, an entry created this instant included. */
  ghost predicate DropsEverything(now: int, days: nat) {
    forall entries: seq<Entry> :: (forall e :: e in entries ==> e.createdAt <= now) ==>
      AfterAge(entries, now, Some(days)) == Some([])
  }

  /** The limit stops the process on every list with an entry in it. */
  ghost predicate StopsTheProcess(now: int, days: nat) {
    forall entries: seq<Entry> :: entries != [] ==> AfterAge(entries, now, Some(days)) == None
  }

  lemma SmallDaysMeanWhatTheySay(now: int, days: nat)
    requires IsTime(now) && days * DAY <= now - MIN_TIME
    ensures MeansWhatItSays(now, days)
  {
    assert AsI64(days) == days && Cutoff(now, days) == Some(now - days * DAY);
    forall entries: seq<Entry>
      ensures AfterAge(entries, now, Some(days)).Some?
      ensures KeepsWithinDays(entries, AfterAge(entries, now, Some(days)).value, now, days)
    {
      CutoffKeepsWithinDays(entries, now, days);
      assert NotBefore([], now - days * DAY) == [];
    }
  }

  lemma CutoffKeepsWithinDays(entries: seq<Entry>, now: int, days: nat)
    ensures KeepsWithinDays(entries, NotBefore(entries, now - days * DAY), now, days)
  {
    forall e: Entry
      ensures multiset(NotBefore(entries, now - days * DAY))[e]
              == if now - e.createdAt <= days * DAY then multiset(entries)[e] else 0
    {
      NotBeforeMember(entries, now - days * DAY, e);
    }
  }

  lemma {:induction false} NothingYoungEnough(entries: seq<Entry>, cutoff: int)
    requires forall e :: e in entries ==> e.createdAt < cutoff
    ensures NotBefore(entries, cutoff) == []
  {
    if entries != [] {
      NothingYoungEnough(entries[..|entries| - 1], cutoff);
    }
  }

  lemma WrappedDaysDropEverything(now: int, days: nat)
    requires IsTime(now) && days < U64_LIMIT && (U64_LIMIT - days) * DAY < END_OF_TIME - now
    ensures DropsEverything(now, days)
  {
    assert AsI64(days) == days - U64_LIMIT;
    assert Cutoff(now, days) == Some(now + (U64_LIMIT - days) * DAY);
    forall entries: seq<Entry> | forall e :: e in entries ==> e.createdAt <= now
      ensures AfterAge(entries, now, Some(days)) == Some([])
    {
      NothingYoungEnough(entries, now + (U64_LIMIT - days) * DAY);
    }
  }

  lemma OtherDaysStop(now: int, days: nat)
    requires IsTime(now) && days < U64_LIMIT
    requires days * DAY > now - MIN_TIME && (U64_LIMIT - days) * DAY >= END_OF_TIME - now
    ensures Cutoff(now, days) == None
  {
  }

  /** The age limit does one of three things, and which one can be told from the days
      alone: it means what it says while the cutoff is a date; within the last days below
      2^64 the cast is negative, the cutoff lies in the future and everything is dropped;
      in between the process stops. */
  lemma AgeLimitThreeWays(now: int, days: nat)
    requires IsTime(now) && days < U64_LIMIT
    ensures MeansWhatItSays(now, days) <==> days * DAY <= now - MIN_TIME
    ensures DropsEverything(now, days) <==> (U64_LIMIT - days) * DAY < END_OF_TIME - now
    ensures StopsTheProcess(now, days)
            <==> days * DAY > now - MIN_TIME && (U64_LIMIT - days) * DAY >= END_OF_TIME - now
  {
    var one := [Entry("", "", "", now)];
    if days * DAY <= now - MIN_TIME {
      SmallDaysMeanWhatTheySay(now, days);
    } else if (U64_LIMIT - days) * DAY < END_OF_TIME - now {
      WrappedDaysDropEverything(now, days);
      assert AfterAge(one, now, Some(days)) == Some([]);
    } else {
      OtherDaysStop(now, days);
      assert AfterAge(one, now, Some(days)) == None;
    }
    MeaningKeepsTheNewborn(now, days, one[0]);
  }

  lemma MeaningKeepsTheNewborn(now: int, days: nat, e: Entry)
    requires e.createdAt == now
    ensures MeansWhatItSays(now, days) ==>
              AfterAge([e], now, Some(days)).Some? && AfterAge([e], now, Some(days)).value != []
  {
    if MeansWhatItSays(now, days) {
      var young := AfterAge([e], now, Some(days)).value;
      assert KeepsWithinDays([e], young, now, days);
      assert multiset(young)[e] == multiset([e])[e] == 1;
    }
  }

  /** The largest day count, meant to keep everything, drops everything instead; a hundred
      million days, a quarter of a million years, stops the process. */
  lemma HugeLimitsFail(now: int)
    requires 0 <= now < 100 * 365 * DAY
    ensures DropsEverything(now, U64_LIMIT - 1)
    ensures StopsTheProcess(now, 100_000_000) && StopsTheProcess(now, U64_LIMIT / 2)
  {
    AgeLimitThreeWays(now, U64_LIMIT - 1);
    AgeLimitThreeWays(now, 100_000_000);
    AgeLimitThreeWays(now, U64_LIMIT / 2);
  }
}
