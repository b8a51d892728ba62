/** The run ledger of one run, and the recorder that writes domain events into it. */
module Recording {
  import opened Ordered

  datatype Field = Text(text: string) | Number(n: int)

  /** A payload is usually an object; anything else is stored as it is. */
  datatype Payload = Object(fields: map<string, Field>) | Opaque(text: string)

  /** An event kind serialises to its fields plus its tag under "type". */
  datatype EventKind = EventKind(tag: string, fields: map<string, Field>)

  datatype Event = Event(seqNo: nat, kind: EventKind, payload: Payload)

  datatype RunEvent = RunEvent(seqNo: nat, kind: string, payload: Payload)

  const TYPE := "type"

  function KindObject(kind: EventKind): map<string, Field> {
    kind.fields[TYPE := Text(kind.tag)]
  }

  /** What the ledger gets: the kind's fields are merged in and win over the payload's. */
  ghost function Recorded(e: Event): RunEvent {
    RunEvent(e.seqNo, e.kind.tag,
             if e.payload.Object? then Object(e.payload.fields + (KindObject(e.kind) - {TYPE})) else e.payload)
  }

  datatype Summary = Summary(totalEvents: int, success: bool)

  datatype Status = Running | Completed(summary: Summary) | Failed(summary: Summary)

  function FinalStatus(summary: Summary): Status {
    if summary.success then Completed(summary) else Failed(summary)
  }

  /** One run in the ledger. Any request can fail, before or after taking effect. */
  class RunLog {
    var events: seq<RunEvent>
    var status: Status

    constructor ()
      ensures events == [] && status == Running
    {
      events := [];
      status := Running;
    }

    method Append(e: RunEvent) returns (ok: bool)
      modifies this`events
      ensures ok ==> events == old(events) + [e]
      ensures events == old(events) || events == old(events) + [e]
    {
      var stored: bool := *;
      var replied: bool := *;
      if stored {
        events := events + [e];
      }
      ok := stored && replied;
    }

    method Finish(summary: Summary) returns (ok: bool)
      modifies this`status
      ensures ok ==> status == FinalStatus(summary)
      ensures !ok ==> status == old(status) || status == FinalStatus(summary)
    {
      var stored: bool := *;
      var replied: bool := *;
      if stored {
        status := FinalStatus(summary);
      }
      ok := stored && replied;
    }

    /** Merges the kind's fields into a copy of the payload, then appends. */
    method Record(e: Event) returns (ok: bool)
      modifies this`events
      ensures ok ==> events == old(events) + [Recorded(e)]
      ensures events == old(events) || events == old(events) + [Recorded(e)]
    {
      var payload := e.payload;
      if payload.Object? {
        var fields := MergeFields(payload.fields, KindObject(e.kind));
        payload := Object(fields);
      }
      ok := Append(RunEvent(e.seqNo, e.kind.tag, payload));
    }
  }

  /** The payload with the kind's entries under keys merged in. */
  ghost function MergedWith(payload: map<string, Field>, kindMap: map<string, Field>, keys: seq<string>)
    : map<string, Field>
  {
    payload + Selected(kindMap, keys)
  }

  ghost function Selected(kindMap: map<string, Field>, keys: seq<string>): map<string, Field> {
    map k | k in kindMap && k in keys && k != TYPE :: kindMap[k]
  }

  lemma MergedNext(payload: map<string, Field>, kindMap: map<string, Field>, keys: seq<string>, k: string)
    requires k in kindMap
    ensures MergedWith(payload, kindMap, keys + [k])
            == if k == TYPE then MergedWith(payload, kindMap, keys)
               else MergedWith(payload, kindMap, keys)[k := kindMap[k]]
  {
    var more, less := Selected(kindMap, keys + [k]), Selected(kindMap, keys);
    SelectedMore(kindMap, keys, k);
    if k == TYPE {
      assert more == less;
    } else {
      assert more == less[k := kindMap[k]];
      PlusUpdate(payload, less, k, kindMap[k]);
    }
  }

  lemma SelectedMore(kindMap: map<string, Field>, keys: seq<string>, k: string)
    requires k in kindMap
    ensures forall j :: j in Selected(kindMap, keys + [k]) <==> j in Selected(kindMap, keys) || (j == k && k != TYPE)
  {
    assert forall j :: j in keys + [k] <==> j in keys || j == k;
  }

  lemma PlusUpdate(a: map<string, Field>, b: map<string, Field>, k: string, v: Field)
    ensures a + b[k := v] == (a + b)[k := v]
  {
  }

  lemma MergedEnds(payload: map<string, Field>, kindMap: map<string, Field>, keys: seq<string>)
    requires forall k :: k in kindMap ==> k in keys
    ensures MergedWith(payload, kindMap, []) == payload
    ensures MergedWith(payload, kindMap, keys) == payload + (kindMap - {TYPE})
  {
    assert Selected(kindMap, keys) == kindMap - {TYPE};
  }

  /** Inserts every entry but the tag, overwriting what is there. */
  method MergeFields(payload: map<string, Field>, kindMap: map<string, Field>) returns (fields: map<string, Field>)
    ensures fields == payload + (kindMap - {TYPE})
  {
    var keys := SortedKeys(kindMap.Keys);
    fields := payload;
    MergedEnds(payload, kindMap, keys);
    for i := 0 to |keys|
      invariant fields == MergedWith(payload, kindMap, keys[..i])
    {
      var k := keys[i];
      assert k in keys;
      MergedNext(payload, kindMap, keys[..i], k);
      assert keys[..i + 1] == keys[..i] + [k];
      if k != TYPE {
        fields := fields[k := kindMap[k]];
      }
    }
    assert keys[..|keys|] == keys;
  }

  /** A kind's field can always be read back from the recorded payload, whatever the
      payload held under the same name; every other payload field but that is kept. */
  lemma KindFieldsSurvive(e: Event, k: string)
    requires e.payload.Object? && k != "type"
    ensures var fields := Recorded(e).payload.fields;
            && (k in e.kind.fields ==> k in fields && fields[k] == e.kind.fields[k])
            && (k !in e.kind.fields && k in e.payload.fields ==> k in fields && fields[k] == e.payload.fields[k])
            && (k in fields ==> k in e.kind.fields || k in e.payload.fields)
  {
  }
}
