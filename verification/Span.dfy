/** A span's attributes, kept in three parallel structures, are an insertion-ordered map (span.go). */
module Spans {
  import opened Prelude
  import opened Ascii
  import opened Attributes
  import opened Intervals

  /** OTLP AnyValue. An integer is kept as its value; the wire form prints it in decimal. */
  datatype AnyValue =
    | StringValue(text: string)
    | BoolValue(flag: bool)
    | IntValue(number: int)
    | DoubleValue(quantity: real)

  datatype KeyValue = KeyValue(key: string, value: AnyValue)

  datatype SpanLink = SpanLink(traceID: string, spanID: string, kind: string)

  datatype SpanData = SpanData(
    traceID: string, spanID: string, parentSpanID: string, name: string, kind: int,
    start: int, end: int, attributes: seq<KeyValue>, links: seq<SpanLink>, status: Option<int>)

  const STATUS_UNSET := 0
  const STATUS_OK := 1

  const URL_FULL := "url.full"

  /** The two redactions a span applies: which keys are held back, and what is left of a url. */
  datatype Policy = Policy(held: string -> bool, redactURL: string -> string)

  /** The SDK's policy; url.Parse is a parameter. */
  function SdkPolicy(redactURL: string -> string): (r: Policy)
    ensures r.redactURL == redactURL
  {
    Policy(key => IsSensitive(key), redactURL)
  }

  // ---------- the insertion-ordered map ----------

  predicate HasKey(entries: seq<KeyValue>, key: string) {
    exists i :: 0 <= i < |entries| && entries[i].key == key
  }

  /** One write: a held-back key changes nothing, a known key is updated in place, a new key goes last. */
  function Put(policy: Policy, entries: seq<KeyValue>, key: string, v: AnyValue): seq<KeyValue> {
    if policy.held(key) then entries
    else if HasKey(entries, key) then Updated(entries, key, v)
    else entries + [KeyValue(key, v)]
  }

  function Updated(entries: seq<KeyValue>, key: string, v: AnyValue): (r: seq<KeyValue>)
    ensures |r| == |entries|
    ensures forall i :: 0 <= i < |r| ==> r[i] == if entries[i].key == key then KeyValue(key, v) else entries[i]
  {
    seq(|entries|, i requires 0 <= i < |entries| =>
      if entries[i].key == key then KeyValue(key, v) else entries[i])
  }

  function PutAll(policy: Policy, writes: seq<KeyValue>): seq<KeyValue> {
    if writes == [] then []
    else
      var last := writes[|writes| - 1];
      Put(policy, PutAll(policy, writes[..|writes| - 1]), last.key, last.value)
  }

  /** The position of the first write of `key`, or the number of writes. */
  function FirstIndex(writes: seq<KeyValue>, key: string): (n: nat)
    ensures n <= |writes|
    ensures n < |writes| ==> writes[n].key == key
    ensures forall i :: 0 <= i < n ==> writes[i].key != key
  {
    if writes == [] || writes[0].key == key then 0 else 1 + FirstIndex(writes[1..], key)
  }

  /** `n` is the position of the last write of `key`. */
  predicate LastWrite(writes: seq<KeyValue>, key: string, n: int) {
    0 <= n < |writes| && writes[n].key == key && forall i :: n < i < |writes| ==> writes[i].key != key
  }

  /** The entry has a key that is not held back, with the value of its last write. */
  ghost predicate HasLastValue(policy: Policy, writes: seq<KeyValue>, e: KeyValue) {
    !policy.held(e.key) && exists n :: LastWrite(writes, e.key, n) && writes[n].value == e.value
  }

  /** The entries are exactly the keys written and not held back, in the order of their first writes,
      each once and with the value of its last write. */
  ghost predicate IsOrderedMap(policy: Policy, writes: seq<KeyValue>, entries: seq<KeyValue>) {
    && (forall i :: 0 <= i < |entries| ==> HasLastValue(policy, writes, entries[i]))
    && (forall n :: 0 <= n < |writes| && !policy.held(writes[n].key) ==> HasKey(entries, writes[n].key))
    && (forall i, j :: 0 <= i < j < |entries| ==>
          FirstIndex(writes, entries[i].key) < FirstIndex(writes, entries[j].key))
  }

  lemma FirstIndexGrows(writes: seq<KeyValue>, w: KeyValue, key: string)
    ensures FirstIndex(writes + [w], key) ==
            if FirstIndex(writes, key) < |writes| then FirstIndex(writes, key)
            else if w.key == key then |writes| else |writes| + 1
  {
    var longer := writes + [w];
    assert forall i :: 0 <= i < |writes| ==> longer[i] == writes[i];
    assert longer[|writes|] == w;
    var a, b := FirstIndex(writes, key), FirstIndex(longer, key);
    assert a < |writes| ==> longer[a].key == key;
    assert b < |writes| ==> writes[b].key == key;
  }

  lemma LastWriteGrows(writes: seq<KeyValue>, w: KeyValue, key: string, n: int)
    ensures w.key != key && LastWrite(writes, key, n) ==> LastWrite(writes + [w], key, n)
    ensures LastWrite(writes + [w], w.key, |writes|)
  {
  }

  /** Where an entry of the new map comes from. */
  lemma PutEntry(policy: Policy, writes: seq<KeyValue>, w: KeyValue, entries: seq<KeyValue>, i: nat)
    requires IsOrderedMap(policy, writes, entries) && i < |Put(policy, entries, w.key, w.value)|
    ensures HasLastValue(policy, writes + [w], Put(policy, entries, w.key, w.value)[i])
  {
    var e := Put(policy, entries, w.key, w.value)[i];
    LastWriteGrows(writes, w, w.key, 0);
    if i < |entries| && entries[i].key != w.key {
      var n :| LastWrite(writes, entries[i].key, n) && writes[n].value == entries[i].value;
      LastWriteGrows(writes, w, e.key, n);
      assert (writes + [w])[n] == writes[n];
    } else if i < |entries| {
      assert HasKey(entries, w.key);
      assert (writes + [w])[|writes|] == w;
    } else {
      assert (writes + [w])[|writes|] == w;
    }
  }

  lemma PutCovers(policy: Policy, writes: seq<KeyValue>, w: KeyValue, entries: seq<KeyValue>, n: nat)
    requires IsOrderedMap(policy, writes, entries) && n < |writes + [w]| && !policy.held((writes + [w])[n].key)
    ensures HasKey(Put(policy, entries, w.key, w.value), (writes + [w])[n].key)
  {
    var after := Put(policy, entries, w.key, w.value);
    var key := (writes + [w])[n].key;
    if n < |writes| {
      assert HasKey(entries, writes[n].key);
      var i :| 0 <= i < |entries| && entries[i].key == key;
      assert after[i].key == key;
    } else if !HasKey(entries, w.key) {
      assert after[|entries|].key == key;
    } else {
      var i :| 0 <= i < |entries| && entries[i].key == key;
      assert after[i].key == key;
    }
  }

  lemma PutOrder(policy: Policy, writes: seq<KeyValue>, w: KeyValue, entries: seq<KeyValue>, i: nat, j: nat)
    requires IsOrderedMap(policy, writes, entries) && i < j < |Put(policy, entries, w.key, w.value)|
    ensures var after := Put(policy, entries, w.key, w.value);
            FirstIndex(writes + [w], after[i].key) < FirstIndex(writes + [w], after[j].key)
  {
    var after := Put(policy, entries, w.key, w.value);
    assert after[i].key == entries[i].key;
    FirstIndexGrows(writes, w, after[i].key);
    FirstIndexGrows(writes, w, after[j].key);
    var n :| LastWrite(writes, entries[i].key, n) && writes[n].value == entries[i].value;
    assert FirstIndex(writes, entries[i].key) < |writes|;
    if j < |entries| {
      var m :| LastWrite(writes, entries[j].key, m) && writes[m].value == entries[j].value;
      assert after[j].key == entries[j].key;
    } else {
      NotYetWritten(policy, writes, w, entries);
    }
  }

  lemma NotYetWritten(policy: Policy, writes: seq<KeyValue>, w: KeyValue, entries: seq<KeyValue>)
    requires IsOrderedMap(policy, writes, entries) && !HasKey(entries, w.key) && !policy.held(w.key)
    ensures FirstIndex(writes, w.key) == |writes|
  {
  }

  lemma NothingWritten(policy: Policy)
    ensures IsOrderedMap(policy, [], [])
  {
  }

  /** Over any sequence of writes, the entries are the insertion-ordered map of the writes. */
  lemma {:induction false} WritesMakeOrderedMap(policy: Policy, writes: seq<KeyValue>)
    ensures IsOrderedMap(policy, writes, PutAll(policy, writes))
  {
    if writes == [] {
      NothingWritten(policy);
      assert PutAll(policy, writes) == [];
    } else {
      hide PutAll, IsOrderedMap;
      var before, w := writes[..|writes| - 1], writes[|writes| - 1];
      WritesMakeOrderedMap(policy, before);
      assert writes == before + [w];
      PutAllGrows(policy, before, w);
      PutKeepsOrderedMap(policy, before, w, PutAll(policy, before));
    }
  }

  lemma PutKeepsOrderedMap(policy: Policy, writes: seq<KeyValue>, w: KeyValue, entries: seq<KeyValue>)
    requires IsOrderedMap(policy, writes, entries)
    ensures IsOrderedMap(policy, writes + [w], Put(policy, entries, w.key, w.value))
  {
    hide Put, FirstIndex, HasLastValue, HasKey;
    var longer, after := writes + [w], Put(policy, entries, w.key, w.value);
    forall i | 0 <= i < |after| ensures HasLastValue(policy, longer, after[i]) {
      PutEntry(policy, writes, w, entries, i);
    }
    forall n | 0 <= n < |longer| && !policy.held(longer[n].key) ensures HasKey(after, longer[n].key) {
      PutCovers(policy, writes, w, entries, n);
    }
    forall i, j | 0 <= i < j < |after|
      ensures FirstIndex(longer, after[i].key) < FirstIndex(longer, after[j].key)
    {
      PutOrder(policy, writes, w, entries, i, j);
    }
  }

  // ---------- the object ----------

  /** `index` is the inverse of `keys`; so no key comes twice. */
  ghost predicate Indexed(keys: seq<string>, index: map<string, nat>) {
    && (forall i :: 0 <= i < |keys| ==> keys[i] in index && index[keys[i]] == i)
    && (forall k :: k in index ==> index[k] < |keys| && keys[index[k]] == k)
  }

  function EntriesOf(keys: seq<string>, values: seq<AnyValue>): (r: seq<KeyValue>)
    requires |keys| == |values|
    ensures |r| == |keys|
    ensures forall i :: 0 <= i < |r| ==> r[i] == KeyValue(keys[i], values[i])
  {
    seq(|keys|, i requires 0 <= i < |keys| && |keys| == |values| => KeyValue(keys[i], values[i]))
  }

  lemma UpdatePuts(policy: Policy, keys: seq<string>, values: seq<AnyValue>, index: map<string, nat>,
      key: string, v: AnyValue)
    requires Indexed(keys, index) && |keys| == |values| && key in index && !policy.held(key)
    ensures EntriesOf(keys, values[index[key] := v]) == Put(policy, EntriesOf(keys, values), key, v)
  {
    var entries := EntriesOf(keys, values);
    assert entries[index[key]].key == key;
    assert HasKey(entries, key);
  }

  lemma AppendPuts(policy: Policy, keys: seq<string>, values: seq<AnyValue>, index: map<string, nat>,
      key: string, v: AnyValue)
    requires Indexed(keys, index) && |keys| == |values| && key !in index && !policy.held(key)
    ensures Indexed(keys + [key], index[key := |keys|])
    ensures EntriesOf(keys + [key], values + [v]) == Put(policy, EntriesOf(keys, values), key, v)
  {
    assert !HasKey(EntriesOf(keys, values), key);
  }

  lemma PutAllGrows(policy: Policy, writes: seq<KeyValue>, w: KeyValue)
    ensures PutAll(policy, writes + [w]) == Put(policy, PutAll(policy, writes), w.key, w.value)
  {
    assert (writes + [w])[..|writes|] == writes;
  }

  /** With the SDK's policy no write whatever puts a sensitive key into a span, and every other key written is there. */
  lemma SdkHoldsBack(redactURL: string -> string, writes: seq<KeyValue>, key: string)
    ensures HasKey(PutAll(SdkPolicy(redactURL), writes), key) <==> HasKey(writes, key) && !IsSensitive(key)
  {
    var policy := SdkPolicy(redactURL);
    var entries := PutAll(policy, writes);
    WritesMakeOrderedMap(policy, writes);
    hide PutAll, IsSensitive, FirstIndex;
    if HasKey(writes, key) && !IsSensitive(key) {
      var n :| 0 <= n < |writes| && writes[n].key == key;
      assert HasKey(entries, writes[n].key);
    }
    if HasKey(entries, key) {
      var i :| 0 <= i < |entries| && entries[i].key == key;
      assert HasLastValue(policy, writes, entries[i]);
      var n :| LastWrite(writes, entries[i].key, n) && writes[n].value == entries[i].value;
    }
  }

  class Span {
    const traceID: string
    const spanID: string
    const parentSpanID: string
    const kind: int
    const start: int
    const policy: Policy
    var name: string
    var end: int
    var keys: seq<string>
    var values: seq<AnyValue>
    var index: map<string, nat>
    var statusCode: int
    var links: seq<SpanLink>
    ghost var writes: seq<KeyValue>   // every attribute write so far

    /** The three structures agree, and hold what the writes so far make of them. */
    ghost predicate Valid()
      reads `keys, `values, `index, `writes
    {
      && Indexed(keys, index) && |keys| == |values|
      && (forall i :: 0 <= i < |keys| ==> !policy.held(keys[i]))
      && EntriesOf(keys, values) == PutAll(policy, writes)
    }

    /** The attributes, in order. */
    function Entries(): seq<KeyValue>
      reads `keys, `values
      requires |keys| == |values|
    {
      EntriesOf(keys, values)
    }

    constructor (traceID: string, spanID: string, parentSpanID: string, name: string, kind: int, start: int, end: int,
                 policy: Policy)
      ensures Valid() && writes == [] && Entries() == [] && links == [] && statusCode == 0
      ensures this.traceID == traceID && this.spanID == spanID && this.parentSpanID == parentSpanID
      ensures this.name == name && this.kind == kind && this.start == start && this.end == end
      ensures this.policy == policy
    {
      this.traceID, this.spanID, this.parentSpanID := traceID, spanID, parentSpanID;
      this.name, this.kind, this.start, this.end := name, kind, start, end;
      this.policy := policy;
      keys, values, index := [], [], map[];
      statusCode, links, writes := STATUS_UNSET, [], [];
    }

    method SetAttr(key: string, v: AnyValue)
      requires Valid()
      modifies `keys, `values, `index, `writes
      ensures Valid() && Entries() == Put(policy, old(Entries()), key, v)
      ensures writes == old(writes) + [KeyValue(key, v)]
    {
      PutAllGrows(policy, writes, KeyValue(key, v));
      writes := writes + [KeyValue(key, v)];
      if policy.held(key) {
        return;
      }
      if key in index {
        UpdatePuts(policy, keys, values, index, key, v);
        values := values[index[key] := v];
        return;
      }
      AppendPuts(policy, keys, values, index, key, v);
      index := index[key := |keys|];
      keys := keys + [key];
      values := values + [v];
    }

    method SetString(key: string, value: string)
      requires Valid()
      modifies `keys, `values, `index, `writes
      ensures Valid()
      ensures writes == old(writes)
                + [KeyValue(key, StringValue(if ToLower(key) == "url.full" then policy.redactURL(value) else value))]
    {
      var v := value;
      if ToLower(key) == URL_FULL {
        v := policy.redactURL(v);
      }
      SetAttr(key, StringValue(v));
    }

    method SetInt(key: string, value: int)
      requires Valid()
      modifies `keys, `values, `index, `writes
      ensures Valid() && writes == old(writes) + [KeyValue(key, IntValue(value))]
    {
      SetAttr(key, IntValue(value));
    }

    method SetDouble(key: string, value: real)
      requires Valid()
      modifies `keys, `values, `index, `writes
      ensures Valid() && writes == old(writes) + [KeyValue(key, DoubleValue(value))]
    {
      SetAttr(key, DoubleValue(value));
    }

    method SetBool(key: string, value: bool)
      requires Valid()
      modifies `keys, `values, `index, `writes
      ensures Valid() && writes == old(writes) + [KeyValue(key, BoolValue(value))]
    {
      SetAttr(key, BoolValue(value));
    }

    method SetStatus(code: int)
      modifies `statusCode
      ensures statusCode == code
    {
      statusCode := code;
    }

    method SetEnd(end: int)
      modifies `end
      ensures this.end == end
    {
      this.end := end;
    }

    method AddLink(traceID: string, spanID: string, kind: string)
      modifies `links
      ensures links == old(links) + [SpanLink(traceID, spanID, kind)]
    {
      links := links + [SpanLink(traceID, spanID, kind)];
    }

    /** DurationNs, in int64. */
    function DurationNs(): int
      reads `end
    {
      if Wrap64(end - start) < 0 then 0 else Wrap64(end - start)
    }

    /** The wire form of the span. */
    function Data(): SpanData
      reads this
      requires |keys| == |values|
    {
      SpanData(traceID, spanID, parentSpanID, name, kind, start, end, Entries(), links,
               if statusCode == STATUS_UNSET then None else Some(statusCode))
    }

    /** At any time the three structures are the insertion-ordered map of the writes made so far. */
    lemma EntriesAreOrderedMap()
      requires Valid()
      ensures IsOrderedMap(policy, writes, Entries())
    {
      WritesMakeOrderedMap(policy, writes);
    }

    /** toData copies the attributes in their order, one by one. */
    method ToData() returns (d: SpanData)
      requires Valid()
      ensures d == Data()
      ensures d.traceID == traceID && d.spanID == spanID && d.parentSpanID == parentSpanID
      ensures d.name == name && d.kind == kind && d.start == start && d.end == end && d.links == links
      ensures |d.attributes| == |keys|
      ensures forall i :: 0 <= i < |keys| ==> d.attributes[i].key == keys[i] && d.attributes[i].value == values[i]
      ensures d.status.None? <==> statusCode == 0
      ensures d.status.Some? ==> d.status.value == statusCode
    {
      var attributes: seq<KeyValue> := [];
      for i := 0 to |keys|
        invariant |attributes| == i
        invariant forall j :: 0 <= j < i ==> attributes[j] == KeyValue(keys[j], values[j])
      {
        attributes := attributes + [KeyValue(keys[i], values[i])];
      }
      assert attributes == Entries();
      d := SpanData(traceID, spanID, parentSpanID, name, kind, start, end, attributes, links,
                    if statusCode == STATUS_UNSET then None else Some(statusCode));
    }
  }
}
