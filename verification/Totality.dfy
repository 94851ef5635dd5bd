/** Reading what was written never raises, whatever the reader remembers and whatever ids collide. */
module Totality {
  import opened Common
  import opened Values
  import opened Writer
  import opened Reader
  import opened RoundTrip

  /** As much of a value's shape as the reader checks while it goes. */
  ghost predicate Shaped(v: Value, v': Value) {
    && (Hashable(v) ==> Hashable(v'))
    && (v.Dict? ==> v'.Dict? && (Hashable(IdOf(v.entries)) ==> Hashable(IdOf(v'.entries))))
  }

  /** The JSON is read, with as many objects on the stack as the writer has slots. */
  ghost predicate ReadsWell(registry: Registry, heap: Heap, v: Value, s0: seq<Addr>, st0: State) {
    var w := Write(heap, v, s0);
    var r := Read(registry, w.json, st0, true);
    r.Done? && |r.value.1.stack| == |w.slots| && Shaped(v, r.value.0)
  }

  ghost predicate ItemsReadWell(registry: Registry, heap: Heap, items: seq<Value>, s0: seq<Addr>, st0: State) {
    var w := WriteAll(heap, items, s0);
    var r := ReadAll(registry, w.elements, st0);
    && r.Done? && |r.value.1.stack| == |w.slots|
    && |r.value.0| == |items| && forall i :: 0 <= i < |items| ==> Shaped(items[i], r.value.0[i])
  }

  ghost predicate EntriesReadWell(registry: Registry, heap: Heap, v: Value, keys: seq<string>, j: Json, s0: seq<Addr>, st0: State)
    requires v.Dict? && forall k :: k in keys ==> k in v.entries
    requires j.JDict? && forall k :: k in keys ==> k in j.members
  {
    var w := WriteEntries(heap, v, keys, s0);
    var r := ReadEntries(registry, j, keys, st0);
    && r.Done? && |r.value.1.stack| == |w.slots|
    && forall k :: k in keys ==> Shaped(v.entries[k], r.value.0[k])
  }

  /** The members are those written for these keys, and they are supported. */
  ghost predicate EntriesWritten(registry: Registry, classOf: ClassOf, heap: Heap, v: Value, keys: seq<string>, j: Json, s0: seq<Addr>) {
    && v.Dict? && NoDuplicates(keys)
    && (forall k :: k in keys ==>
          k in v.entries && Supported(registry, classOf, v.entries[k]) && MentionsOnly(v.entries[k], heap.Keys))
    && j.JDict? && forall k :: k in keys ==> k in j.members && j.members[k] == WriteEntries(heap, v, keys, s0).members[k]
  }

  /** What is written for a supported value is read without raising. */
  lemma {:induction false} ReadingNeverRaises(registry: Registry, classOf: ClassOf, heap: Heap, v: Value, s0: seq<Addr>, st0: State)
    requires SupportedGraph(registry, classOf, heap)
    requires Supported(registry, classOf, v) && MentionsOnly(v, heap.Keys) && |s0| == |st0.stack|
    ensures ReadsWell(registry, heap, v, s0, st0)
    decreases |Unmet(heap, s0)|, v, 1
  {
    if v.List? || v.Set? || v.FrozenSet? || v.Tuple? {
      CollectionReadsWell(registry, classOf, heap, v, s0, st0);
    } else if v.Dict? {
      DictReadsWell(registry, classOf, heap, v, s0, st0);
    } else if v.Obj? && v.addr !in s0 {
      assert Mentions(v, v.addr);
      ObjectReadsWell(registry, classOf, heap, v.addr, s0, st0);
    } else {
      LeafReadsWell(registry, classOf, heap, v, s0, st0);
    }
  }

  lemma {:induction false} LeafReadsWell(registry: Registry, classOf: ClassOf, heap: Heap, v: Value, s0: seq<Addr>, st0: State)
    requires SupportedGraph(registry, classOf, heap) && Supported(registry, classOf, v) && |s0| == |st0.stack|
    requires v.Nothing? || v.Plain? || v.DateTime? || v.TypeName? || v.FunctionName? || v.Persisted? || (v.Obj? && v.addr in s0)
    ensures ReadsWell(registry, heap, v, s0, st0)
  {
    match v
    case Nothing =>
    case Plain(_) =>
    case DateTime(iso) => ReadTaggedDateTime(registry, iso, st0);
    case TypeName(name) => ReadTaggedName(registry, TYPE_TYPE, name, st0);
    case FunctionName(name) => ReadTaggedName(registry, FUNCTION_TYPE, name, st0);
    case Persisted(oid, cls) => ReadPersistentReference(registry, oid, cls, st0);
    case Obj(a) => ReadTaggedPosition(registry, Slot(s0, a), st0);
  }

  lemma {:induction false} CollectionReadsWell(registry: Registry, classOf: ClassOf, heap: Heap, v: Value, s0: seq<Addr>, st0: State)
    requires v.List? || v.Set? || v.FrozenSet? || v.Tuple?
    requires SupportedGraph(registry, classOf, heap)
    requires Supported(registry, classOf, v) && MentionsOnly(v, heap.Keys) && |s0| == |st0.stack|
    ensures ReadsWell(registry, heap, v, s0, st0)
    decreases |Unmet(heap, s0)|, v, 0
  {
    var items := v.items;
    forall i, a | 0 <= i < |items| && Mentions(items[i], a) ensures a in heap.Keys {
      assert Mentions(v, a);
    }
    ItemsAreReadWell(registry, classOf, heap, items, s0, st0);
    CollectionIsReadWell(registry, heap, v, s0, st0);
  }

  lemma CollectionIsReadWell(registry: Registry, heap: Heap, v: Value, s0: seq<Addr>, st0: State)
    requires v.List? || v.Set? || v.FrozenSet? || v.Tuple?
    requires TUPLE_CLASS in registry && registry[TUPLE_CLASS].TupleClass?
    requires ItemsReadWell(registry, heap, v.items, s0, st0)
    requires v.Set? || v.FrozenSet? ==> forall i :: 0 <= i < |v.items| ==> Hashable(v.items[i])
    ensures ReadsWell(registry, heap, v, s0, st0)
  {
    var w := WriteAll(heap, v.items, s0);
    if v.Set? || v.FrozenSet? {
      ReadTaggedList(registry, if v.Set? then SET_TYPE else FROZEN_SET_TYPE, w.elements, st0);
      MarkersAreDistinct();
    } else if v.Tuple? {
      ReadTaggedTuple(registry, w.elements, st0);
    }
  }

  lemma {:induction false} ItemsAreReadWell(registry: Registry, classOf: ClassOf, heap: Heap, items: seq<Value>, s0: seq<Addr>, st0: State)
    requires SupportedGraph(registry, classOf, heap) && |s0| == |st0.stack|
    requires forall i :: 0 <= i < |items| ==> Supported(registry, classOf, items[i]) && MentionsOnly(items[i], heap.Keys)
    ensures ItemsReadWell(registry, heap, items, s0, st0)
    decreases |Unmet(heap, s0)|, items
  {
    if items != [] {
      var w1 := Write(heap, items[0], s0);
      ReadingNeverRaises(registry, classOf, heap, items[0], s0, st0);
      PrefixGrows(heap, s0, w1.slots);
      ItemsAreReadWell(registry, classOf, heap, items[1..], w1.slots, Read(registry, w1.json, st0, true).value.1);
      ItemsReadWellCons(registry, heap, items, s0, st0);
    }
  }

  lemma {:induction false} ItemsReadWellCons(registry: Registry, heap: Heap, items: seq<Value>, s0: seq<Addr>, st0: State)
    requires items != [] && ReadsWell(registry, heap, items[0], s0, st0)
    requires var w1 := Write(heap, items[0], s0);
             ItemsReadWell(registry, heap, items[1..], w1.slots, Read(registry, w1.json, st0, true).value.1)
    ensures ItemsReadWell(registry, heap, items, s0, st0)
  {
    var w1 := Write(heap, items[0], s0);
    var w2 := WriteAll(heap, items[1..], w1.slots);
    var w := WriteAll(heap, items, s0);
    assert w == WrittenAll([w1.json] + w2.elements, w2.slots);
    assert w.elements[0] == w1.json && w.elements[1..] == w2.elements;
    var (v1, st1) := Read(registry, w1.json, st0, true).value;
    var (rest, st2) := ReadAll(registry, w2.elements, st1).value;
    assert ReadAll(registry, w.elements, st0) == Done(([v1] + rest, st2));
  }

  lemma {:induction false} DictReadsWell(registry: Registry, classOf: ClassOf, heap: Heap, v: Value, s0: seq<Addr>, st0: State)
    requires v.Dict? && SupportedGraph(registry, classOf, heap)
    requires Supported(registry, classOf, v) && MentionsOnly(v, heap.Keys) && |s0| == |st0.stack|
    ensures ReadsWell(registry, heap, v, s0, st0)
    decreases |Unmet(heap, s0)|, v, 0
  {
    var keys := Sorted(v.entries.Keys);
    EntriesMentionOnly(v, heap.Keys);
    var w := WriteEntries(heap, v, keys, s0);
    assert w.members.Keys == v.entries.Keys;
    EntriesAreReadWell(registry, classOf, heap, v, keys, JDict(w.members), s0, st0);
    DictIsReadWell(registry, heap, v, s0, st0);
  }

  lemma DictIsWritten(heap: Heap, v: Value, s0: seq<Addr>)
    requires v.Dict?
    ensures var w := WriteEntries(heap, v, Sorted(v.entries.Keys), s0);
            Write(heap, v, s0) == Written(JDict(w.members), w.slots) && w.members.Keys == v.entries.Keys
  {
  }

  lemma DictIsRead(registry: Registry, members: map<string, Json>, keys: seq<string>, st0: State)
    requires TYPE !in members && OID !in members && keys == Sorted(members.Keys)
    requires ReadEntries(registry, JDict(members), keys, st0).Done?
    ensures var (entries, st1) := ReadEntries(registry, JDict(members), keys, st0).value;
            Read(registry, JDict(members), st0, true) == Done((Dict(entries), st1)) && entries.Keys == members.Keys
  {
    ReadPlainDict(registry, members, st0);
  }

  lemma DictIsReadWell(registry: Registry, heap: Heap, v: Value, s0: seq<Addr>, st0: State)
    requires v.Dict? && TYPE !in v.entries && OID !in v.entries
    requires var keys := Sorted(v.entries.Keys);
             EntriesReadWell(registry, heap, v, keys, JDict(WriteEntries(heap, v, keys, s0).members), s0, st0)
    ensures ReadsWell(registry, heap, v, s0, st0)
  {
    var keys := Sorted(v.entries.Keys);
    var w := WriteEntries(heap, v, keys, s0);
    DictIsWritten(heap, v, s0);
    assert TYPE !in w.members.Keys && OID !in w.members.Keys;
    DictIsRead(registry, w.members, keys, st0);
    EntriesAreShaped(v, keys, ReadEntries(registry, JDict(w.members), keys, st0).value.0);
  }

  lemma EntriesAreShaped(v: Value, keys: seq<string>, entries: map<string, Value>)
    requires v.Dict? && (forall k :: k in keys <==> k in v.entries) && entries.Keys == v.entries.Keys
    requires forall k :: k in keys ==> Shaped(v.entries[k], entries[k])
    ensures Shaped(v, Dict(entries))
  {
    IdKeepsShape(v.entries, entries);
  }

  lemma IdKeepsShape(entries: map<string, Value>, entries': map<string, Value>)
    requires entries'.Keys == entries.Keys && forall k :: k in entries ==> Shaped(entries[k], entries'[k])
    ensures Shaped(Dict(entries), Dict(entries'))
  {
    if "id" in entries {
      assert "id" in entries'.Keys && Shaped(entries["id"], entries'["id"]);
    } else {
      assert "id" !in entries'.Keys;
    }
  }

  lemma {:induction false} EntriesAreReadWell(registry: Registry, classOf: ClassOf, heap: Heap, v: Value, keys: seq<string>, j: Json,
                                              s0: seq<Addr>, st0: State)
    requires SupportedGraph(registry, classOf, heap) && |s0| == |st0.stack|
    requires EntriesWritten(registry, classOf, heap, v, keys, j, s0)
    ensures EntriesReadWell(registry, heap, v, keys, j, s0, st0)
    decreases |Unmet(heap, s0)|, v, 0, |keys|
  {
    if keys != [] {
      var w1 := Write(heap, v.entries[keys[0]], s0);
      SplitEntries(heap, v, keys, j, s0);
      RestOfKeys(keys);
      ReadingNeverRaises(registry, classOf, heap, v.entries[keys[0]], s0, st0);
      PrefixGrows(heap, s0, w1.slots);
      EntriesAreReadWell(registry, classOf, heap, v, keys[1..], j, w1.slots, Read(registry, w1.json, st0, true).value.1);
      EntriesReadWellCons(registry, heap, v, keys, j, s0, st0);
    }
  }

  lemma {:induction false} EntriesReadWellCons(registry: Registry, heap: Heap, v: Value, keys: seq<string>, j: Json,
                                               s0: seq<Addr>, st0: State)
    requires keys != [] && NoDuplicates(keys) && v.Dict? && forall k :: k in keys ==> k in v.entries
    requires j.JDict? && forall k :: k in keys ==> k in j.members && j.members[k] == WriteEntries(heap, v, keys, s0).members[k]
    requires j.members[keys[0]] == Write(heap, v.entries[keys[0]], s0).json
    requires ReadsWell(registry, heap, v.entries[keys[0]], s0, st0)
    requires EntriesReadWell(registry, heap, v, keys[1..], j,
                             Write(heap, v.entries[keys[0]], s0).slots, Read(registry, j.members[keys[0]], st0, true).value.1)
    ensures EntriesReadWell(registry, heap, v, keys, j, s0, st0)
  {
    SplitEntries(heap, v, keys, j, s0);
    RestOfKeys(keys);
    var (first, st1) := Read(registry, j.members[keys[0]], st0, true).value;
    var (rest, st2) := ReadEntries(registry, j, keys[1..], st1).value;
    assert ReadEntries(registry, j, keys, st0) == Done((map[keys[0] := first] + rest, st2));
    EntriesShapedCons(v, keys, first, rest);
  }

  lemma EntriesShapedCons(v: Value, keys: seq<string>, first: Value, rest: map<string, Value>)
    requires keys != [] && NoDuplicates(keys) && v.Dict? && forall k :: k in keys ==> k in v.entries
    requires Shaped(v.entries[keys[0]], first)
    requires forall k :: k in rest <==> k in keys[1..]
    requires forall k :: k in keys[1..] ==> Shaped(v.entries[k], rest[k])
    ensures forall k :: k in keys ==> Shaped(v.entries[k], (map[keys[0] := first] + rest)[k])
  {
    assert keys[0] !in keys[1..] && forall k :: k in keys ==> k == keys[0] || k in keys[1..];
  }

  lemma {:induction false} ObjectReadsWell(registry: Registry, classOf: ClassOf, heap: Heap, a: Addr, s0: seq<Addr>, st0: State)
    requires SupportedGraph(registry, classOf, heap) && a in heap && a !in s0 && |s0| == |st0.stack|
    ensures ReadsWell(registry, heap, Obj(a), s0, st0)
    decreases |Unmet(heap, s0)|, Obj(a), 0
  {
    var state := Dict(Kept(heap[a].attributes));
    WriteNewObject(heap, a, s0);
    ReadingNeverRaises(registry, classOf, heap, state, s0 + [a], Allocate(st0));
    ObjectIsReadWell(registry, heap, a, s0, st0);
  }

  lemma ObjectIsReadWell(registry: Registry, heap: Heap, a: Addr, s0: seq<Addr>, st0: State)
    requires a in heap && a !in s0 && |s0| == |st0.stack|
    requires !ReservedTypeName(heap[a].cls) && heap[a].cls in registry && registry[heap[a].cls].PlainClass?
    requires Hashable(IdOf(Kept(heap[a].attributes)))
    requires ReadsWell(registry, heap, Dict(Kept(heap[a].attributes)), s0 + [a], Allocate(st0))
    ensures ReadsWell(registry, heap, Obj(a), s0, st0)
  {
    WriteNewObject(heap, a, s0);
    var w := Write(heap, Dict(Kept(heap[a].attributes)), s0 + [a]);
    ReadTaggedObject(registry, heap[a].cls, w.json, st0);
    var (attributes, st1) := Read(registry, w.json, Allocate(st0), true).value;
    FinishKeepsLength(heap[a].cls, registry[heap[a].cls].immutable, attributes, |st0.stack|, |st0.heap|, st1);
  }

  /** An object with a hashable id is finished, and the stack keeps its length. */
  lemma FinishKeepsLength(cls: string, immutable: bool, attributes: Value, index: nat, self: Addr, st: State)
    requires index < |st.stack| && self < |st.heap| && attributes.Dict? && Hashable(IdOf(attributes.entries))
    ensures var r := Finish(cls, immutable, attributes, index, self, st);
            r.Done? && r.value.0.Obj? && |r.value.1.stack| == |st.stack|
  {
  }
}
