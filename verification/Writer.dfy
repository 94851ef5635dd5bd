/** `ObjectWriter`: flattening a value, with its graph of plain objects, to JSON. */
module Writer {
  import opened Common
  import opened Values

  /** JSON for a value, and the plain objects met so far in the order in which they were first met. */
  datatype Written = Written(json: Json, slots: seq<Addr>)
  datatype WrittenAll = WrittenAll(elements: seq<Json>, slots: seq<Addr>)
  datatype WrittenEntries = WrittenEntries(members: map<string, Json>, slots: seq<Addr>)

  function Slot(slots: seq<Addr>, a: Addr): (k: nat)
    requires a in slots
    ensures k < |slots| && slots[k] == a
    ensures forall j :: 0 <= j < k ==> slots[j] != a
  {
    if slots[0] == a then 0 else 1 + Slot(slots[1..], a)
  }

  /** The objects not met yet; writing terminates because this set shrinks at every object. */
  function Unmet(heap: Heap, slots: seq<Addr>): set<Addr> {
    heap.Keys - set a | a in slots
  }

  predicate SlotsGrow(heap: Heap, before: seq<Addr>, after: seq<Addr>) {
    && before <= after
    && Unmet(heap, after) <= Unmet(heap, before)
    && |Unmet(heap, after)| <= |Unmet(heap, before)|
  }

  lemma PrefixGrows(heap: Heap, before: seq<Addr>, after: seq<Addr>)
    requires before <= after
    ensures SlotsGrow(heap, before, after)
  {
    assert forall a :: a in before ==> a in after;
    SubsetCardinality(Unmet(heap, after), Unmet(heap, before));
  }

  lemma MeetingShrinksUnmet(heap: Heap, slots: seq<Addr>, a: Addr)
    requires a in heap && a !in slots
    ensures |Unmet(heap, slots + [a])| < |Unmet(heap, slots)|
  {
    assert Unmet(heap, slots + [a]) == Unmet(heap, slots) - {a};
  }

  /** What the writer emits for `v` when `slots` already have a position in its cache. */
  function Write(heap: Heap, v: Value, slots: seq<Addr>): (w: Written)
    ensures slots <= w.slots
    decreases |Unmet(heap, slots)|, v
  {
    match v
    case Nothing => Written(JNull, slots)
    case Plain(scalar) => Written(JScalar(scalar), slots)
    case List(items) =>
      var w := WriteAll(heap, items, slots);
      Written(JList(w.elements), w.slots)
    case Set(items) =>
      var w := WriteAll(heap, items, slots);
      Written(Tagged(SET_TYPE, JList(w.elements)), w.slots)
    case FrozenSet(items) =>
      var w := WriteAll(heap, items, slots);
      Written(Tagged(FROZEN_SET_TYPE, JList(w.elements)), w.slots)
    case Dict(entries) =>
      var w := WriteEntries(heap, v, Sorted(entries.Keys), slots);
      Written(JDict(w.members), w.slots)
    case Tuple(items) =>
      var w := WriteAll(heap, items, slots);
      Written(Tagged(TUPLE_CLASS, JList(w.elements)), w.slots)
    case DateTime(iso) => Written(Tagged(DATETIME_CLASS, JStr(iso)), slots)
    case TypeName(name) => Written(Tagged(TYPE_TYPE, JStr(name)), slots)
    case FunctionName(name) => Written(Tagged(FUNCTION_TYPE, JStr(name)), slots)
    case Persisted(oid, cls) =>
      Written(JDict(map[TYPE := JStr(cls), OID := JStr(oid), REFERENCE := JScalar(Bool(true))]), slots)
    case Obj(a) =>
      if a in slots then
        Written(Tagged(REFERENCE_TYPE, JScalar(Int(Slot(slots, a)))), slots)
      else if a !in heap then
        Written(JNull, slots)  // there are no dangling references in Python
      else
        MeetingShrinksUnmet(heap, slots, a);
        var w := Write(heap, Dict(Kept(heap[a].attributes)), slots + [a]);
        Written(Tagged(heap[a].cls, w.json), w.slots)
  }

  lemma {:induction false} WriteNewObject(heap: Heap, a: Addr, slots: seq<Addr>)
    requires a in heap && a !in slots
    ensures |Unmet(heap, slots + [a])| < |Unmet(heap, slots)|
    ensures var w := Write(heap, Dict(Kept(heap[a].attributes)), slots + [a]);
            Write(heap, Obj(a), slots) == Written(Tagged(heap[a].cls, w.json), w.slots)
  {
    MeetingShrinksUnmet(heap, slots, a);
  }

  function WriteAll(heap: Heap, items: seq<Value>, slots: seq<Addr>): (w: WrittenAll)
    ensures slots <= w.slots
    ensures |w.elements| == |items|
    decreases |Unmet(heap, slots)|, items
  {
    if items == [] then WrittenAll([], slots) else
      var first := Write(heap, items[0], slots);
      PrefixGrows(heap, slots, first.slots);
      var rest := WriteAll(heap, items[1..], first.slots);
      WrittenAll([first.json] + rest.elements, rest.slots)
  }

  function WriteEntries(heap: Heap, v: Value, keys: seq<string>, slots: seq<Addr>): (w: WrittenEntries)
    requires v.Dict? && forall k :: k in keys ==> k in v.entries
    ensures slots <= w.slots
    ensures w.members.Keys == set k | k in keys
    decreases |Unmet(heap, slots)|, v, |keys|
  {
    if keys == [] then WrittenEntries(map[], slots) else
      var first := Write(heap, v.entries[keys[0]], slots);
      PrefixGrows(heap, slots, first.slots);
      var rest := WriteEntries(heap, v, keys[1..], first.slots);
      WrittenEntries(map[keys[0] := first.json] + rest.members, rest.slots)
  }

  lemma {:induction false} WriteAllCons(heap: Heap, items: seq<Value>, slots: seq<Addr>)
    requires items != []
    ensures var first := Write(heap, items[0], slots);
            var rest := WriteAll(heap, items[1..], first.slots);
            WriteAll(heap, items, slots) == WrittenAll([first.json] + rest.elements, rest.slots)
  {
    PrefixGrows(heap, slots, Write(heap, items[0], slots).slots);
  }

  /** Writing items one after another, seen from the last item. */
  lemma {:induction false} WriteAllSnoc(heap: Heap, items: seq<Value>, last: Value, slots: seq<Addr>)
    ensures var front := WriteAll(heap, items, slots);
            var end := Write(heap, last, front.slots);
            WriteAll(heap, items + [last], slots) == WrittenAll(front.elements + [end.json], end.slots)
    decreases |items|
  {
    var all := items + [last];
    WriteAllCons(heap, all, slots);
    if items == [] {
      assert all[0] == last && all[1..] == [];
    } else {
      var first := Write(heap, items[0], slots);
      var rest := WriteAll(heap, items[1..], first.slots);
      assert all[0] == items[0] && all[1..] == items[1..] + [last];
      WriteAllSnoc(heap, items[1..], last, first.slots);
      WriteAllCons(heap, items, slots);
      ConcatAssociates([first.json], rest.elements, [Write(heap, last, rest.slots).json]);
    }
  }

  lemma {:induction false} WriteEntriesSnoc(heap: Heap, v: Value, keys: seq<string>, last: string, slots: seq<Addr>)
    requires v.Dict? && last in v.entries && forall k :: k in keys ==> k in v.entries
    ensures var front := WriteEntries(heap, v, keys, slots);
            var end := Write(heap, v.entries[last], front.slots);
            WriteEntries(heap, v, keys + [last], slots) == WrittenEntries(front.members[last := end.json], end.slots)
    decreases |keys|
  {
    if keys == [] {
      assert [] + [last] == [last] && [last][1..] == [];
    } else {
      var first := Write(heap, v.entries[keys[0]], slots);
      var rest := WriteEntries(heap, v, keys[1..], first.slots);
      assert (keys + [last])[0] == keys[0] && (keys + [last])[1..] == keys[1..] + [last];
      WriteEntriesSnoc(heap, v, keys[1..], last, first.slots);
      MergeThenUpdate(map[keys[0] := first.json], rest.members, last, Write(heap, v.entries[last], rest.slots).json);
    }
  }

  /** The writer, with its cache from an object's identity to its position. */
  class ObjectWriter {
    var cache: map<Addr, nat>

    /** The cached objects by position. */
    ghost predicate Holds(slots: seq<Addr>)
      reads this
    {
      && NoDuplicates(slots)
      && |cache| == |slots|
      && (forall a :: a in cache <==> a in slots)
      && (forall k :: 0 <= k < |slots| ==> cache[slots[k]] == k)
    }

    constructor ()
      ensures Holds([])
    {
      cache := map[];
    }

    /** Starts over, as `serialize` does, and flattens the state of one record. */
    method Serialize(heap: Heap, state: Value) returns (json: Json, ghost slots: seq<Addr>)
      modifies this
      ensures Written(json, slots) == Write(heap, state, [])
      ensures Holds(slots)
    {
      cache := map[];
      json, slots := SerializeHelper(heap, state, []);
    }

    method SerializeHelper(heap: Heap, v: Value, ghost before: seq<Addr>) returns (json: Json, ghost after: seq<Addr>)
      requires Holds(before)
      modifies this
      ensures Written(json, after) == Write(heap, v, before)
      ensures Holds(after)
      decreases |Unmet(heap, before)|, v, 1
    {
      after := before;
      match v
      case Nothing => json := JNull;
      case Plain(scalar) => json := JScalar(scalar);
      case List(_) =>
        var elements;
        elements, after := SerializeItems(heap, v, before);
        json := JList(elements);
      case Set(_) =>
        var elements;
        elements, after := SerializeItems(heap, v, before);
        json := Tagged(SET_TYPE, JList(elements));
      case FrozenSet(_) =>
        var elements;
        elements, after := SerializeItems(heap, v, before);
        json := Tagged(FROZEN_SET_TYPE, JList(elements));
      case Dict(_) =>
        var members;
        members, after := SerializeEntries(heap, v, before);
        json := JDict(members);
      case Tuple(_) =>
        var elements;
        elements, after := SerializeItems(heap, v, before);
        json := Tagged(TUPLE_CLASS, JList(elements));
      case DateTime(iso) => json := Tagged(DATETIME_CLASS, JStr(iso));
      case TypeName(name) => json := Tagged(TYPE_TYPE, JStr(name));
      case FunctionName(name) => json := Tagged(FUNCTION_TYPE, JStr(name));
      case Persisted(oid, cls) =>
        json := JDict(map[TYPE := JStr(cls), OID := JStr(oid), REFERENCE := JScalar(Bool(true))]);
      case Obj(a) =>
        if a in cache {
          json := Tagged(REFERENCE_TYPE, JScalar(Int(cache[a])));
        } else if a !in heap {
          json := JNull;
        } else {
          MeetingShrinksUnmet(heap, before, a);
          cache := cache[a := |cache|];
          var attributes;
          attributes, after := SerializeHelper(heap, Dict(Kept(heap[a].attributes)), before + [a]);
          json := Tagged(heap[a].cls, attributes);
        }
    }

    method SerializeItems(heap: Heap, v: Value, ghost before: seq<Addr>)
      returns (elements: seq<Json>, ghost after: seq<Addr>)
      requires Holds(before)
      requires v.List? || v.Set? || v.FrozenSet? || v.Tuple?
      modifies this
      ensures WrittenAll(elements, after) == WriteAll(heap, v.items, before)
      ensures Holds(after)
      decreases |Unmet(heap, before)|, v, 0
    {
      var items := v.items;
      elements, after := [], before;
      for i := 0 to |items|
        invariant before <= after
        invariant Holds(after)
        invariant WriteAll(heap, items[..i], before) == WrittenAll(elements, after)
      {
        PrefixGrows(heap, before, after);
        TakeNext(items, i);
        WriteAllSnoc(heap, items[..i], items[i], before);
        var json;
        json, after := SerializeHelper(heap, items[i], after);
        elements := elements + [json];
      }
      assert items[..|items|] == items;
    }

    method SerializeEntries(heap: Heap, v: Value, ghost before: seq<Addr>)
      returns (members: map<string, Json>, ghost after: seq<Addr>)
      requires Holds(before)
      requires v.Dict?
      modifies this
      ensures WrittenEntries(members, after) == WriteEntries(heap, v, Sorted(v.entries.Keys), before)
      ensures Holds(after)
      decreases |Unmet(heap, before)|, v, 0
    {
      var keys := Sorted(v.entries.Keys);
      members, after := map[], before;
      for i := 0 to |keys|
        invariant before <= after
        invariant Holds(after)
        invariant WriteEntries(heap, v, keys[..i], before) == WrittenEntries(members, after)
      {
        PrefixGrows(heap, before, after);
        TakeNext(keys, i);
        WriteEntriesSnoc(heap, v, keys[..i], keys[i], before);
        var member;
        member, after := SerializeHelper(heap, v.entries[keys[i]], after);
        members := members[keys[i] := member];
      }
      assert keys[..|keys|] == keys;
    }
  }
}
