/**
 The references in written JSON: the oids that a record leads to are those of the persistent objects that
 its state, or a plain object reached from it, refers to.
 */
module References {
  import opened Common
  import opened Values
  import opened Writer
  import opened Isomorphism
  import Commit
  import CompletedCommits
  import ObjectStore

  /** Is there a reference to the oid somewhere in the JSON? */
  ghost predicate Cites(j: Json, oid: string)
    decreases j
  {
    match j
    case JList(elements) => exists i :: 0 <= i < |elements| && Cites(elements[i], oid)
    case JDict(members) =>
      || (OID in members && REFERENCE in members && members[OID] == JStr(oid))
      || exists k :: k in members && Cites(members[k], oid)
    case _ => false
  }

  /** Does a value refer to the persistent object, without going through a plain object? */
  ghost predicate RefersTo(v: Value, oid: string)
    decreases v
  {
    match v
    case List(items) => exists i :: 0 <= i < |items| && RefersTo(items[i], oid)
    case Set(items) => exists i :: 0 <= i < |items| && RefersTo(items[i], oid)
    case FrozenSet(items) => exists i :: 0 <= i < |items| && RefersTo(items[i], oid)
    case Tuple(items) => exists i :: 0 <= i < |items| && RefersTo(items[i], oid)
    case Dict(entries) => exists k :: k in entries && RefersTo(entries[k], oid)
    case Persisted(o, _) => o == oid
    case _ => false
  }

  /** No dictionary has the key that marks a reference. */
  ghost predicate Unmarked(v: Value)
    decreases v
  {
    match v
    case List(items) => forall i :: 0 <= i < |items| ==> Unmarked(items[i])
    case Set(items) => forall i :: 0 <= i < |items| ==> Unmarked(items[i])
    case FrozenSet(items) => forall i :: 0 <= i < |items| ==> Unmarked(items[i])
    case Tuple(items) => forall i :: 0 <= i < |items| ==> Unmarked(items[i])
    case Dict(entries) => OID !in entries && forall k :: k in entries ==> Unmarked(entries[k])
    case _ => true
  }

  function StateOf(heap: Heap, a: Addr): Value
    requires a in heap
  {
    Dict(Kept(heap[a].attributes))
  }

  ghost predicate UnmarkedHeap(heap: Heap) {
    forall a :: a in heap ==> Unmarked(StateOf(heap, a))
  }

  /** Does a plain object first met between `s0` and `s1` refer to it? */
  ghost predicate CitedSince(heap: Heap, s0: seq<Addr>, s1: seq<Addr>, oid: string) {
    exists k :: |s0| <= k < |s1| && s1[k] in heap && RefersTo(StateOf(heap, s1[k]), oid)
  }

  lemma CitedSinceJoins(heap: Heap, s0: seq<Addr>, s1: seq<Addr>, s2: seq<Addr>, oid: string)
    requires s0 <= s1 <= s2
    ensures CitedSince(heap, s0, s2, oid) <==> CitedSince(heap, s0, s1, oid) || CitedSince(heap, s1, s2, oid)
  {
    assert forall k :: 0 <= k < |s1| ==> s2[k] == s1[k];
  }

  lemma TaggedCites(typeName: string, j: Json, oid: string)
    ensures Cites(Tagged(typeName, j), oid) <==> Cites(j, oid)
  {
    MarkersAreDistinct();
    var members := map[TYPE := JStr(typeName), VALUE := j];
    assert members[VALUE] == j && OID !in members;
    assert !Cites(members[TYPE], oid);
  }

  lemma ReferenceCites(cls: string, o: string, oid: string)
    ensures Cites(JDict(map[TYPE := JStr(cls), OID := JStr(o), REFERENCE := JScalar(Bool(true))]), oid) <==> o == oid
  {
    MarkersAreDistinct();
    var members := map[TYPE := JStr(cls), OID := JStr(o), REFERENCE := JScalar(Bool(true))];
    assert members[OID] == JStr(o);
    assert forall k :: k in members ==> !Cites(members[k], oid);
  }

  /** The JSON written for a value cites what the value refers to, and what the plain objects first met in it refer to. */
  lemma {:induction false} WrittenCites(heap: Heap, v: Value, s0: seq<Addr>, oid: string)
    requires UnmarkedHeap(heap) && Unmarked(v)
    ensures var w := Write(heap, v, s0);
            Cites(w.json, oid) <==> RefersTo(v, oid) || CitedSince(heap, s0, w.slots, oid)
    decreases |Unmet(heap, s0)|, v, 1
  {
    if v.List? || v.Set? || v.FrozenSet? || v.Tuple? {
      CollectionCites(heap, v, s0, oid);
    } else if v.Dict? {
      DictCites(heap, v, s0, oid);
    } else if v.Obj? {
      if v.addr in heap && v.addr !in s0 {
        ObjectCites(heap, v.addr, s0, oid);
      } else {
        if v.addr in s0 {
          TaggedCites(REFERENCE_TYPE, JScalar(Int(Slot(s0, v.addr))), oid);
        }
      }
    } else {
      LeafCites(heap, v, s0, oid);
    }
  }

  lemma LeafCites(heap: Heap, v: Value, s0: seq<Addr>, oid: string)
    requires v.Nothing? || v.Plain? || v.DateTime? || v.TypeName? || v.FunctionName? || v.Persisted?
    ensures Cites(Write(heap, v, s0).json, oid) <==> RefersTo(v, oid)
  {
    match v
    case DateTime(iso) => TaggedCites(DATETIME_CLASS, JStr(iso), oid);
    case TypeName(name) => TaggedCites(TYPE_TYPE, JStr(name), oid);
    case FunctionName(name) => TaggedCites(FUNCTION_TYPE, JStr(name), oid);
    case Persisted(o, cls) => ReferenceCites(cls, o, oid);
    case _ =>
  }

  lemma {:induction false} CollectionCites(heap: Heap, v: Value, s0: seq<Addr>, oid: string)
    requires v.List? || v.Set? || v.FrozenSet? || v.Tuple?
    requires UnmarkedHeap(heap) && Unmarked(v)
    ensures var w := Write(heap, v, s0);
            Cites(w.json, oid) <==> RefersTo(v, oid) || CitedSince(heap, s0, w.slots, oid)
    decreases |Unmet(heap, s0)|, v, 0
  {
    var w := WriteAll(heap, v.items, s0);
    ItemsCite(heap, v.items, s0, oid);
    TaggedCites(SET_TYPE, JList(w.elements), oid);
    TaggedCites(FROZEN_SET_TYPE, JList(w.elements), oid);
    TaggedCites(TUPLE_CLASS, JList(w.elements), oid);
  }

  ghost predicate ElementsCite(elements: seq<Json>, oid: string) {
    exists i :: 0 <= i < |elements| && Cites(elements[i], oid)
  }

  ghost predicate ItemsRefer(items: seq<Value>, oid: string) {
    exists i :: 0 <= i < |items| && RefersTo(items[i], oid)
  }

  lemma {:induction false} ItemsCite(heap: Heap, items: seq<Value>, s0: seq<Addr>, oid: string)
    requires UnmarkedHeap(heap) && forall i :: 0 <= i < |items| ==> Unmarked(items[i])
    ensures var w := WriteAll(heap, items, s0);
            ElementsCite(w.elements, oid) <==> ItemsRefer(items, oid) || CitedSince(heap, s0, w.slots, oid)
    decreases |Unmet(heap, s0)|, items
  {
    if items != [] {
      var w1 := Write(heap, items[0], s0);
      WrittenCites(heap, items[0], s0, oid);
      PrefixGrows(heap, s0, w1.slots);
      var w2 := WriteAll(heap, items[1..], w1.slots);
      ItemsCite(heap, items[1..], w1.slots, oid);
      CitedSinceJoins(heap, s0, w1.slots, w2.slots, oid);
      FirstItemRefers(items, oid);
      AddedElement(w1.json, w2.elements, oid);
    }
  }

  lemma FirstItemRefers(items: seq<Value>, oid: string)
    requires items != []
    ensures ItemsRefer(items, oid) <==> RefersTo(items[0], oid) || ItemsRefer(items[1..], oid)
  {
    assert forall i :: 0 < i < |items| ==> items[i] == items[1..][i - 1];
  }

  lemma AddedElement(j: Json, elements: seq<Json>, oid: string)
    ensures ElementsCite([j] + elements, oid) <==> Cites(j, oid) || ElementsCite(elements, oid)
  {
    assert forall i :: 0 <= i < |elements| ==> ([j] + elements)[i + 1] == elements[i];
    assert ([j] + elements)[0] == j;
  }

  ghost predicate MembersCite(members: map<string, Json>, oid: string) {
    exists k :: k in members && Cites(members[k], oid)
  }

  ghost predicate KeysRefer(v: Value, keys: seq<string>, oid: string)
    requires v.Dict? && forall k :: k in keys ==> k in v.entries
  {
    exists k :: k in keys && RefersTo(v.entries[k], oid)
  }

  lemma {:induction false} DictCites(heap: Heap, v: Value, s0: seq<Addr>, oid: string)
    requires v.Dict? && UnmarkedHeap(heap) && Unmarked(v)
    ensures var w := Write(heap, v, s0);
            Cites(w.json, oid) <==> RefersTo(v, oid) || CitedSince(heap, s0, w.slots, oid)
    decreases |Unmet(heap, s0)|, v, 0
  {
    var keys := Sorted(v.entries.Keys);
    EntriesCite(heap, v, keys, s0, oid);
    PlainDictCites(WriteEntries(heap, v, keys, s0).members, oid);
    AllKeysRefer(v, keys, oid);
  }

  lemma PlainDictCites(members: map<string, Json>, oid: string)
    requires OID !in members
    ensures Cites(JDict(members), oid) <==> MembersCite(members, oid)
  {
  }

  lemma AllKeysRefer(v: Value, keys: seq<string>, oid: string)
    requires v.Dict? && forall k :: k in keys <==> k in v.entries
    ensures RefersTo(v, oid) <==> KeysRefer(v, keys, oid)
  {
  }

  lemma {:induction false} EntriesCite(heap: Heap, v: Value, keys: seq<string>, s0: seq<Addr>, oid: string)
    requires v.Dict? && UnmarkedHeap(heap) && Unmarked(v)
    requires NoDuplicates(keys) && forall k :: k in keys ==> k in v.entries
    ensures var w := WriteEntries(heap, v, keys, s0);
            MembersCite(w.members, oid) <==> KeysRefer(v, keys, oid) || CitedSince(heap, s0, w.slots, oid)
    decreases |Unmet(heap, s0)|, v, 0, |keys|
  {
    if keys != [] {
      var key := keys[0];
      var w1 := Write(heap, v.entries[key], s0);
      WrittenCites(heap, v.entries[key], s0, oid);
      PrefixGrows(heap, s0, w1.slots);
      var w2 := WriteEntries(heap, v, keys[1..], w1.slots);
      EntriesCite(heap, v, keys[1..], w1.slots, oid);
      CitedSinceJoins(heap, s0, w1.slots, w2.slots, oid);
      FirstKeyRefers(v, keys, oid);
      AddedMember(key, w1.json, w2.members, oid);
    }
  }

  lemma FirstKeyRefers(v: Value, keys: seq<string>, oid: string)
    requires v.Dict? && keys != [] && NoDuplicates(keys) && forall k :: k in keys ==> k in v.entries
    ensures keys[0] !in keys[1..]
    ensures KeysRefer(v, keys, oid) <==> RefersTo(v.entries[keys[0]], oid) || KeysRefer(v, keys[1..], oid)
  {
    assert forall k :: k in keys <==> k == keys[0] || k in keys[1..];
  }

  lemma AddedMember(key: string, j: Json, members: map<string, Json>, oid: string)
    requires key !in members
    ensures MembersCite(map[key := j] + members, oid) <==> Cites(j, oid) || MembersCite(members, oid)
  {
    var all := map[key := j] + members;
    assert all[key] == j && forall k :: k in members ==> all[k] == members[k];
  }

  lemma {:induction false} ObjectCites(heap: Heap, a: Addr, s0: seq<Addr>, oid: string)
    requires UnmarkedHeap(heap) && a in heap && a !in s0
    ensures var w := Write(heap, Obj(a), s0);
            Cites(w.json, oid) <==> CitedSince(heap, s0, w.slots, oid)
    decreases |Unmet(heap, s0)|, Obj(a), 0
  {
    WriteNewObject(heap, a, s0);
    var w := Write(heap, StateOf(heap, a), s0 + [a]);
    WrittenCites(heap, StateOf(heap, a), s0 + [a], oid);
    TaggedCites(heap[a].cls, w.json, oid);
    CitedSinceJoins(heap, s0, s0 + [a], w.slots, oid);
    assert (s0 + [a])[|s0|] == a;
  }

  /** A record cites exactly what its state and the plain objects reachable from it refer to. */
  lemma RecordCitesTheReachable(heap: Heap, state: Value, reachable: set<Addr>, oid: string)
    requires Grounded(heap) && MentionsOnly(state, heap.Keys)
    requires UnmarkedHeap(heap) && Unmarked(state)
    requires IsReachableFrom(heap, state, reachable)
    ensures Cites(Write(heap, state, []).json, oid) <==>
            RefersTo(state, oid) || exists a :: a in reachable && RefersTo(StateOf(heap, a), oid)
  {
    var slots := Write(heap, state, []).slots;
    WrittenCites(heap, state, [], oid);
    WritesExactlyTheReachable(heap, state);
    assert reachable == Elements(slots);
    if a :| a in reachable && RefersTo(StateOf(heap, a), oid) {
      var k :| 0 <= k < |slots| && slots[k] == a;
      assert CitedSince(heap, [], slots, oid);
    }
  }

  // ---------- The object store's links ----------

  /** The persistent objects that the object's state has references to, by their oids as text. */
  ghost predicate HasReference(s: ObjectStore.Db, r: ObjectStore.Ref, name: ObjectStore.Oid -> string, oid: string)
    requires r < |s.objects|
  {
    exists c :: c in s.objects[r].state.refs && c < |s.objects| && name(ObjectStore.KeyOf(s.objects[c])) == oid
  }

  /** In the object store, an object has references to what its state and the plain objects in it refer to. */
  ghost predicate Represents(s: ObjectStore.Db, r: ObjectStore.Ref, name: ObjectStore.Oid -> string,
                             heap: Heap, state: Value, reachable: set<Addr>)
  {
    && r < |s.objects| && reachable <= heap.Keys
    && forall oid :: HasReference(s, r, name, oid) <==>
         RefersTo(state, oid) || exists a :: a in reachable && RefersTo(StateOf(heap, a), oid)
  }

  /** The links of a record in the object store are the references in the JSON that is written. */
  lemma LinksAreCitations(s: ObjectStore.Db, r: ObjectStore.Ref, name: ObjectStore.Oid -> string,
                          heap: Heap, state: Value, reachable: set<Addr>, oid: string)
    requires Grounded(heap) && MentionsOnly(state, heap.Keys)
    requires UnmarkedHeap(heap) && Unmarked(state)
    requires IsReachableFrom(heap, state, reachable) && Represents(s, r, name, heap, state, reachable)
    requires ObjectStore.WellFormed(s)
    ensures Cites(Write(heap, state, []).json, oid) <==>
            exists link :: link in Commit.RecordOf(s, r).links && name(link.oid) == oid
  {
    var refs := s.objects[r].state.refs;
    RecordCitesTheReachable(heap, state, reachable, oid);
    assert Cites(Write(heap, state, []).json, oid) <==> HasReference(s, r, name, oid);
    forall link | link in Commit.RecordOf(s, r).links && name(link.oid) == oid ensures HasReference(s, r, name, oid) {
      Commit.LinksToMembers(s.objects, refs, link);
    }
    if HasReference(s, r, name, oid) {
      var c :| c in refs && c < |s.objects| && name(ObjectStore.KeyOf(s.objects[c])) == oid;
      Commit.LinksToMembers(s.objects, refs, Commit.LinkTo(s.objects, c));
    }
  }

  /** After a commit that completes, what the JSON of any object that was stored refers to has a record. */
  lemma CitationsLeadToRecords(s0: ObjectStore.Db, taken: seq<ObjectStore.Oid>, s: ObjectStore.Db, r: ObjectStore.Ref,
                               name: ObjectStore.Oid -> string, heap: Heap, state: Value, reachable: set<Addr>, oid: string)
    requires CompletedCommits.Completes(s0, taken, s)
    requires CompletedCommits.OthersHaveRecords(s0) && Commit.StoreIsClosed(s0.storage)
    requires CompletedCommits.IsStored(s0, s, r)
    requires Grounded(heap) && MentionsOnly(state, heap.Keys)
    requires UnmarkedHeap(heap) && Unmarked(state)
    requires IsReachableFrom(heap, state, reachable) && Represents(s0, r, name, heap, state, reachable)
    requires Cites(Write(heap, state, []).json, oid)
    ensures exists o :: o in s.storage && name(o) == oid
  {
    LinksAreCitations(s0, r, name, heap, state, reachable, oid);
    var link :| link in Commit.RecordOf(s0, r).links && name(link.oid) == oid;
    CompletedCommits.CommitClosesTheStore(s0, taken, s);
    assert link in s.storage[ObjectStore.KeyOf(s0.objects[r])].links;
  }
}
