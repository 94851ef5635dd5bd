/** The serializer's main results: which objects are written, and when reading them back is an isomorphism. */
module Isomorphism {
  import opened Common
  import opened Values
  import opened Writer
  import opened Reader
  import opened RoundTrip

  // ---------- The objects written are exactly the reachable ones ----------

  ghost function Elements(s: seq<Addr>): set<Addr> {
    set a | a in s
  }

  /** Everything met between `s0` and `s1` has its own references in `s1`. */
  ghost predicate ClosedSince(heap: Heap, s0: seq<Addr>, s1: seq<Addr>) {
    && s0 <= s1
    && forall k :: |s0| <= k < |s1| ==> s1[k] in heap && MentionsOnly(Dict(Kept(heap[s1[k]].attributes)), Elements(s1))
  }

  lemma MentionsOnlyIsMonotone(v: Value, a: set<Addr>, b: set<Addr>)
    requires MentionsOnly(v, a) && a <= b
    ensures MentionsOnly(v, b)
  {
  }

  lemma ClosedSinceIsTransitive(heap: Heap, s0: seq<Addr>, s1: seq<Addr>, s2: seq<Addr>)
    requires ClosedSince(heap, s0, s1) && ClosedSince(heap, s1, s2)
    ensures ClosedSince(heap, s0, s2)
  {
    assert Elements(s1) <= Elements(s2);
  }

  ghost predicate Grounded(heap: Heap) {
    forall a :: a in heap ==> MentionsOnly(Dict(Kept(heap[a].attributes)), heap.Keys)
  }

  lemma {:induction false} WriteReachesAll(heap: Heap, v: Value, s0: seq<Addr>)
    requires Grounded(heap) && MentionsOnly(v, heap.Keys)
    ensures var s1 := Write(heap, v, s0).slots;
            ClosedSince(heap, s0, s1) && MentionsOnly(v, Elements(s1))
    decreases |Unmet(heap, s0)|, v, 1
  {
    var s1 := Write(heap, v, s0).slots;
    if v.List? || v.Set? || v.FrozenSet? || v.Tuple? {
      WriteReachesItems(heap, v.items, s0);
      assert s1 == WriteAll(heap, v.items, s0).slots;
      forall a | Mentions(v, a) ensures a in Elements(s1) {
        var i :| 0 <= i < |v.items| && Mentions(v.items[i], a);
        assert MentionsOnly(v.items[i], Elements(s1));
      }
    } else if v.Dict? {
      WriteReachesEntries(heap, v, Sorted(v.entries.Keys), s0);
      assert s1 == WriteEntries(heap, v, Sorted(v.entries.Keys), s0).slots;
    } else if v.Obj? {
      WriteReachesObject(heap, v.addr, s0);
    } else {
      assert s1 == s0;
    }
  }

  lemma {:induction false} WriteReachesObject(heap: Heap, a: Addr, s0: seq<Addr>)
    requires Grounded(heap) && a in heap
    ensures var s1 := Write(heap, Obj(a), s0).slots;
            ClosedSince(heap, s0, s1) && a in Elements(s1)
    decreases |Unmet(heap, s0)|, Obj(a), 0
  {
    if a !in s0 {
      WriteNewObject(heap, a, s0);
      var state := Dict(Kept(heap[a].attributes));
      var s1 := Write(heap, state, s0 + [a]).slots;
      WriteReachesAll(heap, state, s0 + [a]);
      LastOfPrefix(s0, a, s1);
    }
  }

  lemma {:induction false} WriteReachesItems(heap: Heap, items: seq<Value>, s0: seq<Addr>)
    requires Grounded(heap) && forall x, a :: x in items && Mentions(x, a) ==> a in heap
    ensures var s1 := WriteAll(heap, items, s0).slots;
            ClosedSince(heap, s0, s1) && forall x :: x in items ==> MentionsOnly(x, Elements(s1))
    decreases |Unmet(heap, s0)|, items
  {
    if items != [] {
      var s1 := Write(heap, items[0], s0).slots;
      WriteReachesAll(heap, items[0], s0);
      PrefixGrows(heap, s0, s1);
      WriteReachesItems(heap, items[1..], s1);
      var s2 := WriteAll(heap, items[1..], s1).slots;
      ClosedSinceIsTransitive(heap, s0, s1, s2);
      MentionsOnlyIsMonotone(items[0], Elements(s1), Elements(s2));
    }
  }

  lemma {:induction false} WriteReachesEntries(heap: Heap, v: Value, keys: seq<string>, s0: seq<Addr>)
    requires Grounded(heap) && v.Dict? && MentionsOnly(v, heap.Keys)
    requires forall k :: k in keys ==> k in v.entries
    ensures var s1 := WriteEntries(heap, v, keys, s0).slots;
            ClosedSince(heap, s0, s1) && forall k :: k in keys ==> MentionsOnly(v.entries[k], Elements(s1))
    decreases |Unmet(heap, s0)|, v, 0, |keys|
  {
    if keys != [] {
      var value := v.entries[keys[0]];
      forall a | Mentions(value, a) ensures a in heap {
        assert Mentions(v, a);
      }
      var s1 := Write(heap, value, s0).slots;
      WriteReachesAll(heap, value, s0);
      PrefixGrows(heap, s0, s1);
      WriteReachesEntries(heap, v, keys[1..], s1);
      var s2 := WriteEntries(heap, v, keys[1..], s1).slots;
      ClosedSinceIsTransitive(heap, s0, s1, s2);
      MentionsOnlyIsMonotone(value, Elements(s1), Elements(s2));
    }
  }

  /** Nothing outside a closed set that covers the value is ever given a position; positions do not repeat. */
  lemma {:induction false} WriteStaysWithin(heap: Heap, v: Value, s0: seq<Addr>, within: set<Addr>)
    requires Closed(heap, within) && MentionsOnly(v, within) && Elements(s0) <= within && NoDuplicates(s0)
    ensures Elements(Write(heap, v, s0).slots) <= within && NoDuplicates(Write(heap, v, s0).slots)
    decreases |Unmet(heap, s0)|, v, 1
  {
    var s1 := Write(heap, v, s0).slots;
    if v.List? || v.Set? || v.FrozenSet? || v.Tuple? {
      forall x, a | x in v.items && Mentions(x, a) ensures a in within {
        assert Mentions(v, a);
      }
      WriteItemsStaysWithin(heap, v.items, s0, within);
      assert s1 == WriteAll(heap, v.items, s0).slots;
    } else if v.Dict? {
      WriteEntriesStaysWithin(heap, v, Sorted(v.entries.Keys), s0, within);
      assert s1 == WriteEntries(heap, v, Sorted(v.entries.Keys), s0).slots;
    } else if v.Obj? {
      assert Mentions(v, v.addr);
      if v.addr !in s0 {
        var state := Dict(Kept(heap[v.addr].attributes));
        WriteNewObject(heap, v.addr, s0);
        MeetWithin(s0, v.addr, within);
        WriteStaysWithin(heap, state, s0 + [v.addr], within);
      }
    } else {
      assert s1 == s0;
    }
  }

  lemma MeetWithin(s0: seq<Addr>, a: Addr, within: set<Addr>)
    requires a in within && a !in s0 && Elements(s0) <= within && NoDuplicates(s0)
    ensures Elements(s0 + [a]) <= within && NoDuplicates(s0 + [a])
  {
  }

  lemma {:induction false} WriteItemsStaysWithin(heap: Heap, items: seq<Value>, s0: seq<Addr>, within: set<Addr>)
    requires Closed(heap, within) && Elements(s0) <= within && NoDuplicates(s0)
    requires forall x, a :: x in items && Mentions(x, a) ==> a in within
    ensures Elements(WriteAll(heap, items, s0).slots) <= within && NoDuplicates(WriteAll(heap, items, s0).slots)
    decreases |Unmet(heap, s0)|, items
  {
    if items != [] {
      var s1 := Write(heap, items[0], s0).slots;
      WriteStaysWithin(heap, items[0], s0, within);
      PrefixGrows(heap, s0, s1);
      WriteItemsStaysWithin(heap, items[1..], s1, within);
    }
  }

  lemma {:induction false} WriteEntriesStaysWithin(heap: Heap, v: Value, keys: seq<string>, s0: seq<Addr>, within: set<Addr>)
    requires Closed(heap, within) && Elements(s0) <= within && NoDuplicates(s0)
    requires v.Dict? && MentionsOnly(v, within) && forall k :: k in keys ==> k in v.entries
    ensures Elements(WriteEntries(heap, v, keys, s0).slots) <= within && NoDuplicates(WriteEntries(heap, v, keys, s0).slots)
    decreases |Unmet(heap, s0)|, v, 0, |keys|
  {
    if keys != [] {
      var value := v.entries[keys[0]];
      forall a | Mentions(value, a) ensures a in within {
        assert Mentions(v, a);
      }
      var s1 := Write(heap, value, s0).slots;
      WriteStaysWithin(heap, value, s0, within);
      PrefixGrows(heap, s0, s1);
      WriteEntriesStaysWithin(heap, v, keys[1..], s1, within);
    }
  }

  /** `reachable` is the least set of objects that covers `v` and is closed under references. */
  ghost predicate IsReachableFrom(heap: Heap, v: Value, reachable: set<Addr>) {
    && Closed(heap, reachable) && MentionsOnly(v, reachable)
    && forall other :: Closed(heap, other) && MentionsOnly(v, other) ==> reachable <= other
  }

  lemma WritesExactlyTheReachable(heap: Heap, v: Value)
    requires Grounded(heap) && MentionsOnly(v, heap.Keys)
    ensures IsReachableFrom(heap, v, Elements(Write(heap, v, []).slots))
    ensures NoDuplicates(Write(heap, v, []).slots)
  {
    var slots := Write(heap, v, []).slots;
    WriteReachesAll(heap, v, []);
    assert Closed(heap, heap.Keys);
    WriteStaysWithin(heap, v, [], heap.Keys);
    forall a | a in Elements(slots) ensures MentionsOnly(Dict(Kept(heap[a].attributes)), Elements(slots)) {
      var k :| 0 <= k < |slots| && slots[k] == a;
    }
    forall other | Closed(heap, other) && MentionsOnly(v, other) ensures Elements(slots) <= other {
      WriteStaysWithin(heap, v, [], other);
    }
  }

  // ---------- What the reader's id cache does to any JSON ----------

  /**
   Of the finished objects with a given id, at most one exists, and it is the one remembered. What is
   remembered is finished and has the id; both caches agree on it.
   */
  ghost predicate MergedById(st: State) {
    OnePerId(st) && RememberedAreFinished(st) && CachesAgree(st)
  }

  ghost predicate OnePerId(st: State) {
    forall b :: 0 <= b < |st.heap| && st.heap[b].Built? && Cacheable(IdOf(st.heap[b].made.attributes)) ==>
      var id := IdOf(st.heap[b].made.attributes);
      id.scalar.s in st.normal && st.normal[id.scalar.s] == b
  }

  ghost predicate RememberedAreFinished(st: State) {
    forall i :: i in st.normal ==> IsFinished(st, i, st.normal[i])
  }

  ghost predicate CachesAgree(st: State) {
    forall id :: id in st.instances ==>
      id != Nothing && (Cacheable(id) ==> id.scalar.s in st.normal && st.normal[id.scalar.s] == st.instances[id])
  }

  ghost predicate IsFinished(st: State, id: string, b: Addr) {
    "/" <= id && b < |st.heap| && st.heap[b].Built? && IdOf(st.heap[b].made.attributes) == Plain(Str(id))
  }

  /** A new object gets its attributes, and is remembered under its id. */
  ghost predicate IsBuilding(st: State, st': State, self: Addr, made: PlainObject) {
    var id := IdOf(made.attributes);
    && self < |st.heap| && st.heap[self] == Blank && st'.heap == st.heap[self := Built(made)]
    && (Cacheable(id) ==> id.scalar.s !in st.normal)
    && st'.normal == (if Cacheable(id) then st.normal[id.scalar.s := self] else st.normal)
    && (st'.instances == st.instances || (id != Nothing && st'.instances == st.instances[id := self]))
  }

  lemma BuildingKeepsOnePerId(st: State, st': State, self: Addr, made: PlainObject)
    requires IsBuilding(st, st', self, made) && OnePerId(st)
    ensures OnePerId(st')
  {
  }

  lemma BuildingKeepsFinished(st: State, st': State, self: Addr, made: PlainObject)
    requires IsBuilding(st, st', self, made) && RememberedAreFinished(st)
    ensures RememberedAreFinished(st')
  {
    forall i | i in st'.normal ensures IsFinished(st', i, st'.normal[i]) {
      if i in st.normal {
        assert IsFinished(st, i, st.normal[i]);
      }
    }
  }

  lemma BuildingMerges(st: State, st': State, self: Addr, made: PlainObject)
    requires IsBuilding(st, st', self, made) && MergedById(st)
    ensures MergedById(st')
  {
    BuildingKeepsOnePerId(st, st', self, made);
    BuildingKeepsFinished(st, st', self, made);
  }

  lemma FinishMerges(cls: string, immutable: bool, attributes: Value, index: nat, self: Addr, st: State)
    requires index < |st.stack| && self < |st.heap| && st.heap[self] == Blank
    requires MergedById(st)
    ensures var r := Finish(cls, immutable, attributes, index, self, st);
            r.Done? ==> MergedById(r.value.1) && |r.value.1.heap| == |st.heap|
                        && forall b :: 0 <= b < |st.heap| && b != self ==> r.value.1.heap[b] == st.heap[b]
  {
    var r := Finish(cls, immutable, attributes, index, self, st);
    if r.Done? {
      var st', id := r.value.1, IdOf(attributes.entries);
      if !("id" in attributes.entries && id.Plain? && id.scalar.Str? && id.scalar.s in st.normal) {
        BuildingMerges(st, st', self, PlainObject(cls, attributes.entries));
      }
    }
  }

  /** Reading leaves alone the objects that existed before. */
  ghost predicate KeepsOld(st: State, st': State) {
    && |st.heap| <= |st'.heap|
    && forall b :: 0 <= b < |st.heap| ==> st'.heap[b] == st.heap[b]
  }

  lemma {:induction false} ReadMerges(registry: Registry, j: Json, st: State, create: bool)
    requires MergedById(st)
    ensures var r := Read(registry, j, st, create);
            r.Done? ==> MergedById(r.value.1) && KeepsOld(st, r.value.1)
    decreases j, 4
  {
    match j
    case JNull =>
    case JScalar(_) =>
    case JList(elements) => ReadAllMerges(registry, elements, st);
    case JDict(members) =>
      if TYPE in members {
        ReadTaggedMerges(registry, j, st, create);
      } else if OID !in members {
        ReadEntriesMerges(registry, j, Sorted(members.Keys), st);
      }
  }

  lemma {:induction false} ReadTaggedMerges(registry: Registry, j: Json, st: State, create: bool)
    requires j.JDict? && TYPE in j.members && MergedById(st)
    ensures var r := Read(registry, j, st, create);
            r.Done? ==> MergedById(r.value.1) && KeepsOld(st, r.value.1)
    decreases j, 3
  {
    var members := j.members;
    if Text(members, TYPE).Done? {
      var typeName := members[TYPE].scalar.s;
      if typeName == SET_TYPE || typeName == FROZEN_SET_TYPE {
        if VALUE in members && members[VALUE].JList? {
          ReadAllMerges(registry, members[VALUE].elements, st);
        }
      } else if !ReservedTypeName(typeName) && typeName in registry {
        ReadInstanceMerges(registry, j, typeName, st, create);
      }
    }
  }

  lemma {:induction false} ReadInstanceMerges(registry: Registry, j: Json, cls: string, st: State, create: bool)
    requires j.JDict? && cls in registry && MergedById(st)
    ensures var r := ReadInstance(registry, j, cls, st, create);
            r.Done? ==> MergedById(r.value.1) && KeepsOld(st, r.value.1)
    decreases j, 2
  {
    var members := j.members;
    if registry[cls].TupleClass? {
      if VALUE in members && members[VALUE].JList? {
        ReadAllMerges(registry, members[VALUE].elements, st);
      }
    } else if !registry[cls].DateTimeClass? {
      if !create {
        ReadContentMerges(registry, j, st);
      } else if registry[cls].PlainClass? {
        ReadObjectMerges(registry, j, cls, st);
      }
    }
  }

  lemma {:induction false} ReadObjectMerges(registry: Registry, j: Json, cls: string, st: State)
    requires j.JDict? && cls in registry && registry[cls].PlainClass? && MergedById(st)
    ensures var c := ReadContent(registry, j, Allocate(st));
            c.Done? ==>
              var r := Finish(cls, registry[cls].immutable, c.value.0, |st.stack|, |st.heap|, c.value.1);
              r.Done? ==> MergedById(r.value.1) && KeepsOld(st, r.value.1)
    decreases j, 1, 1
  {
    ReadContentMerges(registry, j, Allocate(st));
    var c := ReadContent(registry, j, Allocate(st));
    if c.Done? {
      assert c.value.1.heap[|st.heap|] == Allocate(st).heap[|st.heap|] == Blank;
      FinishMerges(cls, registry[cls].immutable, c.value.0, |st.stack|, |st.heap|, c.value.1);
    }
  }

  lemma {:induction false} ReadContentMerges(registry: Registry, j: Json, st: State)
    requires j.JDict? && MergedById(st)
    ensures var r := ReadContent(registry, j, st);
            r.Done? ==> MergedById(r.value.1) && KeepsOld(st, r.value.1)
    decreases j, 1, 0
  {
    if VALUE in j.members {
      ReadMerges(registry, j.members[VALUE], st, true);
    } else {
      ReadEntriesMerges(registry, j, Sorted(j.members.Keys - {TYPE, OID}), st);
    }
  }

  lemma {:induction false} ReadAllMerges(registry: Registry, elements: seq<Json>, st: State)
    requires MergedById(st)
    ensures var r := ReadAll(registry, elements, st);
            r.Done? ==> MergedById(r.value.1) && KeepsOld(st, r.value.1)
    decreases elements
  {
    if elements != [] {
      ReadMerges(registry, elements[0], st, true);
      var first := Read(registry, elements[0], st, true);
      if first.Done? {
        ReadAllMerges(registry, elements[1..], first.value.1);
      }
    }
  }

  lemma {:induction false} ReadEntriesMerges(registry: Registry, j: Json, keys: seq<string>, st: State)
    requires j.JDict? && (forall k :: k in keys ==> k in j.members) && MergedById(st)
    ensures var r := ReadEntries(registry, j, keys, st);
            r.Done? ==> MergedById(r.value.1) && KeepsOld(st, r.value.1)
    decreases j, 0, |keys|
  {
    if keys != [] {
      ReadMerges(registry, j.members[keys[0]], st, true);
      var first := Read(registry, j.members[keys[0]], st, true);
      if first.Done? {
        ReadEntriesMerges(registry, j, keys[1..], first.value.1);
      }
    }
  }

  // ---------- The round trip ----------

  function FreshReader(known: map<string, string>): State {
    State([], [], known, map[], map[])
  }

  /** `t` makes the graph read back isomorphic to the graph written, `s[k]` corresponding to `t[k]`. */
  ghost predicate IsomorphicVia(heap: Heap, v: Value, cells: seq<Cell>, v': Value, s: seq<Addr>, t: seq<Addr>) {
    && |s| == |t| && NoDuplicates(s) && NoDuplicates(t)
    && Same(v, v', s, t)
    && forall k :: 0 <= k < |s| ==> Rebuilt(heap, s[k], cells, t[k], s, t)
  }

  /** Writing `v` and reading the JSON back with empty caches gives an isomorphic graph. */
  ghost predicate RoundTrips(registry: Registry, heap: Heap, v: Value, known: map<string, string>) {
    var w := Write(heap, v, []);
    var r := Read(registry, w.json, FreshReader(known), true);
    r.Done? && exists t :: IsomorphicVia(heap, v, r.value.1.heap, r.value.0, w.slots, t)
  }

  /**
   The round trip succeeds exactly when no two of the reachable plain objects carry the same id among
   those the reader remembers. `known` may already hold some of the persistent objects referred to.
   */
  lemma RoundTripsIffIdsAreDistinct(registry: Registry, classOf: ClassOf, heap: Heap, v: Value, known: map<string, string>)
    requires SupportedGraph(registry, classOf, heap)
    requires Supported(registry, classOf, v) && MentionsOnly(v, heap.Keys)
    requires forall oid :: oid in known && oid in classOf ==> known[oid] == classOf[oid]
    ensures RoundTrips(registry, heap, v, known) <==> DistinctIds(heap, Elements(Write(heap, v, []).slots))
  {
    var slots := Write(heap, v, []).slots;
    WritesExactlyTheReachable(heap, v);
    if DistinctIds(heap, Elements(slots)) {
      ReadBack(registry, classOf, heap, Elements(slots), v, [], FreshReader(known));
      var (v', st) := Read(registry, Write(heap, v, []).json, FreshReader(known), true).value;
      assert IsomorphicVia(heap, v, st.heap, v', slots, st.stack);
    }
    if RoundTrips(registry, heap, v, known) {
      IsomorphismKeepsIdsApart(registry, heap, v, known);
    }
  }

  lemma IsomorphismKeepsIdsApart(registry: Registry, heap: Heap, v: Value, known: map<string, string>)
    requires RoundTrips(registry, heap, v, known)
    requires Elements(Write(heap, v, []).slots) <= heap.Keys
    ensures DistinctIds(heap, Elements(Write(heap, v, []).slots))
  {
    var w := Write(heap, v, []);
    ReadMerges(registry, w.json, FreshReader(known), true);
    var (v', st) := Read(registry, w.json, FreshReader(known), true).value;
    var t :| IsomorphicVia(heap, v, st.heap, v', w.slots, t);
    IsomorphicApart(heap, v, st, v', w.slots, t);
  }

  lemma IsomorphicApart(heap: Heap, v: Value, st: State, v': Value, s: seq<Addr>, t: seq<Addr>)
    requires IsomorphicVia(heap, v, st.heap, v', s, t) && OnePerId(st) && Elements(s) <= heap.Keys
    ensures DistinctIds(heap, Elements(s))
  {
    forall a, b | a in Elements(s) && b in Elements(s) && a != b && Cacheable(SourceId(heap, a))
      ensures SourceId(heap, a) != SourceId(heap, b)
    {
      var i :| 0 <= i < |s| && s[i] == a;
      var j :| 0 <= j < |s| && s[j] == b;
      RebuiltApart(heap, st, s, t, i, j);
    }
  }

  lemma RebuiltApart(heap: Heap, st: State, s: seq<Addr>, t: seq<Addr>, i: nat, j: nat)
    requires |s| == |t| && NoDuplicates(t) && OnePerId(st) && i < |s| && j < |s| && i != j
    requires Rebuilt(heap, s[i], st.heap, t[i], s, t) && Rebuilt(heap, s[j], st.heap, t[j], s, t)
    requires Cacheable(SourceId(heap, s[i]))
    ensures SourceId(heap, s[i]) != SourceId(heap, s[j])
  {
    SameKeepsId(Kept(heap[s[i]].attributes), st.heap[t[i]].made.attributes, s, t);
    SameKeepsId(Kept(heap[s[j]].attributes), st.heap[t[j]].made.attributes, s, t);
  }

  // ---------- Where it fails ----------

  function Twin(n: int): PlainObject {
    PlainObject("C", map["id" := Plain(Str("/x")), "n" := Plain(Int(n))])
  }

  function Twins(): Heap {
    map[0 := Twin(0), 1 := Twin(1)]
  }

  function TwinClasses(): Registry {
    map[DATETIME_CLASS := DateTimeClass, TUPLE_CLASS := TupleClass, "C" := PlainClass(false)]
  }

  /** A list of two objects with the same id and different content: it does not come back. */
  lemma TwinsDoNotRoundTrip()
    ensures SupportedGraph(TwinClasses(), map[], Twins())
    ensures !RoundTrips(TwinClasses(), Twins(), List([Obj(0), Obj(1)]), map[])
  {
    var v := List([Obj(0), Obj(1)]);
    TwinsAreSupported();
    TwinsAreReached(v);
    TwinsClash(Elements(Write(Twins(), v, []).slots));
    TwinListIsSupported(v);
    RoundTripsIffIdsAreDistinct(TwinClasses(), map[], Twins(), v, map[]);
  }

  lemma TwinListIsSupported(v: Value)
    requires v == List([Obj(0), Obj(1)])
    ensures Supported(TwinClasses(), map[], v)
  {
  }

  lemma TwinsClash(reached: set<Addr>)
    requires 0 in reached && 1 in reached
    ensures !DistinctIds(Twins(), reached)
  {
    TwinIsKept(0);
    TwinIsKept(1);
    assert Cacheable(SourceId(Twins(), 0)) && SourceId(Twins(), 0) == SourceId(Twins(), 1);
  }

  lemma TwinsAreReached(v: Value)
    requires v == List([Obj(0), Obj(1)]) && Grounded(Twins())
    ensures MentionsOnly(v, Twins().Keys)
    ensures 0 in Elements(Write(Twins(), v, []).slots) && 1 in Elements(Write(Twins(), v, []).slots)
  {
    assert Mentions(v.items[0], 0) && Mentions(v.items[1], 1);
    assert Mentions(v, 0) && Mentions(v, 1);
    WritesExactlyTheReachable(Twins(), v);
  }

  lemma TwinIsKept(n: int)
    ensures Kept(Twin(n).attributes) == Twin(n).attributes
    ensures SupportedObject(TwinClasses(), map[], Twin(n))
    ensures forall a :: !Mentions(Dict(Kept(Twin(n).attributes)), a)
  {
    var attributes := Twin(n).attributes;
    assert "_v_"[0] == '_' && "id"[0] == 'i' && "n"[0] == 'n';
    assert Kept(attributes) == attributes;
    assert TYPE[0] == '@' && OID[0] == '@';
    assert |"C"| == 1 && |DATETIME_CLASS| > 1 && |TUPLE_CLASS| > 1;
    MarkersAreDistinct();
    assert Cacheable(IdOf(attributes));
    assert Supported(TwinClasses(), map[], Dict(attributes));
  }

  lemma TwinsAreSupported()
    ensures SupportedGraph(TwinClasses(), map[], Twins()) && Grounded(Twins())
  {
    TwinIsKept(0);
    TwinIsKept(1);
    MarkersAreDistinct();
    assert |"C"| == 1 && |DATETIME_CLASS| > 1 && |TUPLE_CLASS| > 1;
  }
}
