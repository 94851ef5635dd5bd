/** Reading back what was written gives an isomorphic object graph. */
module RoundTrip {
  import opened Common
  import opened Values
  import opened Writer
  import opened Reader

  // ---------- The values and objects the writer supports ----------

  /** The classes of the persistent objects that occur, by oid. */
  type ClassOf = map<string, string>

  predicate Supported(registry: Registry, classOf: ClassOf, v: Value)
    decreases v
  {
    match v
    case Nothing => true
    case Plain(_) => true
    case List(items) => forall i :: 0 <= i < |items| ==> Supported(registry, classOf, items[i])
    case Set(items) =>
      && (forall i :: 0 <= i < |items| ==> Supported(registry, classOf, items[i]) && Hashable(items[i]))
      && (forall i, j :: 0 <= i < j < |items| ==> items[i] != items[j])
    case FrozenSet(items) =>
      && (forall i :: 0 <= i < |items| ==> Supported(registry, classOf, items[i]) && Hashable(items[i]))
      && (forall i, j :: 0 <= i < j < |items| ==> items[i] != items[j])
    case Dict(entries) =>
      && TYPE !in entries && OID !in entries
      && (forall k :: k in entries ==> Supported(registry, classOf, entries[k]))
    case Tuple(items) => forall i :: 0 <= i < |items| ==> Supported(registry, classOf, items[i])
    case DateTime(_) => true
    case TypeName(name) => name in registry && !registry[name].Function?
    case FunctionName(name) => name in registry && registry[name].Function?
    case Persisted(oid, cls) =>
      && oid != "" && oid in classOf && classOf[oid] == cls
      && !ReservedTypeName(cls) && cls in registry && registry[cls].PersistentClass?
    case Obj(_) => true
  }

  predicate SupportedObject(registry: Registry, classOf: ClassOf, o: PlainObject) {
    && !ReservedTypeName(o.cls) && o.cls in registry && registry[o.cls].PlainClass?
    && Supported(registry, classOf, Dict(Kept(o.attributes)))
    && Hashable(IdOf(Kept(o.attributes)))
    && (registry[o.cls].immutable ==> IdOf(Kept(o.attributes)) == Nothing || Cacheable(IdOf(Kept(o.attributes))))
  }

  ghost predicate SupportedGraph(registry: Registry, classOf: ClassOf, heap: Heap) {
    && DATETIME_CLASS in registry && registry[DATETIME_CLASS].DateTimeClass?
    && TUPLE_CLASS in registry && registry[TUPLE_CLASS].TupleClass?
    && forall a :: a in heap ==> SupportedObject(registry, classOf, heap[a]) && MentionsOnly(Dict(Kept(heap[a].attributes)), heap.Keys)
  }

  // ---------- Isomorphism ----------

  ghost predicate Linked(a: Addr, b: Addr, s: seq<Addr>, t: seq<Addr>)
    requires |s| == |t|
  {
    exists k :: 0 <= k < |s| && s[k] == a && t[k] == b
  }

  /** `w` is `v` with every plain object `s[k]` replaced by `t[k]`. */
  ghost predicate Same(v: Value, w: Value, s: seq<Addr>, t: seq<Addr>)
    requires |s| == |t|
    decreases v
  {
    match v
    case List(items) => w.List? && |items| == |w.items| && forall i :: 0 <= i < |items| ==> Same(items[i], w.items[i], s, t)
    case Set(items) => w.Set? && |items| == |w.items| && forall i :: 0 <= i < |items| ==> Same(items[i], w.items[i], s, t)
    case FrozenSet(items) => w.FrozenSet? && |items| == |w.items| && forall i :: 0 <= i < |items| ==> Same(items[i], w.items[i], s, t)
    case Tuple(items) => w.Tuple? && |items| == |w.items| && forall i :: 0 <= i < |items| ==> Same(items[i], w.items[i], s, t)
    case Dict(entries) => w.Dict? && entries.Keys == w.entries.Keys && forall k :: k in entries ==> Same(entries[k], w.entries[k], s, t)
    case Obj(a) => w.Obj? && Linked(a, w.addr, s, t)
    case _ => w == v
  }

  /** The object `a` was rebuilt at `b`. */
  ghost predicate Rebuilt(heap: Heap, a: Addr, cells: seq<Cell>, b: Addr, s: seq<Addr>, t: seq<Addr>)
    requires |s| == |t|
  {
    && a in heap && b < |cells| && cells[b].Built?
    && cells[b].made.cls == heap[a].cls
    && Same(Dict(Kept(heap[a].attributes)), Dict(cells[b].made.attributes), s, t)
  }

  lemma SameIsMonotone(v: Value, w: Value, s: seq<Addr>, t: seq<Addr>, s': seq<Addr>, t': seq<Addr>)
    requires |s| == |t| && |s'| == |t'| && s <= s' && t <= t'
    requires Same(v, w, s, t)
    ensures Same(v, w, s', t')
    decreases v
  {
  }

  lemma SameIsInjective(v: Value, v': Value, w: Value, s: seq<Addr>, t: seq<Addr>)
    requires |s| == |t| && NoDuplicates(t)
    requires Same(v, w, s, t) && Same(v', w, s, t)
    ensures v == v'
    decreases v
  {
  }

  lemma SameKeepsHashable(v: Value, w: Value, s: seq<Addr>, t: seq<Addr>)
    requires |s| == |t|
    requires Same(v, w, s, t) && Hashable(v)
    ensures Hashable(w)
    decreases v
  {
  }

  // ---------- What holds between the two traversals ----------

  function SourceId(heap: Heap, a: Addr): Value
    requires a in heap
  {
    IdOf(Kept(heap[a].attributes))
  }

  /** No two of the objects carry the same id of the kind the reader remembers. */
  ghost predicate DistinctIds(heap: Heap, live: set<Addr>) {
    && live <= heap.Keys
    && forall a, b :: a in live && b in live && a != b && Cacheable(SourceId(heap, a)) ==> SourceId(heap, a) != SourceId(heap, b)
  }

  /** `b` is a finished object on the stack, whose original has the given id. */
  ghost predicate Remembered(heap: Heap, s: seq<Addr>, stack: seq<Addr>, cells: seq<Cell>, id: Value, b: Addr)
    requires |s| == |stack|
  {
    && Cacheable(id)
    && exists k :: 0 <= k < |s| && s[k] in heap && stack[k] == b && b < |cells| && cells[b].Built? && SourceId(heap, s[k]) == id
  }

  lemma RememberedIsMonotone(heap: Heap, s: seq<Addr>, t: seq<Addr>, cells: seq<Cell>, id: Value, b: Addr,
                             s': seq<Addr>, t': seq<Addr>, cells': seq<Cell>)
    requires |s| == |t| && |s'| == |t'| && s <= s' && t <= t'
    requires Remembered(heap, s, t, cells, id, b)
    requires b < |cells'| && (b < |cells| && cells[b].Built? ==> cells'[b].Built?)
    ensures Remembered(heap, s', t', cells', id, b)
  {
    var k :| 0 <= k < |s| && s[k] in heap && t[k] == b && b < |cells| && cells[b].Built? && SourceId(heap, s[k]) == id;
    assert s'[k] == s[k] && t'[k] == b;
  }

  /** Writer cache and reader stack agree: position `k` of one holds the original of position `k` of the other. */
  ghost predicate InStep(heap: Heap, classOf: ClassOf, live: set<Addr>, s: seq<Addr>, st: State) {
    && |s| == |st.stack|
    && NoDuplicates(s) && NoDuplicates(st.stack)
    && (forall k :: 0 <= k < |s| ==> s[k] in live && st.stack[k] < |st.heap|)
    && (forall oid :: oid in st.known && oid in classOf ==> st.known[oid] == classOf[oid])
    && (forall i :: i in st.normal ==> Remembered(heap, s, st.stack, st.heap, Plain(Str(i)), st.normal[i]))
    && (forall id :: id in st.instances ==> Remembered(heap, s, st.stack, st.heap, id, st.instances[id]))
  }

  /** From one step to a later one: old objects are untouched, and every object met in between is rebuilt. */
  ghost predicate Grown(heap: Heap, s0: seq<Addr>, st0: State, s1: seq<Addr>, st1: State) {
    && s0 <= s1 && st0.stack <= st1.stack && |s0| == |st0.stack| && |s1| == |st1.stack|
    && |st0.heap| <= |st1.heap|
    && (forall b :: 0 <= b < |st0.heap| ==> st1.heap[b] == st0.heap[b])
    && (forall k :: |s0| <= k < |s1| ==>
          |st0.heap| <= st1.stack[k] && Rebuilt(heap, s1[k], st1.heap, st1.stack[k], s1, st1.stack))
  }

  lemma RebuiltIsMonotone(heap: Heap, a: Addr, cells: seq<Cell>, b: Addr, s: seq<Addr>, t: seq<Addr>,
                          cells': seq<Cell>, s': seq<Addr>, t': seq<Addr>)
    requires |s| == |t| && |s'| == |t'| && s <= s' && t <= t'
    requires Rebuilt(heap, a, cells, b, s, t)
    requires b < |cells'| && cells'[b] == cells[b]
    ensures Rebuilt(heap, a, cells', b, s', t')
  {
    SameIsMonotone(Dict(Kept(heap[a].attributes)), Dict(cells[b].made.attributes), s, t, s', t');
  }

  lemma GrownIsTransitive(heap: Heap, s0: seq<Addr>, st0: State, s1: seq<Addr>, st1: State, s2: seq<Addr>, st2: State)
    requires Grown(heap, s0, st0, s1, st1) && Grown(heap, s1, st1, s2, st2)
    requires forall k :: 0 <= k < |s1| ==> st1.stack[k] < |st1.heap|
    ensures Grown(heap, s0, st0, s2, st2)
  {
    forall k | |s0| <= k < |s1|
      ensures Rebuilt(heap, s2[k], st2.heap, st2.stack[k], s2, st2.stack)
    {
      RebuiltIsMonotone(heap, s1[k], st1.heap, st1.stack[k], s1, st1.stack, st2.heap, s2, st2.stack);
    }
  }

  ghost predicate Context(registry: Registry, classOf: ClassOf, heap: Heap, live: set<Addr>) {
    && SupportedGraph(registry, classOf, heap)
    && live <= heap.Keys
    && DistinctIds(heap, live)
  }

  ghost predicate AllLive(slots: seq<Addr>, live: set<Addr>) {
    forall a :: a in slots ==> a in live
  }

  /** Reading the JSON written for `v` gives `v` again, in step. */
  ghost predicate ReadsBack(registry: Registry, classOf: ClassOf, heap: Heap, live: set<Addr>,
                            v: Value, s0: seq<Addr>, st0: State)
  {
    var w := Write(heap, v, s0);
    var r := Read(registry, w.json, st0, true);
    && r.Done?
    && var (v', st1) := r.value;
    && InStep(heap, classOf, live, w.slots, st1)
    && Grown(heap, s0, st0, w.slots, st1)
    && Same(v, v', w.slots, st1.stack)
  }

  // ---------- What the reader does with each shape the writer emits ----------

  lemma ReadTaggedList(registry: Registry, cls: string, elements: seq<Json>, st: State)
    requires cls == SET_TYPE || cls == FROZEN_SET_TYPE
    ensures var r := Read(registry, Tagged(cls, JList(elements)), st, true);
            var all := ReadAll(registry, elements, st);
            all.Done? && (forall i :: 0 <= i < |all.value.0| ==> Hashable(all.value.0[i])) ==>
              r == Done((if cls == SET_TYPE then Set(Distinct(all.value.0)) else FrozenSet(Distinct(all.value.0)), all.value.1))
  {
    MarkersAreDistinct();
    var j := Tagged(cls, JList(elements));
    assert Text(j.members, TYPE) == Done(cls);
    assert j.members[VALUE] == JList(elements);
  }

  lemma ReadTaggedTuple(registry: Registry, elements: seq<Json>, st: State)
    requires TUPLE_CLASS in registry && registry[TUPLE_CLASS].TupleClass?
    ensures var r := Read(registry, Tagged(TUPLE_CLASS, JList(elements)), st, true);
            var all := ReadAll(registry, elements, st);
            all.Done? ==> r == Done((Tuple(all.value.0), all.value.1))
  {
    MarkersAreDistinct();
    var j := Tagged(TUPLE_CLASS, JList(elements));
    assert Text(j.members, TYPE) == Done(TUPLE_CLASS);
    assert j.members[VALUE] == JList(elements);
  }

  lemma ReadTaggedName(registry: Registry, cls: string, name: string, st: State)
    requires cls == TYPE_TYPE || cls == FUNCTION_TYPE
    requires name in registry
    ensures Read(registry, Tagged(cls, JStr(name)), st, true) ==
            Done((if registry[name].Function? then FunctionName(name) else TypeName(name), st))
  {
    MarkersAreDistinct();
    var j := Tagged(cls, JStr(name));
    assert Text(j.members, TYPE) == Done(cls) && Text(j.members, VALUE) == Done(name);
  }

  lemma ReadTaggedDateTime(registry: Registry, iso: string, st: State)
    requires DATETIME_CLASS in registry && registry[DATETIME_CLASS].DateTimeClass?
    ensures Read(registry, Tagged(DATETIME_CLASS, JStr(iso)), st, true) == Done((DateTime(iso), st))
  {
    MarkersAreDistinct();
    var j := Tagged(DATETIME_CLASS, JStr(iso));
    assert Text(j.members, TYPE) == Done(DATETIME_CLASS) && Text(j.members, VALUE) == Done(iso);
  }

  lemma ReadTaggedPosition(registry: Registry, k: nat, st: State)
    requires k < |st.stack|
    ensures Read(registry, Tagged(REFERENCE_TYPE, JScalar(Int(k))), st, true) == Done((Obj(st.stack[k]), st))
  {
    MarkersAreDistinct();
    var j := Tagged(REFERENCE_TYPE, JScalar(Int(k)));
    assert Text(j.members, TYPE) == Done(REFERENCE_TYPE);
  }

  lemma ReadPersistentReference(registry: Registry, oid: string, cls: string, st: State)
    requires oid != "" && !ReservedTypeName(cls) && cls in registry && registry[cls].PersistentClass?
    ensures Read(registry, JDict(map[TYPE := JStr(cls), OID := JStr(oid), REFERENCE := JScalar(Bool(true))]), st, true)
            == PersistentReference(PersistentClass, cls, oid, st)
  {
    MarkersAreDistinct();
    var j := JDict(map[TYPE := JStr(cls), OID := JStr(oid), REFERENCE := JScalar(Bool(true))]);
    assert Text(j.members, TYPE) == Done(cls) && Text(j.members, OID) == Done(oid);
    assert Truthy(j.members[OID]) && Truthy(j.members[REFERENCE]);
  }

  lemma ReadPlainDict(registry: Registry, members: map<string, Json>, st: State)
    requires TYPE !in members && OID !in members
    ensures var r := Read(registry, JDict(members), st, true);
            var all := ReadEntries(registry, JDict(members), Sorted(members.Keys), st);
            all.Done? ==> r == Done((Dict(all.value.0), all.value.1))
  {
  }

  lemma ReadTaggedObject(registry: Registry, cls: string, content: Json, st: State)
    requires !ReservedTypeName(cls) && cls in registry && registry[cls].PlainClass?
    ensures var r := Read(registry, Tagged(cls, content), st, true);
            var c := Read(registry, content, Allocate(st), true);
            c.Done? ==> r == Finish(cls, registry[cls].immutable, c.value.0, |st.stack|, |st.heap|, c.value.1)
  {
    MarkersAreDistinct();
    var j := Tagged(cls, content);
    assert Text(j.members, TYPE) == Done(cls);
    assert j.members[VALUE] == content && OID !in j.members;
    assert ReadContent(registry, j, Allocate(st)) == Read(registry, content, Allocate(st), true);
  }

  // ---------- The round trip, by cases on the value ----------

  lemma {:induction false} ReadBack(registry: Registry, classOf: ClassOf, heap: Heap, live: set<Addr>,
                                    v: Value, s0: seq<Addr>, st0: State)
    requires Context(registry, classOf, heap, live)
    requires Supported(registry, classOf, v) && MentionsOnly(v, heap.Keys)
    requires InStep(heap, classOf, live, s0, st0)
    requires AllLive(Write(heap, v, s0).slots, live)
    ensures ReadsBack(registry, classOf, heap, live, v, s0, st0)
    decreases |Unmet(heap, s0)|, v, 1
  {
    if v.List? || v.Set? || v.FrozenSet? || v.Tuple? {
      ReadBackCollection(registry, classOf, heap, live, v, s0, st0);
    } else if v.Dict? {
      ReadBackDict(registry, classOf, heap, live, v, s0, st0);
    } else if v.Obj? && v.addr !in s0 {
      ReadBackObject(registry, classOf, heap, live, v.addr, s0, st0);
    } else {
      ReadBackLeaf(registry, classOf, heap, live, v, s0, st0);
    }
  }

  lemma {:induction false} ReadBackLeaf(registry: Registry, classOf: ClassOf, heap: Heap, live: set<Addr>,
                                        v: Value, s0: seq<Addr>, st0: State)
    requires Context(registry, classOf, heap, live)
    requires Supported(registry, classOf, v)
    requires InStep(heap, classOf, live, s0, st0)
    requires v.Nothing? || v.Plain? || v.DateTime? || v.TypeName? || v.FunctionName? || v.Persisted? || (v.Obj? && v.addr in s0)
    ensures ReadsBack(registry, classOf, heap, live, v, s0, st0)
  {
    var w := Write(heap, v, s0);
    assert w.slots == s0;
    LeafRead(registry, classOf, heap, v, s0, st0);
    var (v', st1) := Read(registry, w.json, st0, true).value;
    assert Grown(heap, s0, st0, s0, st1);
  }

  lemma {:induction false} LeafRead(registry: Registry, classOf: ClassOf, heap: Heap, v: Value, s0: seq<Addr>, st0: State)
    requires SupportedGraph(registry, classOf, heap) && Supported(registry, classOf, v)
    requires |s0| == |st0.stack|
    requires forall oid :: oid in st0.known && oid in classOf ==> st0.known[oid] == classOf[oid]
    requires v.Nothing? || v.Plain? || v.DateTime? || v.TypeName? || v.FunctionName? || v.Persisted? || (v.Obj? && v.addr in s0)
    ensures var r := Read(registry, Write(heap, v, s0).json, st0, true);
            && r.Done?
            && var (v', st1) := r.value;
            && st1 == st0.(known := st1.known)
            && (forall oid :: oid in st1.known && oid in classOf ==> st1.known[oid] == classOf[oid])
            && Same(v, v', s0, st0.stack)
  {
    match v
    case Nothing =>
    case Plain(_) =>
    case DateTime(iso) => ReadTaggedDateTime(registry, iso, st0);
    case TypeName(name) => ReadTaggedName(registry, TYPE_TYPE, name, st0);
    case FunctionName(name) => ReadTaggedName(registry, FUNCTION_TYPE, name, st0);
    case Persisted(oid, cls) => ReadPersistentReference(registry, oid, cls, st0);
    case Obj(a) =>
      var k := Slot(s0, a);
      ReadTaggedPosition(registry, k, st0);
      assert Linked(a, st0.stack[k], s0, st0.stack);
  }

  lemma {:induction false} ReadBackCollection(registry: Registry, classOf: ClassOf, heap: Heap, live: set<Addr>,
                                              v: Value, s0: seq<Addr>, st0: State)
    requires v.List? || v.Set? || v.FrozenSet? || v.Tuple?
    requires Context(registry, classOf, heap, live)
    requires Supported(registry, classOf, v) && MentionsOnly(v, heap.Keys)
    requires InStep(heap, classOf, live, s0, st0)
    requires AllLive(Write(heap, v, s0).slots, live)
    ensures ReadsBack(registry, classOf, heap, live, v, s0, st0)
    decreases |Unmet(heap, s0)|, v, 0
  {
    var items := v.items;
    forall i | 0 <= i < |items| ensures MentionsOnly(items[i], heap.Keys) {
      forall a | Mentions(items[i], a) ensures a in heap.Keys {
        assert Mentions(v, a);
      }
    }
    ReadBackItems(registry, classOf, heap, live, items, s0, st0);
    var w := WriteAll(heap, items, s0);
    var (items', st1) := ReadAll(registry, w.elements, st0).value;
    if v.Set? || v.FrozenSet? {
      forall i | 0 <= i < |items| ensures Hashable(items'[i]) {
        SameKeepsHashable(items[i], items'[i], w.slots, st1.stack);
      }
      assert NoDuplicates(items') by {
        forall i, j | 0 <= i < j < |items'| ensures items'[i] != items'[j] {
          if items'[i] == items'[j] {
            SameIsInjective(items[i], items[j], items'[i], w.slots, st1.stack);
          }
        }
      }
      ReadTaggedList(registry, if v.Set? then SET_TYPE else FROZEN_SET_TYPE, w.elements, st0);
      MarkersAreDistinct();
    } else if v.Tuple? {
      ReadTaggedTuple(registry, w.elements, st0);
    }
  }

  ghost predicate ItemsReadBack(registry: Registry, classOf: ClassOf, heap: Heap, live: set<Addr>,
                                items: seq<Value>, s0: seq<Addr>, st0: State)
  {
    var w := WriteAll(heap, items, s0);
    var r := ReadAll(registry, w.elements, st0);
    && r.Done?
    && var (items', st1) := r.value;
    && InStep(heap, classOf, live, w.slots, st1)
    && Grown(heap, s0, st0, w.slots, st1)
    && |items'| == |items|
    && forall i :: 0 <= i < |items| ==> Same(items[i], items'[i], w.slots, st1.stack)
  }

  lemma {:induction false} ReadBackItems(registry: Registry, classOf: ClassOf, heap: Heap, live: set<Addr>,
                                         items: seq<Value>, s0: seq<Addr>, st0: State)
    requires Context(registry, classOf, heap, live)
    requires forall i :: 0 <= i < |items| ==> Supported(registry, classOf, items[i]) && MentionsOnly(items[i], heap.Keys)
    requires InStep(heap, classOf, live, s0, st0)
    requires AllLive(WriteAll(heap, items, s0).slots, live)
    ensures ItemsReadBack(registry, classOf, heap, live, items, s0, st0)
    decreases |Unmet(heap, s0)|, items
  {
    if items == [] {
      ItemsReadBackNil(registry, classOf, heap, live, s0, st0);
    } else {
      var w1 := Write(heap, items[0], s0);
      assert WriteAll(heap, items, s0).slots == WriteAll(heap, items[1..], w1.slots).slots;
      ReadBack(registry, classOf, heap, live, items[0], s0, st0);
      PrefixGrows(heap, s0, w1.slots);
      ReadBackItems(registry, classOf, heap, live, items[1..], w1.slots, Read(registry, w1.json, st0, true).value.1);
      ItemsReadBackCons(registry, classOf, heap, live, items, s0, st0);
    }
  }

  lemma {:induction false} ItemsReadBackNil(registry: Registry, classOf: ClassOf, heap: Heap, live: set<Addr>,
                                            s0: seq<Addr>, st0: State)
    requires InStep(heap, classOf, live, s0, st0)
    ensures ItemsReadBack(registry, classOf, heap, live, [], s0, st0)
  {
  }

  lemma {:induction false} ItemsReadBackCons(registry: Registry, classOf: ClassOf, heap: Heap, live: set<Addr>,
                                             items: seq<Value>, s0: seq<Addr>, st0: State)
    requires items != []
    requires ReadsBack(registry, classOf, heap, live, items[0], s0, st0)
    requires var w1 := Write(heap, items[0], s0);
             ItemsReadBack(registry, classOf, heap, live, items[1..], w1.slots, Read(registry, w1.json, st0, true).value.1)
    ensures ItemsReadBack(registry, classOf, heap, live, items, s0, st0)
  {
    var w1 := Write(heap, items[0], s0);
    var w2 := WriteAll(heap, items[1..], w1.slots);
    var w := WriteAll(heap, items, s0);
    assert w == WrittenAll([w1.json] + w2.elements, w2.slots);
    assert w.elements[0] == w1.json && w.elements[1..] == w2.elements;
    var (v1, st1) := Read(registry, w1.json, st0, true).value;
    var (rest, st2) := ReadAll(registry, w2.elements, st1).value;
    assert ReadAll(registry, w.elements, st0) == Done(([v1] + rest, st2));
    GrownIsTransitive(heap, s0, st0, w1.slots, st1, w2.slots, st2);
    SameIsMonotone(items[0], v1, w1.slots, st1.stack, w2.slots, st2.stack);
  }

  lemma EntriesMentionOnly(v: Value, addrs: set<Addr>)
    requires v.Dict? && MentionsOnly(v, addrs)
    ensures forall k :: k in v.entries ==> MentionsOnly(v.entries[k], addrs)
  {
    forall k, a | k in v.entries && Mentions(v.entries[k], a) ensures a in addrs {
      assert Mentions(v, a);
    }
  }

  lemma {:induction false} ReadBackDict(registry: Registry, classOf: ClassOf, heap: Heap, live: set<Addr>,
                                        v: Value, s0: seq<Addr>, st0: State)
    requires v.Dict?
    requires Context(registry, classOf, heap, live)
    requires Supported(registry, classOf, v) && MentionsOnly(v, heap.Keys)
    requires InStep(heap, classOf, live, s0, st0)
    requires AllLive(Write(heap, v, s0).slots, live)
    ensures ReadsBack(registry, classOf, heap, live, v, s0, st0)
    decreases |Unmet(heap, s0)|, v, 0
  {
    var keys := Sorted(v.entries.Keys);
    EntriesMentionOnly(v, heap.Keys);
    var w := WriteEntries(heap, v, keys, s0);
    assert w.members.Keys == v.entries.Keys;
    ReadBackEntries(registry, classOf, heap, live, v, keys, JDict(w.members), s0, st0);
    ReadPlainDict(registry, w.members, st0);
  }

  ghost predicate EntriesReadBack(registry: Registry, classOf: ClassOf, heap: Heap, live: set<Addr>,
                                  v: Value, keys: seq<string>, j: Json, s0: seq<Addr>, st0: State)
    requires v.Dict? && forall k :: k in keys ==> k in v.entries
    requires j.JDict? && forall k :: k in keys ==> k in j.members
  {
    var w := WriteEntries(heap, v, keys, s0);
    var r := ReadEntries(registry, j, keys, st0);
    && r.Done?
    && var (entries', st1) := r.value;
    && InStep(heap, classOf, live, w.slots, st1)
    && Grown(heap, s0, st0, w.slots, st1)
    && forall k :: k in keys ==> Same(v.entries[k], entries'[k], w.slots, st1.stack)
  }

  /** The entries can be read back: they are supported, and the writer's slots are live. */
  ghost predicate EntriesReady(registry: Registry, classOf: ClassOf, heap: Heap, live: set<Addr>,
                               v: Value, keys: seq<string>, j: Json, s0: seq<Addr>, st0: State)
  {
    && v.Dict? && NoDuplicates(keys)
    && (forall k :: k in keys ==>
          k in v.entries && Supported(registry, classOf, v.entries[k]) && MentionsOnly(v.entries[k], heap.Keys))
    && InStep(heap, classOf, live, s0, st0)
    && AllLive(WriteEntries(heap, v, keys, s0).slots, live)
    && j.JDict? && forall k :: k in keys ==> k in j.members && j.members[k] == WriteEntries(heap, v, keys, s0).members[k]
  }

  lemma {:induction false} ReadBackEntries(registry: Registry, classOf: ClassOf, heap: Heap, live: set<Addr>,
                                           v: Value, keys: seq<string>, j: Json, s0: seq<Addr>, st0: State)
    requires Context(registry, classOf, heap, live)
    requires EntriesReady(registry, classOf, heap, live, v, keys, j, s0, st0)
    ensures EntriesReadBack(registry, classOf, heap, live, v, keys, j, s0, st0)
    decreases |Unmet(heap, s0)|, v, 0, |keys|
  {
    if keys == [] {
      EntriesReadBackNil(registry, classOf, heap, live, v, j, s0, st0);
    } else {
      var value := v.entries[keys[0]];
      var w1 := Write(heap, value, s0);
      FirstIsReady(registry, classOf, heap, live, v, keys, j, s0, st0);
      ReadBack(registry, classOf, heap, live, value, s0, st0);
      var st1 := Read(registry, w1.json, st0, true).value.1;
      PrefixGrows(heap, s0, w1.slots);
      RestIsReady(registry, classOf, heap, live, v, keys, j, s0, st0, st1);
      ReadBackEntries(registry, classOf, heap, live, v, keys[1..], j, w1.slots, st1);
      EntriesReadBackCons(registry, classOf, heap, live, v, keys, j, s0, st0);
    }
  }

  lemma FirstIsReady(registry: Registry, classOf: ClassOf, heap: Heap, live: set<Addr>,
                     v: Value, keys: seq<string>, j: Json, s0: seq<Addr>, st0: State)
    requires EntriesReady(registry, classOf, heap, live, v, keys, j, s0, st0) && keys != []
    ensures j.members[keys[0]] == Write(heap, v.entries[keys[0]], s0).json
    ensures AllLive(Write(heap, v.entries[keys[0]], s0).slots, live)
  {
    SplitEntries(heap, v, keys, j, s0);
    var w1 := Write(heap, v.entries[keys[0]], s0);
    assert w1.slots <= WriteEntries(heap, v, keys[1..], w1.slots).slots;
  }

  lemma RestIsReady(registry: Registry, classOf: ClassOf, heap: Heap, live: set<Addr>,
                    v: Value, keys: seq<string>, j: Json, s0: seq<Addr>, st0: State, st1: State)
    requires EntriesReady(registry, classOf, heap, live, v, keys, j, s0, st0) && keys != []
    requires InStep(heap, classOf, live, Write(heap, v.entries[keys[0]], s0).slots, st1)
    ensures EntriesReady(registry, classOf, heap, live, v, keys[1..], j, Write(heap, v.entries[keys[0]], s0).slots, st1)
  {
    var s1 := Write(heap, v.entries[keys[0]], s0).slots;
    RestOfKeys(keys);
    RestIsWritten(heap, live, v, keys, j, s0);
    assert AllLive(WriteEntries(heap, v, keys[1..], s1).slots, live);
  }

  lemma RestOfKeys(keys: seq<string>)
    requires keys != [] && NoDuplicates(keys)
    ensures NoDuplicates(keys[1..]) && forall k :: k in keys[1..] ==> k in keys
  {
  }

  lemma RestIsWritten(heap: Heap, live: set<Addr>, v: Value, keys: seq<string>, j: Json, s0: seq<Addr>)
    requires keys != [] && NoDuplicates(keys) && v.Dict? && forall k :: k in keys ==> k in v.entries
    requires j.JDict? && forall k :: k in keys ==> k in j.members && j.members[k] == WriteEntries(heap, v, keys, s0).members[k]
    requires AllLive(WriteEntries(heap, v, keys, s0).slots, live)
    ensures var w2 := WriteEntries(heap, v, keys[1..], Write(heap, v.entries[keys[0]], s0).slots);
            AllLive(w2.slots, live) && forall k :: k in keys[1..] ==> k in j.members && j.members[k] == w2.members[k]
  {
    SplitEntries(heap, v, keys, j, s0);
  }

  lemma {:induction false} SplitEntries(heap: Heap, v: Value, keys: seq<string>, j: Json, s0: seq<Addr>)
    requires keys != [] && NoDuplicates(keys) && v.Dict? && forall k :: k in keys ==> k in v.entries
    requires j.JDict? && forall k :: k in keys ==> k in j.members && j.members[k] == WriteEntries(heap, v, keys, s0).members[k]
    ensures var w1 := Write(heap, v.entries[keys[0]], s0);
            var w2 := WriteEntries(heap, v, keys[1..], w1.slots);
            && j.members[keys[0]] == w1.json
            && (forall k :: k in keys[1..] ==> j.members[k] == w2.members[k])
            && WriteEntries(heap, v, keys, s0).slots == w2.slots
  {
    var w1 := Write(heap, v.entries[keys[0]], s0);
    var w2 := WriteEntries(heap, v, keys[1..], w1.slots);
    assert WriteEntries(heap, v, keys, s0) == WrittenEntries(map[keys[0] := w1.json] + w2.members, w2.slots);
  }

  lemma {:induction false} EntriesReadBackNil(registry: Registry, classOf: ClassOf, heap: Heap, live: set<Addr>,
                                              v: Value, j: Json, s0: seq<Addr>, st0: State)
    requires v.Dict? && j.JDict?
    requires InStep(heap, classOf, live, s0, st0)
    ensures EntriesReadBack(registry, classOf, heap, live, v, [], j, s0, st0)
  {
  }

  lemma {:induction false} EntriesReadBackCons(registry: Registry, classOf: ClassOf, heap: Heap, live: set<Addr>,
                                               v: Value, keys: seq<string>, j: Json, s0: seq<Addr>, st0: State)
    requires keys != [] && v.Dict? && forall k :: k in keys ==> k in v.entries
    requires j.JDict? && forall k :: k in keys ==> k in j.members
    requires j.members[keys[0]] == Write(heap, v.entries[keys[0]], s0).json
    requires ReadsBack(registry, classOf, heap, live, v.entries[keys[0]], s0, st0)
    requires EntriesReadBack(registry, classOf, heap, live, v, keys[1..], j,
                             Write(heap, v.entries[keys[0]], s0).slots, Read(registry, j.members[keys[0]], st0, true).value.1)
    requires NoDuplicates(keys)
    ensures EntriesReadBack(registry, classOf, heap, live, v, keys, j, s0, st0)
  {
    var value := v.entries[keys[0]];
    var w1 := Write(heap, value, s0);
    var w2 := WriteEntries(heap, v, keys[1..], w1.slots);
    var (v1, st1) := Read(registry, w1.json, st0, true).value;
    var (rest, st2) := ReadEntries(registry, j, keys[1..], st1).value;
    assert ReadEntries(registry, j, keys, st0) == Done((map[keys[0] := v1] + rest, st2));
    GrownIsTransitive(heap, s0, st0, w1.slots, st1, w2.slots, st2);
    SameIsMonotone(value, v1, w1.slots, st1.stack, w2.slots, st2.stack);
    EntriesSameCons(v, keys, v1, rest, w2.slots, st2.stack);
  }

  lemma EntriesSameCons(v: Value, keys: seq<string>, first: Value, rest: map<string, Value>, s: seq<Addr>, t: seq<Addr>)
    requires keys != [] && NoDuplicates(keys) && v.Dict? && |s| == |t|
    requires forall k :: k in keys ==> k in v.entries
    requires Same(v.entries[keys[0]], first, s, t)
    requires forall k :: k in rest <==> k in keys[1..]
    requires forall k :: k in keys[1..] ==> Same(v.entries[k], rest[k], s, t)
    ensures forall k :: k in keys ==> Same(v.entries[k], (map[keys[0] := first] + rest)[k], s, t)
  {
    assert keys[0] !in keys[1..];
  }

  lemma {:induction false} ReadBackObject(registry: Registry, classOf: ClassOf, heap: Heap, live: set<Addr>,
                                          a: Addr, s0: seq<Addr>, st0: State)
    requires Context(registry, classOf, heap, live)
    requires a in heap && a !in s0
    requires InStep(heap, classOf, live, s0, st0)
    requires AllLive(Write(heap, Obj(a), s0).slots, live)
    ensures ReadsBack(registry, classOf, heap, live, Obj(a), s0, st0)
    decreases |Unmet(heap, s0)|, Obj(a), 0
  {
    var state := Dict(Kept(heap[a].attributes));
    var cls := heap[a].cls;
    WriteNewObject(heap, a, s0);
    var w := Write(heap, state, s0 + [a]);
    LastOfPrefix(s0, a, w.slots);
    AllocateKeepsStep(heap, classOf, live, a, s0, st0);
    ReadBack(registry, classOf, heap, live, state, s0 + [a], Allocate(st0));
    var (attributes, st1) := Read(registry, w.json, Allocate(st0), true).value;
    FinishKeepsStep(registry, classOf, heap, live, a, s0, st0, attributes, w.slots, st1);
    ReadTaggedObject(registry, cls, w.json, st0);
  }

  lemma LastOfPrefix(s: seq<Addr>, a: Addr, slots: seq<Addr>)
    requires s + [a] <= slots
    ensures a in slots && slots[|s|] == a
  {
    assert slots[|s|] == (s + [a])[|s|];
  }

  lemma AllocateKeepsStep(heap: Heap, classOf: ClassOf, live: set<Addr>, a: Addr, s0: seq<Addr>, st0: State)
    requires InStep(heap, classOf, live, s0, st0)
    requires a in live && a !in s0
    ensures InStep(heap, classOf, live, s0 + [a], Allocate(st0))
  {
    var st := Allocate(st0);
    var s := s0 + [a];
    forall i | i in st.normal ensures Remembered(heap, s, st.stack, st.heap, Plain(Str(i)), st.normal[i]) {
      RememberedIsMonotone(heap, s0, st0.stack, st0.heap, Plain(Str(i)), st.normal[i], s, st.stack, st.heap);
    }
    forall id | id in st.instances ensures Remembered(heap, s, st.stack, st.heap, id, st.instances[id]) {
      RememberedIsMonotone(heap, s0, st0.stack, st0.heap, id, st.instances[id], s, st.stack, st.heap);
    }
  }

  lemma SameKeepsId(attributes: map<string, Value>, attributes': map<string, Value>, s: seq<Addr>, t: seq<Addr>)
    requires |s| == |t|
    requires Same(Dict(attributes), Dict(attributes'), s, t)
    ensures Same(IdOf(attributes), IdOf(attributes'), s, t)
    ensures IdOf(attributes').Plain? || IdOf(attributes').Nothing? ==> IdOf(attributes) == IdOf(attributes')
  {
  }

  /** While an object is still blank, no object with its id has been remembered. */
  lemma NotRememberedYet(heap: Heap, classOf: ClassOf, live: set<Addr>, a: Addr, index: nat, s: seq<Addr>, st: State)
    requires DistinctIds(heap, live) && InStep(heap, classOf, live, s, st)
    requires a in live && index < |s| && s[index] == a && st.heap[st.stack[index]] == Blank
    ensures SourceId(heap, a).Plain? && SourceId(heap, a).scalar.Str? ==> SourceId(heap, a).scalar.s !in st.normal
    ensures SourceId(heap, a) !in st.instances
  {
  }

  /** Setting the attributes of a blank object and remembering it keeps the traversals in step. */
  lemma BuiltKeepsStep(heap: Heap, classOf: ClassOf, live: set<Addr>, s: seq<Addr>, st: State, index: nat,
                       cls: string, attributes: map<string, Value>, st': State)
    requires InStep(heap, classOf, live, s, st)
    requires index < |s| && s[index] in heap
    requires st'.stack == st.stack && st'.known == st.known
    requires st'.heap == st.heap[st.stack[index] := Built(PlainObject(cls, attributes))]
    requires forall i :: i in st'.normal ==>
               (i in st.normal && st'.normal[i] == st.normal[i])
               || (st'.normal[i] == st.stack[index] && SourceId(heap, s[index]) == Plain(Str(i)) && "/" <= i)
    requires forall id :: id in st'.instances ==>
               (id in st.instances && st'.instances[id] == st.instances[id])
               || (st'.instances[id] == st.stack[index] && SourceId(heap, s[index]) == id && Cacheable(id))
    ensures InStep(heap, classOf, live, s, st')
  {
    forall i | i in st'.normal ensures Remembered(heap, s, st'.stack, st'.heap, Plain(Str(i)), st'.normal[i]) {
      if i in st.normal && st'.normal[i] == st.normal[i] {
        RememberedIsMonotone(heap, s, st.stack, st.heap, Plain(Str(i)), st.normal[i], s, st'.stack, st'.heap);
      }
    }
    forall id | id in st'.instances ensures Remembered(heap, s, st'.stack, st'.heap, id, st'.instances[id]) {
      if id in st.instances && st'.instances[id] == st.instances[id] {
        RememberedIsMonotone(heap, s, st.stack, st.heap, id, st.instances[id], s, st'.stack, st'.heap);
      }
    }
  }

  /** The blank object got its attributes, and is remembered under its id if at all. */
  ghost predicate BuiltFrom(st: State, st': State, cls: string, attributes: map<string, Value>, self: Addr) {
    && st'.stack == st.stack && st'.known == st.known
    && self < |st.heap| && st'.heap == st.heap[self := Built(PlainObject(cls, attributes))]
    && (forall i :: i in st'.normal ==>
          (i in st.normal && st'.normal[i] == st.normal[i])
          || (st'.normal[i] == self && IdOf(attributes) == Plain(Str(i)) && "/" <= i))
    && (forall id :: id in st'.instances ==>
          (id in st.instances && st'.instances[id] == st.instances[id])
          || (st'.instances[id] == self && IdOf(attributes) == id && Cacheable(id)))
  }

  /** Finishing an object whose id no earlier object had. */
  lemma FinishMisses(cls: string, immutable: bool, attributes: Value, index: nat, self: Addr, st: State)
    requires index < |st.stack| && self < |st.heap|
    requires attributes.Dict? && Hashable(IdOf(attributes.entries))
    requires var id := IdOf(attributes.entries);
             && (id.Plain? && id.scalar.Str? ==> id.scalar.s !in st.normal)
             && id !in st.instances
             && (immutable ==> id == Nothing || Cacheable(id))
    ensures var r := Finish(cls, immutable, attributes, index, self, st);
            r.Done? && r.value.0 == Obj(self) && BuiltFrom(st, r.value.1, cls, attributes.entries, self)
  {
  }

  /** The object read last is not one that was remembered: its id was not met before. */
  lemma FinishIsNew(registry: Registry, classOf: ClassOf, heap: Heap, live: set<Addr>,
                    a: Addr, index: nat, attributes: Value, s1: seq<Addr>, st1: State)
    requires Context(registry, classOf, heap, live) && a in live && InStep(heap, classOf, live, s1, st1)
    requires index < |s1| && s1[index] == a && st1.heap[st1.stack[index]] == Blank
    requires Same(Dict(Kept(heap[a].attributes)), attributes, s1, st1.stack)
    ensures var r := Finish(heap[a].cls, registry[heap[a].cls].immutable, attributes, index, st1.stack[index], st1);
            && r.Done? && r.value.0 == Obj(st1.stack[index])
            && BuiltFrom(st1, r.value.1, heap[a].cls, attributes.entries, st1.stack[index])
    ensures forall id :: IdOf(attributes.entries) == id && (id.Plain? || id.Nothing?) ==> SourceId(heap, a) == id
  {
    var id := SourceId(heap, a);
    SameKeepsId(Kept(heap[a].attributes), attributes.entries, s1, st1.stack);
    assert id.Plain? ==> IdOf(attributes.entries) == id;
    SameKeepsHashable(id, IdOf(attributes.entries), s1, st1.stack);
    NotRememberedYet(heap, classOf, live, a, index, s1, st1);
    FinishMisses(heap[a].cls, registry[heap[a].cls].immutable, attributes, index, st1.stack[index], st1);
  }

  lemma FinishKeepsStep(registry: Registry, classOf: ClassOf, heap: Heap, live: set<Addr>,
                        a: Addr, s0: seq<Addr>, st0: State, attributes: Value, s1: seq<Addr>, st1: State)
    requires Context(registry, classOf, heap, live)
    requires a in live && a !in s0 && InStep(heap, classOf, live, s0, st0)
    requires s0 + [a] <= s1
    requires InStep(heap, classOf, live, s1, st1) && Grown(heap, s0 + [a], Allocate(st0), s1, st1)
    requires Same(Dict(Kept(heap[a].attributes)), attributes, s1, st1.stack)
    ensures var cls := heap[a].cls;
            var r := Finish(cls, registry[cls].immutable, attributes, |st0.stack|, |st0.heap|, st1);
            && r.Done?
            && var (v, st2) := r.value;
            && InStep(heap, classOf, live, s1, st2)
            && Grown(heap, s0, st0, s1, st2)
            && Same(Obj(a), v, s1, st2.stack)
  {
    var cls, self, index := heap[a].cls, |st0.heap|, |st0.stack|;
    assert s1[index] == a && st1.stack[index] == self && st1.heap[self] == Allocate(st0).heap[self] == Blank;
    FinishIsNew(registry, classOf, heap, live, a, index, attributes, s1, st1);
    var st2 := Finish(cls, registry[cls].immutable, attributes, index, self, st1).value.1;
    assert Linked(a, self, s1, st1.stack);
    BuiltKeepsStep(heap, classOf, live, s1, st1, index, cls, attributes.entries, st2);
    BuiltGrows(heap, a, s0, st0, attributes.entries, s1, st1, st2);
  }

  /** With the object built, everything met since it was met is rebuilt. */
  lemma BuiltGrows(heap: Heap, a: Addr, s0: seq<Addr>, st0: State, attributes: map<string, Value>,
                   s1: seq<Addr>, st1: State, st2: State)
    requires a in heap && a !in s0 && |s0| == |st0.stack| && s0 + [a] <= s1 && |s1| == |st1.stack|
    requires Grown(heap, s0 + [a], Allocate(st0), s1, st1)
    requires Same(Dict(Kept(heap[a].attributes)), Dict(attributes), s1, st1.stack)
    requires st2.stack == st1.stack && st2.known == st1.known && |st0.heap| < |st1.heap|
    requires st2.heap == st1.heap[|st0.heap| := Built(PlainObject(heap[a].cls, attributes))]
    requires forall k :: |s0| < k < |s1| ==> s1[k] in heap && st1.stack[k] < |st1.heap|
    ensures Grown(heap, s0, st0, s1, st2)
  {
    forall k | |s0| <= k < |s1|
      ensures |st0.heap| <= st2.stack[k] && Rebuilt(heap, s1[k], st2.heap, st2.stack[k], s1, st2.stack)
    {
      if k > |s0| {
        RebuiltIsMonotone(heap, s1[k], st1.heap, st1.stack[k], s1, st1.stack, st2.heap, s1, st2.stack);
      }
    }
  }
}
