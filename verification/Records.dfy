/** Whole records: what is stored for a persistent object, and the two ways its state is loaded. */
module Records {
  import opened Common
  import opened Values
  import opened Writer
  import opened Reader
  import opened RoundTrip
  import opened Isomorphism
  import opened Totality

  /** The members of a record: the class, the oid, and the members given. */
  function Record(members: map<string, Json>, cls: string, oid: string): Json {
    JDict(members[TYPE := JStr(cls)][OID := JStr(oid)])
  }

  /** `ObjectWriter.serialize`. */
  function SerializeRecord(heap: Heap, cls: string, oid: string, state: Value): Json {
    var data := Write(heap, state, []).json;
    Record(if state.Dict? && data.JDict? then data.members else map[VALUE := data], cls, oid)
  }

  predicate Recordable(registry: Registry, cls: string, oid: string, state: Value) {
    && oid != "" && !ReservedTypeName(cls) && cls in registry && registry[cls].PersistentClass?
    && (state.Dict? ==> TYPE !in state.entries && OID !in state.entries && VALUE !in state.entries && REFERENCE !in state.entries)
  }

  lemma {:induction false} DictionaryJson(heap: Heap, state: Value, slots: seq<Addr>)
    requires state.Dict?
    ensures var j := Write(heap, state, slots).json;
            j.JDict? && j.members.Keys == state.entries.Keys
  {
    var w := WriteEntries(heap, state, Sorted(state.entries.Keys), slots);
    assert Write(heap, state, slots).json == JDict(w.members);
  }

  lemma RecordHas(members: map<string, Json>, cls: string, oid: string)
    requires TYPE !in members && OID !in members
    ensures var rec := Record(members, cls, oid);
            && Text(rec.members, TYPE) == Done(cls) && Text(rec.members, OID) == Done(oid)
            && rec.members.Keys - {TYPE, OID} == members.Keys
            && forall k :: k in members ==> rec.members[k] == members[k]
  {
    MarkersAreDistinct();
  }

  /** The parts of a record that loading looks at. */
  lemma RecordParts(registry: Registry, heap: Heap, cls: string, oid: string, state: Value)
    requires Recordable(registry, cls, oid, state)
    ensures var rec := SerializeRecord(heap, cls, oid, state);
            var data := Write(heap, state, []).json;
            && Text(rec.members, TYPE) == Done(cls) && Text(rec.members, OID) == Done(oid)
            && REFERENCE !in rec.members
            && if state.Dict? then
                 && data.JDict? && VALUE !in rec.members
                 && rec.members.Keys - {TYPE, OID} == data.members.Keys
                 && forall k :: k in data.members ==> rec.members[k] == data.members[k]
               else VALUE in rec.members && rec.members[VALUE] == data
  {
    MarkersAreDistinct();
    var data := Write(heap, state, []).json;
    if state.Dict? {
      DictionaryJson(heap, state, []);
      assert SerializeRecord(heap, cls, oid, state) == Record(data.members, cls, oid);
      RecordHas(data.members, cls, oid);
    } else {
      assert SerializeRecord(heap, cls, oid, state) == Record(map[VALUE := data], cls, oid);
      RecordHas(map[VALUE := data], cls, oid);
    }
  }

  lemma {:induction false} ReadEntriesDependsOnMembers(registry: Registry, j: Json, j': Json, keys: seq<string>, st: State)
    requires j.JDict? && j'.JDict? && forall k :: k in keys ==> k in j.members && k in j'.members && j.members[k] == j'.members[k]
    ensures ReadEntries(registry, j, keys, st) == ReadEntries(registry, j', keys, st)
    decreases |keys|
  {
    if keys != [] {
      var first := Read(registry, j.members[keys[0]], st, true);
      if first.Done? {
        ReadEntriesDependsOnMembers(registry, j, j', keys[1..], first.value.1);
      }
    }
  }

  function WithStack(r: Outcome<(Value, State)>, stack: seq<Addr>): Outcome<(Value, State)> {
    if r.Raised? then Raised else Done((r.value.0, r.value.1.(stack := stack)))
  }

  lemma RecordWithoutFlag(registry: Registry, rec: Json, cls: string, st: State)
    requires !ReservedTypeName(cls) && cls in registry && registry[cls].PersistentClass?
    requires rec.JDict? && Text(rec.members, TYPE) == Done(cls) && Text(rec.members, OID).Done? && REFERENCE !in rec.members
    ensures Read(registry, rec, st, false) == ReadContent(registry, rec, st)
  {
  }

  /** Activating a ghost reads the state's own JSON, whatever its shape. */
  lemma LazyReadsTheState(registry: Registry, heap: Heap, cls: string, oid: string, state: Value, st: State)
    requires Recordable(registry, cls, oid, state)
    ensures var data := Write(heap, state, []).json;
            LazyState(registry, SerializeRecord(heap, cls, oid, state), st) ==
            WithStack(Read(registry, data, st.(stack := []), true), st.stack)
  {
    var rec := SerializeRecord(heap, cls, oid, state);
    var data := Write(heap, state, []).json;
    RecordParts(registry, heap, cls, oid, state);
    var st0 := st.(stack := []);
    RecordWithoutFlag(registry, rec, cls, st0);
    if state.Dict? {
      DictionaryJson(heap, state, []);
      ReadEntriesDependsOnMembers(registry, rec, data, Sorted(data.members.Keys), st0);
    }
  }

  /** Loading eagerly reads it too, but with `create` off at the top when the state is not a dictionary. */
  lemma EagerReadsTheState(registry: Registry, heap: Heap, cls: string, oid: string, state: Value, st: State)
    requires Recordable(registry, cls, oid, state)
    requires st.stack == []
    ensures var data := Write(heap, state, []).json;
            EagerState(registry, SerializeRecord(heap, cls, oid, state), st) ==
            WithStack(Read(registry, data, st, state.Dict?), [])
  {
    var rec := SerializeRecord(heap, cls, oid, state);
    var data := Write(heap, state, []).json;
    RecordParts(registry, heap, cls, oid, state);
    assert st.(stack := []) == st;
    if state.Dict? {
      DictionaryJson(heap, state, []);
      ReadEntriesDependsOnMembers(registry, rec, data, Sorted(data.members.Keys), st);
    }
  }

  /** A loaded state is isomorphic to the one stored. */
  ghost predicate LoadsBack(heap: Heap, state: Value, loaded: Outcome<(Value, State)>) {
    && loaded.Done?
    && exists t :: IsomorphicVia(heap, state, loaded.value.1.heap, loaded.value.0, Write(heap, state, []).slots, t)
  }

  /** What is stored for an object is what a ghost with its oid is given when it is activated. */
  lemma StoredStateLoadsBack(registry: Registry, classOf: ClassOf, heap: Heap, cls: string, oid: string, state: Value,
                             known: map<string, string>)
    requires SupportedGraph(registry, classOf, heap)
    requires Supported(registry, classOf, state) && MentionsOnly(state, heap.Keys)
    requires forall o :: o in known && o in classOf ==> known[o] == classOf[o]
    requires Recordable(registry, cls, oid, state)
    ensures LoadsBack(heap, state, LazyState(registry, SerializeRecord(heap, cls, oid, state), FreshReader(known)))
            <==> DistinctIds(heap, Elements(Write(heap, state, []).slots))
  {
    RoundTripsIffIdsAreDistinct(registry, classOf, heap, state, known);
    LazyReadsTheState(registry, heap, cls, oid, state, FreshReader(known));
  }

  // ---------- When the `create` flag matters at the top of a state ----------

  lemma FlagIgnoredByCollectionsAndNames(registry: Registry, typeName: string, content: Json, st: State)
    requires || typeName == SET_TYPE || typeName == FROZEN_SET_TYPE || typeName == TYPE_TYPE || typeName == FUNCTION_TYPE
             || (typeName == TUPLE_CLASS && TUPLE_CLASS in registry && registry[TUPLE_CLASS].TupleClass?)
    ensures Read(registry, Tagged(typeName, content), st, false) == Read(registry, Tagged(typeName, content), st, true)
  {
    MarkersAreDistinct();
    assert Text(Tagged(typeName, content).members, TYPE) == Done(typeName);
  }

  lemma FlagNeededByDateTimes(registry: Registry, iso: string, st: State)
    requires DATETIME_CLASS in registry && registry[DATETIME_CLASS].DateTimeClass?
    ensures Read(registry, Tagged(DATETIME_CLASS, JStr(iso)), st, false).Raised?
  {
    MarkersAreDistinct();
    assert Text(Tagged(DATETIME_CLASS, JStr(iso)).members, TYPE) == Done(DATETIME_CLASS);
  }

  lemma FlagNeededByReferences(registry: Registry, oid: string, cls: string, st: State)
    requires oid != "" && !ReservedTypeName(cls) && cls in registry && registry[cls].PersistentClass?
    ensures Read(registry, JDict(map[TYPE := JStr(cls), OID := JStr(oid), REFERENCE := JScalar(Bool(true))]), st, false).Raised?
  {
    MarkersAreDistinct();
    var j := JDict(map[TYPE := JStr(cls), OID := JStr(oid), REFERENCE := JScalar(Bool(true))]);
    assert Text(j.members, TYPE) == Done(cls) && Text(j.members, OID) == Done(oid);
    assert Truthy(j.members[OID]) && Truthy(j.members[REFERENCE]);
  }

  lemma WithoutFlagObjectsAreUnwrapped(registry: Registry, cls: string, content: Json, st: State)
    requires !ReservedTypeName(cls) && cls in registry && registry[cls].PlainClass?
    ensures Read(registry, Tagged(cls, content), st, false) == Read(registry, content, st, true)
  {
    MarkersAreDistinct();
    var j := Tagged(cls, content);
    assert Text(j.members, TYPE) == Done(cls);
    assert j.members[VALUE] == content && OID !in j.members;
    assert ReadContent(registry, j, st) == Read(registry, content, st, true);
    assert ReadInstance(registry, j, cls, st, false) == ReadContent(registry, j, st);
    assert Read(registry, j, st, false) == ReadInstance(registry, j, cls, st, false);
  }

  lemma FlagMattersForState(registry: Registry, classOf: ClassOf, heap: Heap, state: Value, st: State)
    requires SupportedGraph(registry, classOf, heap) && Supported(registry, classOf, state) && MentionsOnly(state, heap.Keys)
    requires !state.Dict? && !state.Obj?
    ensures var j := Write(heap, state, []).json;
            if state.DateTime? || state.Persisted? then Read(registry, j, st, false).Raised?
            else Read(registry, j, st, false) == Read(registry, j, st, true)
  {
    match state
    case DateTime(iso) => FlagNeededByDateTimes(registry, iso, st);
    case Persisted(oid, cls) => FlagNeededByReferences(registry, oid, cls, st);
    case Set(items) => FlagIgnoredByCollectionsAndNames(registry, SET_TYPE, JList(WriteAll(heap, items, []).elements), st);
    case FrozenSet(items) => FlagIgnoredByCollectionsAndNames(registry, FROZEN_SET_TYPE, JList(WriteAll(heap, items, []).elements), st);
    case Tuple(items) => FlagIgnoredByCollectionsAndNames(registry, TUPLE_CLASS, JList(WriteAll(heap, items, []).elements), st);
    case TypeName(name) => FlagIgnoredByCollectionsAndNames(registry, TYPE_TYPE, JStr(name), st);
    case FunctionName(name) => FlagIgnoredByCollectionsAndNames(registry, FUNCTION_TYPE, JStr(name), st);
    case _ =>
  }

  lemma UntaggedReadsAsDictionary(registry: Registry, j: Json, st: State)
    requires j.JDict? && TYPE !in j.members
    ensures var r := Read(registry, j, st, true);
            r.Done? ==> r.value.0.Dict?
  {
  }

  lemma FlagMattersForObject(registry: Registry, classOf: ClassOf, heap: Heap, a: Addr, st: State)
    requires a in heap && SupportedObject(registry, classOf, heap[a])
    ensures var r := Read(registry, Write(heap, Obj(a), []).json, st, false);
            r.Done? ==> !r.value.0.Obj?
  {
    var state := Dict(Kept(heap[a].attributes));
    WriteNewObject(heap, a, []);
    var content := Write(heap, state, [] + [a]).json;
    DictionaryJson(heap, state, [] + [a]);
    UntaggedReadsAsDictionary(registry, content, st);
    WithoutFlagObjectsAreUnwrapped(registry, heap[a].cls, content, st);
  }

  /** With the flag on, what a plain object was written as reads as a plain object, if at all. */
  lemma ObjectReadsAsObject(registry: Registry, cls: string, content: Json, st: State)
    requires !ReservedTypeName(cls) && cls in registry && registry[cls].PlainClass?
    ensures var r := Read(registry, Tagged(cls, content), st, true);
            r.Done? ==> r.value.0.Obj?
  {
    MarkersAreDistinct();
    var j := Tagged(cls, content);
    assert Text(j.members, TYPE) == Done(cls) && OID !in j.members;
    assert Read(registry, j, st, true) == ReadInstance(registry, j, cls, st, true);
  }

  lemma FlagMatters(registry: Registry, classOf: ClassOf, heap: Heap, state: Value, st: State)
    requires SupportedGraph(registry, classOf, heap) && Supported(registry, classOf, state) && MentionsOnly(state, heap.Keys)
    requires !state.Dict? && st.stack == []
    ensures var j := Write(heap, state, []).json;
            var without, full := Read(registry, j, st, false), Read(registry, j, st, true);
            && full.Done?
            && if state.DateTime? || state.Obj? || state.Persisted?
               then without.Done? ==> without.value.0 != full.value.0
               else without == full
  {
    ReadingNeverRaises(registry, classOf, heap, state, [], st);
    if state.Obj? {
      var a := state.addr;
      assert Mentions(state, a) && a in heap;
      FlagMattersForObject(registry, classOf, heap, a, st);
      ObjectReadsAsObject(registry, heap[a].cls, Write(heap, Dict(Kept(heap[a].attributes)), [] + [a]).json, st);
      WriteNewObject(heap, a, []);
    } else {
      FlagMattersForState(registry, classOf, heap, state, st);
    }
  }

  /**
   For every stored record and whatever the reader remembers: activating a ghost succeeds, and loading the
   record eagerly gives the same state exactly when the stored state is not, at its top, a datetime, a plain
   object or a reference to a persistent object.
   */
  lemma EagerMatchesLazyIff(registry: Registry, classOf: ClassOf, heap: Heap, cls: string, oid: string, state: Value, st: State)
    requires SupportedGraph(registry, classOf, heap)
    requires Supported(registry, classOf, state) && MentionsOnly(state, heap.Keys)
    requires Recordable(registry, cls, oid, state) && st.stack == []
    ensures var rec := SerializeRecord(heap, cls, oid, state);
            var eager, lazy := EagerState(registry, rec, st), LazyState(registry, rec, st);
            lazy.Done? && (eager == lazy <==> !(state.DateTime? || state.Obj? || state.Persisted?))
  {
    LazyReadsTheState(registry, heap, cls, oid, state, st);
    EagerReadsTheState(registry, heap, cls, oid, state, st);
    assert st.(stack := []) == st;
    if state.Dict? {
      ReadingNeverRaises(registry, classOf, heap, state, [], st);
    } else {
      FlagMatters(registry, classOf, heap, state, st);
    }
  }
}
