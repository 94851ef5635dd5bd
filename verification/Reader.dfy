/** `ObjectReader`: rebuilding a value, and the plain objects it points to, from JSON. */
module Reader {
  import opened Common
  import opened Values

  /** A plain object under construction: it exists, and can be referred to, before its attributes are set. */
  datatype Cell = Blank | Built(made: PlainObject)

  /**
   What the reader works on. Addresses of plain objects are positions in `heap`; `stack` is its list of
   objects met so far; `known` gives the class of every persistent object that has an entry in the
   database's cache; `normal` and `instances` are the two caches that merge objects by their `id`.
   */
  datatype State = State(heap: seq<Cell>, stack: seq<Addr>, known: map<string, string>,
                         normal: map<string, Addr>, instances: map<Value, Addr>)

  predicate Hashable(v: Value)
    decreases v
  {
    match v
    case List(_) => false
    case Set(_) => false
    case Dict(_) => false
    case Tuple(items) => forall i :: 0 <= i < |items| ==> Hashable(items[i])
    case _ => true
  }

  /** Building a set from elements in order: an element equal to an earlier one is dropped. */
  function Distinct(items: seq<Value>): (r: seq<Value>)
    ensures forall x :: x in r <==> x in items
    ensures NoDuplicates(r)
    ensures NoDuplicates(items) ==> r == items
  {
    if items == [] then [] else
      var front := Distinct(items[..|items| - 1]);
      var last := items[|items| - 1];
      assert items == items[..|items| - 1] + [last];
      if last in front then front else front + [last]
  }

  function IdOf(attributes: map<string, Value>): Value {
    if "id" in attributes then attributes["id"] else Nothing
  }

  /** The ids under which the reader remembers plain objects. */
  predicate Cacheable(id: Value) {
    id.Plain? && id.scalar.Str? && "/" <= id.scalar.s
  }

  predicate Truthy(j: Json) {
    match j
    case JNull => false
    case JScalar(Bool(b)) => b
    case JScalar(Int(n)) => n != 0
    case JScalar(Float(x)) => x != 0.0
    case JScalar(Str(s)) => s != ""
    case JList(elements) => elements != []
    case JDict(members) => members != map[]
  }

  /** A member that must be a string. */
  function Text(members: map<string, Json>, key: string): Outcome<string> {
    if key in members && members[key].JScalar? && members[key].scalar.Str?
    then Done(members[key].scalar.s)
    else Raised
  }

  /** The class or function a name stands for. */
  function Resolve(registry: Registry, name: string): Outcome<Value> {
    if name !in registry then Raised
    else if registry[name].Function? then Done(FunctionName(name))
    else Done(TypeName(name))
  }

  /** A back-reference: a position on the stack, counted from the end when negative. */
  function BackReference(members: map<string, Json>, stack: seq<Addr>): Outcome<Value> {
    if VALUE in members && members[VALUE].JScalar? && members[VALUE].scalar.Int? then
      var n := members[VALUE].scalar.n;
      if 0 <= n < |stack| then Done(Obj(stack[n]))
      else if -|stack| <= n < 0 then Done(Obj(stack[|stack| + n]))
      else Raised
    else
      Raised
  }

  /** Resolving a reference to a persistent object: the cached object if there is one, else a new ghost. */
  function PersistentReference(kind: Kind, cls: string, oid: string, st: State): Outcome<(Value, State)> {
    if oid in st.known then Done((Persisted(oid, st.known[oid]), st))
    else if kind.PersistentClass? then Done((Persisted(oid, cls), st.(known := st.known[oid := cls])))
    else Raised
  }

  /** A new, still blank object goes on the heap and on the stack. */
  function Allocate(st: State): State {
    st.(heap := st.heap + [Blank], stack := st.stack + [|st.heap|])
  }

  /**
   The last part of reading a plain object, once its attributes are known: an earlier object with the same
   `id` takes its place; otherwise it gets its attributes, and is remembered under its `id`.
   */
  function Finish(cls: string, immutable: bool, attributes: Value, index: nat, self: Addr, st: State): Outcome<(Value, State)>
    requires index < |st.stack| && self < |st.heap|
  {
    if !attributes.Dict? then Raised
    else
      var id := IdOf(attributes.entries);
      if !Hashable(id) then Raised
      else if "id" in attributes.entries && id.Plain? && id.scalar.Str? && id.scalar.s in st.normal then
        var existing := st.normal[id.scalar.s];
        Done((Obj(existing), st.(stack := st.stack[index := existing])))
      else
        var heap := st.heap[self := Built(PlainObject(cls, attributes.entries))];
        var replaced := immutable && id in st.instances;
        var result := if replaced then st.instances[id] else self;
        var instances := if immutable && !replaced && id != Nothing then st.instances[id := self] else st.instances;
        var normal := if Cacheable(id) then st.normal[id.scalar.s := result] else st.normal;
        Done((Obj(result), st.(heap := heap, instances := instances, normal := normal)))
  }

  predicate Extends(before: State, after: State) {
    |before.stack| <= |after.stack| && |before.heap| <= |after.heap|
  }

  /** `_deserialize_helper`; `create` is false only for the state of a record. */
  function Read(registry: Registry, j: Json, st: State, create: bool): (r: Outcome<(Value, State)>)
    ensures r.Done? ==> Extends(st, r.value.1)
    decreases j, 3
  {
    match j
    case JNull => Done((Nothing, st))
    case JScalar(scalar) => Done((Plain(scalar), st))
    case JList(elements) =>
      var (items, st1) :- ReadAll(registry, elements, st);
      Done((List(items), st1))
    case JDict(members) =>
      if TYPE !in members then
        if OID in members then Raised else
          var (entries, st1) :- ReadEntries(registry, j, Sorted(members.Keys), st);
          Done((Dict(entries), st1))
      else
        var typeName :- Text(members, TYPE);
        if typeName == TYPE_TYPE || typeName == FUNCTION_TYPE then
          var name :- Text(members, VALUE);
          var v :- Resolve(registry, name);
          Done((v, st))
        else if typeName == REFERENCE_TYPE then
          var v :- BackReference(members, st.stack);
          Done((v, st))
        else if typeName == SET_TYPE || typeName == FROZEN_SET_TYPE then
          if VALUE !in members || !members[VALUE].JList? then Raised else
            var (items, st1) :- ReadAll(registry, members[VALUE].elements, st);
            if exists i :: 0 <= i < |items| && !Hashable(items[i]) then Raised
            else if typeName == SET_TYPE then Done((Set(Distinct(items)), st1))
            else Done((FrozenSet(Distinct(items)), st1))
        else if typeName !in registry then
          Raised
        else
          ReadInstance(registry, j, typeName, st, create)
  }

  /** The branches taken on the class an instance belongs to. */
  function ReadInstance(registry: Registry, j: Json, cls: string, st: State, create: bool): (r: Outcome<(Value, State)>)
    requires j.JDict? && cls in registry
    ensures r.Done? ==> Extends(st, r.value.1)
    decreases j, 2
  {
    var members := j.members;
    var kind := registry[cls];
    if kind.DateTimeClass? then
      if !create then Raised else
        var iso :- Text(members, VALUE);
        Done((DateTime(iso), st))
    else if kind.TupleClass? then
      if VALUE !in members || !members[VALUE].JList? then Raised else
        var (items, st1) :- ReadAll(registry, members[VALUE].elements, st);
        Done((Tuple(items), st1))
    else if OID in members && Truthy(members[OID]) && Text(members, OID).Raised? then
      Raised
    else if OID in members && Truthy(members[OID]) && REFERENCE in members && Truthy(members[REFERENCE]) then
      if create then PersistentReference(kind, cls, members[OID].scalar.s, st) else Raised
    else if !create then
      ReadContent(registry, j, st)
    else if kind.PlainClass? then
      var (attributes, st1) :- ReadContent(registry, j, Allocate(st));
      Finish(cls, kind.immutable, attributes, |st.stack|, |st.heap|, st1)
    else
      Raised
  }

  /** The payload of a tagged dictionary: its value member, or else all members that are not markers. */
  function ReadContent(registry: Registry, j: Json, st: State): (r: Outcome<(Value, State)>)
    requires j.JDict?
    ensures r.Done? ==> Extends(st, r.value.1)
    decreases j, 1
  {
    if VALUE in j.members then
      Read(registry, j.members[VALUE], st, true)
    else
      var (entries, st1) :- ReadEntries(registry, j, Sorted(j.members.Keys - {TYPE, OID}), st);
      Done((Dict(entries), st1))
  }

  function ReadAll(registry: Registry, elements: seq<Json>, st: State): (r: Outcome<(seq<Value>, State)>)
    ensures r.Done? ==> |r.value.0| == |elements| && Extends(st, r.value.1)
    decreases elements
  {
    if elements == [] then Done(([], st)) else
      var (first, st1) :- Read(registry, elements[0], st, true);
      var (rest, st2) :- ReadAll(registry, elements[1..], st1);
      Done(([first] + rest, st2))
  }

  function ReadEntries(registry: Registry, j: Json, keys: seq<string>, st: State): (r: Outcome<(map<string, Value>, State)>)
    requires j.JDict? && forall k :: k in keys ==> k in j.members
    ensures r.Done? ==> r.value.0.Keys == (set k | k in keys) && Extends(st, r.value.1)
    decreases j, 0, |keys|
  {
    if keys == [] then Done((map[], st)) else
      var (first, st1) :- Read(registry, j.members[keys[0]], st, true);
      var (rest, st2) :- ReadEntries(registry, j, keys[1..], st1);
      Done((map[keys[0] := first] + rest, st2))
  }

  // ---------- Whole records ----------

  /** `set_ghost_state`: the state is read with a stack of its own, and the previous stack comes back. */
  function GhostState(registry: Registry, j: Json, st: State): Outcome<(Value, State)> {
    var (v, st1) :- Read(registry, j, st.(stack := []), false);
    Done((v, st1.(stack := st.stack)))
  }

  /** What a ghost is given when it is activated: the whole record is read as a state. */
  function LazyState(registry: Registry, rec: Json, st: State): Outcome<(Value, State)> {
    GhostState(registry, rec, st)
  }

  /** What `deserialize` gives a new object: the branches a record of a persistent class takes. */
  function EagerState(registry: Registry, rec: Json, st: State): Outcome<(Value, State)> {
    if !rec.JDict? then Raised
    else
      var oid :- Text(rec.members, OID);
      var cls :- Text(rec.members, TYPE);
      if ReservedTypeName(cls) || cls !in registry || !registry[cls].PersistentClass? then Raised
      else if oid != "" && REFERENCE in rec.members && Truthy(rec.members[REFERENCE]) then Raised  // not a record
      else if VALUE in rec.members then
        GhostState(registry, rec.members[VALUE], st.(stack := []))
      else
        var (entries, st1) :- ReadEntries(registry, rec, Sorted(rec.members.Keys - {TYPE, OID}), st.(stack := []));
        Done((Dict(entries), st1.(stack := [])))
  }

  lemma {:induction false} ReadAllSnoc(registry: Registry, elements: seq<Json>, last: Json, st: State)
    ensures var front := ReadAll(registry, elements, st);
            var all := ReadAll(registry, elements + [last], st);
            if front.Raised? then all.Raised?
            else var end := Read(registry, last, front.value.1, true);
              if end.Raised? then all.Raised? else all == Done((front.value.0 + [end.value.0], end.value.1))
    decreases |elements|
  {
    if elements == [] {
      assert [] + [last] == [last] && [last][1..] == [];
      var end := Read(registry, last, st, true);
      if end.Done? {
        assert [end.value.0] + [] == [] + [end.value.0];
      }
    } else {
      assert (elements + [last])[0] == elements[0] && (elements + [last])[1..] == elements[1..] + [last];
      var first := Read(registry, elements[0], st, true);
      if first.Done? {
        ReadAllSnoc(registry, elements[1..], last, first.value.1);
        var rest := ReadAll(registry, elements[1..], first.value.1);
        if rest.Done? {
          var end := Read(registry, last, rest.value.1, true);
          if end.Done? {
            ConcatAssociates([first.value.0], rest.value.0, [end.value.0]);
          }
        }
      }
    }
  }

  lemma {:induction false} ReadEntriesSnoc(registry: Registry, j: Json, keys: seq<string>, last: string, st: State)
    requires j.JDict? && last in j.members && forall k :: k in keys ==> k in j.members
    ensures var front := ReadEntries(registry, j, keys, st);
            var all := ReadEntries(registry, j, keys + [last], st);
            if front.Raised? then all.Raised?
            else var end := Read(registry, j.members[last], front.value.1, true);
              if end.Raised? then all.Raised? else all == Done((front.value.0[last := end.value.0], end.value.1))
    decreases |keys|
  {
    if keys == [] {
      assert [] + [last] == [last] && [last][1..] == [];
      var end := Read(registry, j.members[last], st, true);
      if end.Done? {
        assert map[last := end.value.0] + map[] == map[][last := end.value.0];
      }
    } else {
      assert (keys + [last])[0] == keys[0] && (keys + [last])[1..] == keys[1..] + [last];
      var first := Read(registry, j.members[keys[0]], st, true);
      if first.Done? {
        ReadEntriesSnoc(registry, j, keys[1..], last, first.value.1);
        var rest := ReadEntries(registry, j, keys[1..], first.value.1);
        if rest.Done? {
          var end := Read(registry, j.members[last], rest.value.1, true);
          if end.Done? {
            MergeThenUpdate(map[keys[0] := first.value.0], rest.value.0, last, end.value.0);
          }
        }
      }
    }
  }

  /** Reading stops at the first element that raises. */
  lemma {:induction false} ReadAllStops(registry: Registry, elements: seq<Json>, i: nat, st: State)
    requires i <= |elements| && ReadAll(registry, elements[..i], st).Raised?
    ensures ReadAll(registry, elements, st).Raised?
    decreases |elements| - i
  {
    if i < |elements| {
      TakeNext(elements, i);
      ReadAllSnoc(registry, elements[..i], elements[i], st);
      ReadAllStops(registry, elements, i + 1, st);
    } else {
      assert elements[..i] == elements;
    }
  }

  lemma {:induction false} ReadEntriesStops(registry: Registry, j: Json, keys: seq<string>, i: nat, st: State)
    requires j.JDict? && forall k :: k in keys ==> k in j.members
    requires i <= |keys| && ReadEntries(registry, j, keys[..i], st).Raised?
    ensures ReadEntries(registry, j, keys, st).Raised?
    decreases |keys| - i
  {
    if i < |keys| {
      TakeNext(keys, i);
      ReadEntriesSnoc(registry, j, keys[..i], keys[i], st);
      ReadEntriesStops(registry, j, keys, i + 1, st);
    } else {
      assert keys[..i] == keys;
    }
  }

  /** The reader, with the objects it has made, its stack of objects met, and its two id caches. */
  class ObjectReader {
    const registry: Registry
    var heap: seq<Cell>
    var stack: seq<Addr>
    var known: map<string, string>
    var normal: map<string, Addr>
    var instances: map<Value, Addr>

    function Current(): State
      reads this
    {
      State(heap, stack, known, normal, instances)
    }

    constructor (registry: Registry)
      ensures this.registry == registry && Current() == State([], [], map[], map[], map[])
    {
      this.registry := registry;
      heap, stack, known, normal, instances := [], [], map[], map[], map[];
    }

    ghost predicate Follows(spec: Outcome<(Value, State)>, r: Outcome<Value>)
      reads this
    {
      && (r.Done? <==> spec.Done?)
      && (r.Done? ==> r.value == spec.value.0 && Current() == spec.value.1)
    }

    method SetGhostState(rec: Json) returns (r: Outcome<Value>)
      modifies this
      ensures Follows(old(LazyState(registry, rec, Current())), r)
    {
      var previous := stack;
      stack := [];
      r := DeserializeHelper(rec, false);
      stack := previous;
    }

    method DeserializeHelper(j: Json, create: bool) returns (r: Outcome<Value>)
      modifies this
      ensures Follows(old(Read(registry, j, Current(), create)), r)
      decreases j, 3
    {
      match j
      case JNull => return Done(Nothing);
      case JScalar(scalar) => return Done(Plain(scalar));
      case JList(_) =>
        var items := DeserializeItems(j);
        return if items.Done? then Done(List(items.value)) else Raised;
      case JDict(members) =>
        if TYPE !in members {
          if OID in members {
            return Raised;
          }
          r := DeserializeEntries(j, members.Keys);
          return;
        }
        if Text(members, TYPE).Raised? {
          return Raised;
        }
        var typeName := members[TYPE].scalar.s;
        if typeName == TYPE_TYPE || typeName == FUNCTION_TYPE {
          var name := Text(members, VALUE);
          return if name.Done? then Resolve(registry, name.value) else Raised;
        } else if typeName == REFERENCE_TYPE {
          return BackReference(members, stack);
        } else if typeName == SET_TYPE || typeName == FROZEN_SET_TYPE {
          if VALUE !in members || !members[VALUE].JList? {
            return Raised;
          }
          var items := DeserializeItems(members[VALUE]);
          if items.Raised? || exists i :: 0 <= i < |items.value| && !Hashable(items.value[i]) {
            return Raised;
          }
          return Done(if typeName == SET_TYPE then Set(Distinct(items.value)) else FrozenSet(Distinct(items.value)));
        } else if typeName !in registry {
          return Raised;
        }
        r := DeserializeInstance(j, typeName, create);
    }

    method DeserializeInstance(j: Json, cls: string, create: bool) returns (r: Outcome<Value>)
      requires j.JDict? && cls in registry
      modifies this
      ensures Follows(old(ReadInstance(registry, j, cls, Current(), create)), r)
      decreases j, 2
    {
      var members := j.members;
      var kind := registry[cls];
      if kind.DateTimeClass? {
        var iso := Text(members, VALUE);
        return if create && iso.Done? then Done(DateTime(iso.value)) else Raised;
      } else if kind.TupleClass? {
        if VALUE !in members || !members[VALUE].JList? {
          return Raised;
        }
        var items := DeserializeItems(members[VALUE]);
        return if items.Done? then Done(Tuple(items.value)) else Raised;
      }
      if OID in members && Truthy(members[OID]) {
        var oid := Text(members, OID);
        if oid.Raised? {
          return Raised;
        }
        if REFERENCE in members && Truthy(members[REFERENCE]) {
          if !create {
            return Raised;
          }
          if oid.value in known {
            return Done(Persisted(oid.value, known[oid.value]));
          }
          if !kind.PersistentClass? {
            return Raised;
          }
          known := known[oid.value := cls];
          return Done(Persisted(oid.value, cls));
        }
      }
      if !create {
        r := DeserializeContent(j);
      } else if kind.PlainClass? {
        r := DeserializeObject(j, cls, kind.immutable);
      } else {
        r := Raised;
      }
    }

    method DeserializeObject(j: Json, cls: string, immutable: bool) returns (r: Outcome<Value>)
      requires j.JDict?
      modifies this
      ensures var content := old(ReadContent(registry, j, Allocate(Current())));
              Follows(if content.Raised? then Raised
                      else Finish(cls, immutable, content.value.0, |old(stack)|, |old(heap)|, content.value.1), r)
      decreases j, 1, 1
    {
      var self := |heap|;
      heap := heap + [Blank];
      stack := stack + [self];
      var index := |stack| - 1;
      var data := DeserializeContent(j);
      if data.Raised? || !data.value.Dict? {
        return Raised;
      }
      r := FinishObject(cls, immutable, data.value.entries, index, self);
    }

    /** Once the attributes are read: the object remembered under the id, or this one. */
    method FinishObject(cls: string, immutable: bool, attributes: map<string, Value>, index: nat, self: Addr) returns (r: Outcome<Value>)
      requires index < |stack| && self < |heap|
      modifies this
      ensures Follows(old(Finish(cls, immutable, Dict(attributes), index, self, Current())), r)
    {
      var id := IdOf(attributes);
      if !Hashable(id) {
        return Raised;
      }
      if "id" in attributes && id.Plain? && id.scalar.Str? && id.scalar.s in normal {
        var existing := normal[id.scalar.s];
        stack := stack[index := existing];
        return Done(Obj(existing));
      }
      heap := heap[self := Built(PlainObject(cls, attributes))];
      var result := self;
      if immutable {
        if id in instances {
          result := instances[id];
        } else if id != Nothing {
          instances := instances[id := self];
        }
      }
      if Cacheable(id) {
        normal := normal[id.scalar.s := result];
      }
      return Done(Obj(result));
    }

    method DeserializeContent(j: Json) returns (r: Outcome<Value>)
      requires j.JDict?
      modifies this
      ensures Follows(old(ReadContent(registry, j, Current())), r)
      decreases j, 1, 0
    {
      if VALUE in j.members {
        r := DeserializeHelper(j.members[VALUE], true);
      } else {
        r := DeserializeEntries(j, j.members.Keys - {TYPE, OID});
      }
    }

    method DeserializeItems(j: Json) returns (r: Outcome<seq<Value>>)
      requires j.JList?
      modifies this
      ensures var spec := old(ReadAll(registry, j.elements, Current()));
              && (r.Done? <==> spec.Done?)
              && (r.Done? ==> r.value == spec.value.0 && Current() == spec.value.1)
      decreases j, 0
    {
      var elements := j.elements;
      var items := [];
      ghost var before := Current();
      for i := 0 to |elements|
        invariant ReadAll(registry, elements[..i], before) == Done((items, Current()))
      {
        TakeNext(elements, i);
        ReadAllSnoc(registry, elements[..i], elements[i], before);
        var item := DeserializeHelper(elements[i], true);
        if item.Raised? {
          ReadAllStops(registry, elements, i + 1, before);
          return Raised;
        }
        items := items + [item.value];
      }
      assert elements[..|elements|] == elements;
      return Done(items);
    }

    method DeserializeEntries(j: Json, keySet: set<string>) returns (r: Outcome<Value>)
      requires j.JDict? && keySet <= j.members.Keys
      modifies this
      ensures var spec := old(ReadEntries(registry, j, Sorted(keySet), Current()));
              && (r.Done? <==> spec.Done?)
              && (r.Done? ==> r.value == Dict(spec.value.0) && Current() == spec.value.1)
      decreases j, 0
    {
      var keys := Sorted(keySet);
      var entries: map<string, Value> := map[];
      ghost var before := Current();
      for i := 0 to |keys|
        invariant ReadEntries(registry, j, keys[..i], before) == Done((entries, Current()))
      {
        TakeNext(keys, i);
        ReadEntriesSnoc(registry, j, keys[..i], keys[i], before);
        var entry := DeserializeHelper(j.members[keys[i]], true);
        if entry.Raised? {
          ReadEntriesStops(registry, j, keys, i + 1, before);
          return Raised;
        }
        entries := entries[keys[i] := entry.value];
      }
      assert keys[..|keys|] == keys;
      return Done(Dict(entries));
    }
  }
}
