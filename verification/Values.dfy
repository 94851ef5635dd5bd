/**
 The values an object's state is made of, the plain (non-persistent) objects they point to, and the JSON
 they are flattened to.

 Lists, sets, tuples and dictionaries are values here: the serializer copies them at every occurrence.
 Plain objects have identity (an address), may be shared and may form cycles.
 */
module Values {
  import opened Common

  type Addr = nat

  datatype Scalar = Bool(b: bool) | Int(n: int) | Float(x: real) | Str(s: string)

  datatype Value =
    | Nothing
    | Plain(scalar: Scalar)
    | List(items: seq<Value>)
    | Set(items: seq<Value>)         // in iteration order
    | FrozenSet(items: seq<Value>)   // in iteration order
    | Dict(entries: map<string, Value>)
    | Tuple(items: seq<Value>)
    | DateTime(iso: string)
    | TypeName(name: string)
    | FunctionName(name: string)
    | Persisted(oid: string, cls: string)  // a reference to an object that has its own record
    | Obj(addr: Addr)

  datatype PlainObject = PlainObject(cls: string, attributes: map<string, Value>)

  type Heap = map<Addr, PlainObject>

  datatype Json =
    | JNull
    | JScalar(scalar: Scalar)
    | JList(elements: seq<Json>)
    | JDict(members: map<string, Json>)

  /** What the reader finds out about a name: the branches it takes on a class, or a function. */
  datatype Kind = DateTimeClass | TupleClass | PersistentClass | PlainClass(immutable: bool) | OtherClass | Function

  type Registry = map<string, Kind>

  const TYPE := "@renku_data_type"
  const VALUE := "@renku_data_value"
  const OID := "@renku_oid"
  const REFERENCE := "@renku_reference"

  const SET_TYPE := "set"
  const FROZEN_SET_TYPE := "frozenset"
  const TYPE_TYPE := "type"
  const FUNCTION_TYPE := "function"
  const REFERENCE_TYPE := "reference"
  const DATETIME_CLASS := "datetime.datetime"
  const TUPLE_CLASS := "builtins.tuple"

  predicate ReservedTypeName(name: string) {
    name == SET_TYPE || name == FROZEN_SET_TYPE || name == TYPE_TYPE || name == FUNCTION_TYPE || name == REFERENCE_TYPE
  }

  function JStr(s: string): Json {
    JScalar(Str(s))
  }

  function Tagged(typeName: string, value: Json): Json {
    JDict(map[TYPE := JStr(typeName), VALUE := value])
  }

  lemma MarkersAreDistinct()
    ensures TYPE != VALUE && TYPE != OID && TYPE != REFERENCE && VALUE != OID && VALUE != REFERENCE && OID != REFERENCE
    ensures !ReservedTypeName(DATETIME_CLASS) && !ReservedTypeName(TUPLE_CLASS) && DATETIME_CLASS != TUPLE_CLASS
    ensures SET_TYPE != FROZEN_SET_TYPE && SET_TYPE != TYPE_TYPE && SET_TYPE != FUNCTION_TYPE && SET_TYPE != REFERENCE_TYPE
    ensures FROZEN_SET_TYPE != TYPE_TYPE && FROZEN_SET_TYPE != FUNCTION_TYPE && FROZEN_SET_TYPE != REFERENCE_TYPE
    ensures TYPE_TYPE != FUNCTION_TYPE && TYPE_TYPE != REFERENCE_TYPE && FUNCTION_TYPE != REFERENCE_TYPE
  {
    assert TYPE[7] == 'd' && VALUE[7] == 'd' && OID[7] == 'o' && REFERENCE[7] == 'r';
    assert TYPE[12] == 't' && VALUE[12] == 'v';
    assert |SET_TYPE| == 3 && |FROZEN_SET_TYPE| == 9 && |TYPE_TYPE| == 4 && |FUNCTION_TYPE| == 8 && |REFERENCE_TYPE| == 9;
    assert FROZEN_SET_TYPE[0] == 'f' && REFERENCE_TYPE[0] == 'r';
    assert |DATETIME_CLASS| == 17 && |TUPLE_CLASS| == 14;
  }

  /** The attributes the writer keeps: those whose name does not start with `_v_`. */
  function Kept(attributes: map<string, Value>): map<string, Value> {
    map name | name in attributes && !("_v_" <= name) :: attributes[name]
  }

  /** Whether a plain object occurs in a value without going through another plain object. */
  ghost predicate Mentions(v: Value, a: Addr)
    decreases v
  {
    match v
    case List(items) => exists i :: 0 <= i < |items| && Mentions(items[i], a)
    case Set(items) => exists i :: 0 <= i < |items| && Mentions(items[i], a)
    case FrozenSet(items) => exists i :: 0 <= i < |items| && Mentions(items[i], a)
    case Tuple(items) => exists i :: 0 <= i < |items| && Mentions(items[i], a)
    case Dict(entries) => exists k :: k in entries && Mentions(entries[k], a)
    case Obj(b) => a == b
    case _ => false
  }

  ghost predicate MentionsOnly(v: Value, addrs: set<Addr>) {
    forall a :: Mentions(v, a) ==> a in addrs
  }

  /** `addrs` contains everything its own objects refer to. */
  ghost predicate Closed(heap: Heap, addrs: set<Addr>) {
    && addrs <= heap.Keys
    && forall a :: a in addrs ==> MentionsOnly(Dict(Kept(heap[a].attributes)), addrs)
  }
}
