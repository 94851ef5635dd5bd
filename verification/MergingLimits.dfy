/** Where merging by id goes wrong: caches that disagree, and a cycle through an object that is replaced. */
module MergingLimits {
  import opened Common
  import opened Values
  import opened Writer
  import opened Reader
  import opened RoundTrip
  import opened Isomorphism
  import opened Merging
  import opened MergedReads

  // ---------- Caches that disagree ----------

  /** An immutable object whose id has an instance already, which the reader itself has not read. */
  predicate HasOtherInstance(immutable: bool, attributes: map<string, Value>, self: Addr, st: State) {
    var id := IdOf(attributes);
    && immutable && id in st.instances && st.instances[id] != self
    && !(id.Plain? && id.scalar.Str? && id.scalar.s in st.normal)
  }

  /**
   What an object is read as is what later references to it give exactly if it has no other instance: the
   position of an immutable object is not changed when another instance is returned for it.
   */
  lemma StandsForWhatIsReadIff(cls: string, immutable: bool, attributes: map<string, Value>, index: nat, self: Addr, st: State)
    requires index < |st.stack| && st.stack[index] == self && self < |st.heap| && Hashable(IdOf(attributes))
    ensures var r := Finish(cls, immutable, Dict(attributes), index, self, st);
            && r.Done? && index < |r.value.1.stack|
            && (r.value.0 == Obj(r.value.1.stack[index]) <==> !HasOtherInstance(immutable, attributes, self, st))
  {
  }

  /** A reader that has read nothing, in a process that has an instance with the id. */
  function OtherInstance(): State {
    State([Built(PlainObject("C", map["id" := Plain(Str("/p"))]))], [], map[], map[], map[Plain(Str("/p")) := 0])
  }

  function ImmutableClasses(): Registry {
    map[DATETIME_CLASS := DateTimeClass, TUPLE_CLASS := TupleClass, "C" := PlainClass(true)]
  }

  lemma SortedSingleton(k: string)
    ensures Sorted({k}) == [k]
  {
    assert |{k}| == 1 && Sorted({k})[0] in Sorted({k});
  }

  lemma ReadsOneEntry(registry: Registry, members: map<string, Json>, key: string, st: State, v: Value)
    requires key in members && Read(registry, members[key], st, true) == Done((v, st))
    ensures ReadEntries(registry, JDict(members), [key], st) == Done((map[key := v], st))
  {
    var keys := [key];
    assert keys[1..] == [];
    assert ReadEntries(registry, JDict(members), keys[1..], st) == Done((map[], st));
    assert map[key := v] + map[] == map[key := v];
  }

  lemma ReadsId(registry: Registry, id: string, st: State)
    ensures Read(registry, JDict(map["id" := JStr(id)]), st, true) == Done((Dict(map["id" := Plain(Str(id))]), st))
  {
    var members := map["id" := JStr(id)];
    assert TYPE[0] == '@' && OID[0] == '@' && "id"[0] == 'i';
    assert members.Keys == {"id"};
    SortedSingleton("id");
    ReadsOneEntry(registry, members, "id", st, Plain(Str(id)));
    ReadPlainDict(registry, members, st);
  }

  /** A list of an immutable object and a reference back to it: the reference gives another object. */
  lemma OtherInstanceIsReadOnce(elements: seq<Json>)
    requires elements == [Tagged("C", JDict(map["id" := JStr("/p")])), Tagged(REFERENCE_TYPE, JScalar(Int(0)))]
    ensures var r := Read(ImmutableClasses(), JList(elements), OtherInstance(), true);
            r.Done? && r.value.0 == List([Obj(0), Obj(1)])
  {
    var registry, st := ImmutableClasses(), OtherInstance();
    var attributes := map["id" := Plain(Str("/p"))];
    assert |"C"| == 1;
    MarkersAreDistinct();
    ReadTaggedObject(registry, "C", JDict(map["id" := JStr("/p")]), st);
    ReadsId(registry, "/p", Allocate(st));
    var r := Finish("C", true, Dict(attributes), 0, 1, Allocate(st));
    assert IdOf(attributes) == Plain(Str("/p"));
    StandsForWhatIsReadIff("C", true, attributes, 0, 1, Allocate(st));
    var st1 := r.value.1;
    assert r.value.0 == Obj(0) && st1.stack == [1];
    assert Read(registry, elements[0], st, true) == Done((Obj(0), st1));
    ReadTaggedPosition(registry, 0, st1);
    assert elements[1..] == [elements[1]] && elements[1..][1..] == [];
    assert ReadAll(registry, elements[1..], st1) == Done(([Obj(1)] + [], st1));
    assert ReadAll(registry, elements, st) == Done(([Obj(0)] + ([Obj(1)] + []), st1));
    assert [Obj(0)] + ([Obj(1)] + []) == [Obj(0), Obj(1)];
  }

  // ---------- A cycle through an object that is replaced ----------

  function Parent(): PlainObject {
    PlainObject("C", map["id" := Plain(Str("/p")), "child" := Obj(1)])
  }

  function Child(): PlainObject {
    PlainObject("C", map["parent" := Obj(0)])
  }

  function Family(): Heap {
    map[0 := Parent(), 1 := Child()]
  }

  function ParentAndChild(): Value {
    List([Obj(0), Obj(1)])
  }

  /** The reader remembers an object with the id of the parent. */
  function ParentIsRemembered(): State {
    State([Built(PlainObject("C", map["id" := Plain(Str("/p"))]))], [], map[], map["/p" := 0], map[])
  }

  lemma FamilyIsKept()
    ensures Kept(Parent().attributes) == Parent().attributes && Kept(Child().attributes) == Child().attributes
    ensures HasId(Family(), 0, "/p") && forall id :: !HasId(Family(), 1, id)
    ensures forall a :: Mentions(Dict(Parent().attributes), a) <==> a == 1
    ensures forall a :: Mentions(Dict(Child().attributes), a) <==> a == 0
  {
    var parent, child := Parent().attributes, Child().attributes;
    assert "_v_"[0] == '_' && "id"[0] == 'i' && "child"[0] == 'c' && "parent"[0] == 'p';
    assert Kept(parent) == parent && Kept(child) == child;
    assert IdOf(child) == Nothing;
    assert Mentions(parent["child"], 1) && Mentions(child["parent"], 0);
  }

  lemma ClassIsPlain()
    ensures !ReservedTypeName("C") && "C" in TwinClasses() && TwinClasses()["C"] == PlainClass(false)
  {
    assert |"C"| == 1 && |DATETIME_CLASS| > 1 && |TUPLE_CLASS| > 1 && |SET_TYPE| > 1 && |FROZEN_SET_TYPE| > 1;
    assert |TYPE_TYPE| > 1 && |FUNCTION_TYPE| > 1 && |REFERENCE_TYPE| > 1;
  }

  lemma ParentIsSupported()
    ensures SupportedObject(TwinClasses(), map[], Parent())
  {
    FamilyIsKept();
    ClassIsPlain();
    assert TYPE[0] == '@' && OID[0] == '@' && "id"[0] == 'i' && "child"[0] == 'c';
    assert Supported(TwinClasses(), map[], Dict(Parent().attributes));
  }

  lemma ChildIsSupported()
    ensures SupportedObject(TwinClasses(), map[], Child())
  {
    FamilyIsKept();
    ClassIsPlain();
    assert TYPE[0] == '@' && OID[0] == '@' && "parent"[0] == 'p';
    assert IdOf(Child().attributes) == Nothing;
    assert Supported(TwinClasses(), map[], Dict(Child().attributes));
  }

  lemma PairMentions(a: Addr, b: Addr, addrs: set<Addr>)
    requires a in addrs && b in addrs
    ensures MentionsOnly(List([Obj(a), Obj(b)]), addrs)
  {
  }

  lemma FamilyIsGrounded()
    ensures Grounded(Family()) && MentionsOnly(ParentAndChild(), Family().Keys)
  {
    FamilyIsKept();
    PairMentions(0, 1, Family().Keys);
  }

  lemma FamilyIsSupported()
    ensures SupportedGraph(TwinClasses(), map[], Family())
  {
    ParentIsSupported();
    ChildIsSupported();
    FamilyIsGrounded();
    assert |DATETIME_CLASS| == 17 && |TUPLE_CLASS| == 14 && |"C"| == 1;
  }

  lemma PairIsSupported(a: Addr, b: Addr)
    ensures Supported(TwinClasses(), map[], List([Obj(a), Obj(b)]))
  {
    assert Supported(TwinClasses(), map[], Obj(a)) && Supported(TwinClasses(), map[], Obj(b));
  }

  lemma ThirdIsOther(s: seq<Addr>, a: Addr, b: Addr)
    requires NoDuplicates(s)
    ensures 3 <= |s| ==> exists k :: 0 <= k < 3 && s[k] != a && s[k] != b
  {
    if 3 <= |s| {
      var k := if s[0] != a && s[0] != b then 0 else if s[1] != a && s[1] != b then 1 else 2;
      assert s[k] != a && s[k] != b;
    }
  }

  lemma OnlyTwo(s: seq<Addr>, a: Addr, b: Addr)
    requires NoDuplicates(s) && s != [] && s[0] == a && b in s && a != b && forall k :: 0 <= k < |s| ==> s[k] == a || s[k] == b
    ensures s == [a, b]
  {
    ThirdIsOther(s, a, b);
  }

  lemma FirstIsMetFirst(heap: Heap, a: Addr)
    requires a in heap
    ensures var s := Write(heap, Obj(a), []).slots; s != [] && s[0] == a
  {
    WriteNewObject(heap, a, []);
    LastOfPrefix([], a, Write(heap, Obj(a), []).slots);
  }

  lemma ReachedIsMet(heap: Heap, a: Addr, b: Addr, s: seq<Addr>)
    requires s != [] && s[0] == a && a in heap && Mentions(Dict(Kept(heap[a].attributes)), b)
    requires ClosedSince(heap, [], s)
    ensures b in s && forall k :: 0 <= k < |s| ==> s[k] in heap
  {
    assert MentionsOnly(Dict(Kept(heap[s[0]].attributes)), Elements(s));
    assert b in Elements(s);
  }

  lemma ObjectReaches(heap: Heap, a: Addr, s: seq<Addr>)
    requires Grounded(heap) && a in heap && s == Write(heap, Obj(a), []).slots
    ensures ClosedSince(heap, [], s) && NoDuplicates(s)
  {
    WriteReachesObject(heap, a, []);
    WriteStaysWithin(heap, Obj(a), [], heap.Keys);
  }

  /** An object that refers to the only other one is written before it. */
  lemma TwoReached(heap: Heap, a: Addr, b: Addr)
    requires Grounded(heap) && heap.Keys == {a, b} && a != b && Mentions(Dict(Kept(heap[a].attributes)), b)
    ensures Write(heap, Obj(a), []).slots == [a, b]
  {
    var s := Write(heap, Obj(a), []).slots;
    FirstIsMetFirst(heap, a);
    ObjectReaches(heap, a, s);
    ReachedIsMet(heap, a, b, s);
    forall k | 0 <= k < |s| ensures s[k] == a || s[k] == b {
      assert s[k] in heap.Keys;
    }
    OnlyTwo(s, a, b);
  }

  lemma SlotsOfTwo(heap: Heap, a: Addr, b: Addr)
    requires Write(heap, Obj(a), []).slots == [a, b] && a != b
    ensures Slots(heap, List([Obj(a), Obj(b)])) == [a, b] && Encloses(heap, [a, b], 0, 1)
  {
    var items := [Obj(a), Obj(b)];
    assert items[1..] == [Obj(b)] && items[1..][1..] == [];
    assert Write(heap, Obj(b), [a, b]).slots == [a, b];
    assert WriteAll(heap, items[1..], [a, b]).slots == [a, b];
    assert WriteAll(heap, items, []).slots == [a, b];
    assert [a, b][..0] == [];
  }

  lemma FamilySlots()
    ensures Slots(Family(), ParentAndChild()) == [0, 1] && Encloses(Family(), [0, 1], 0, 1)
  {
    FamilyIsKept();
    FamilyIsGrounded();
    TwoReached(Family(), 0, 1);
    SlotsOfTwo(Family(), 0, 1);
  }

  lemma ParentIsCaptured()
    ensures Family().Keys == {0, 1} && IsCaptured(Family(), [0, 1], ParentIsRemembered(), 0, 1)
  {
    var s: seq<Addr>, st0 := [0, 1], ParentIsRemembered();
    FamilyIsKept();
    FamilySlots();
    assert IsKnown(Family(), s, 0, st0.normal, 0, "/p");
    assert Replaced(Family(), s, st0, 0) && !Replaced(Family(), s, st0, 1);
  }

  lemma RememberedParentIsFinished()
    ensures MergedById(ParentIsRemembered()) && AllFinished(ParentIsRemembered())
  {
    var attributes := map["id" := Plain(Str("/p"))];
    assert IdOf(attributes) == Plain(Str("/p"));
    assert forall b :: !Mentions(Dict(attributes), b);
  }

  /** The list read back holds the remembered parent, and a child whose parent never got its attributes. */
  lemma CycleIsLeftUnfinished(v': Value, st1: State)
    requires Read(TwinClasses(), Write(Family(), ParentAndChild(), []).json, ParentIsRemembered(), true) == Done((v', st1))
    ensures v' == List([Obj(0), Obj(2)])
    ensures UnfinishedIsReached(st1.heap, v')
  {
    FamilyIsRead(v', st1);
    ParentIsCaptured();
    IsLeftUnfinished(Family(), [0, 1], ParentIsRemembered(), st1);
  }

  lemma IsLeftUnfinished(heap: Heap, s: seq<Addr>, st0: State, st1: State)
    requires |s| == 2 && IsMergedState(heap, s, st0, st1) && s[1] in heap && IsCaptured(heap, s, st0, 0, 1)
    ensures UnfinishedIsReached(st1.heap, List([Obj(0), Obj(|st0.heap| + 1)]))
  {
    CapturedIsBlank(heap, s, st0, st1, 0, 1);
    SecondIsReached(st1.heap, 0, |st0.heap| + 1);
  }

  lemma SecondIsReached(cells: seq<Cell>, a: Addr, b: Addr)
    ensures Reaches(cells, List([Obj(a), Obj(b)]), b)
  {
    var v := List([Obj(a), Obj(b)]);
    assert Mentions(v.items[1], b);
    assert LeadsTo(cells, v, [b]) && [b][|[b]| - 1] == b;
  }

  lemma FamilyIsRead(v': Value, st1: State)
    requires Read(TwinClasses(), Write(Family(), ParentAndChild(), []).json, ParentIsRemembered(), true) == Done((v', st1))
    ensures v' == List([Obj(0), Obj(2)]) && IsMergedState(Family(), [0, 1], ParentIsRemembered(), st1)
  {
    var st0, s := ParentIsRemembered(), Slots(Family(), ParentAndChild());
    FamilyIsSupported();
    FamilyIsGrounded();
    PairIsSupported(0, 1);
    FamilySlots();
    RememberedParentIsFinished();
    assert IsReading(TwinClasses(), map[], Family(), ParentAndChild(), st0, v', st1);
    ReadingSettles(TwinClasses(), map[], Family(), ParentAndChild(), st0, v', st1);
    FamilyIsPlaced(s, st1);
    FamilyImage(s, st1.stack);
  }

  lemma FamilyIsPlaced(s: seq<Addr>, st1: State)
    requires s == [0, 1] && IsMergedState(Family(), s, ParentIsRemembered(), st1)
    requires RemembersMore(Family(), [], ParentIsRemembered(), s, st1)
    ensures st1.stack == [0, 2]
  {
    var st0 := ParentIsRemembered();
    FamilyIsKept();
    SettledIsPlaced(Family(), s, st0, st1, 0);
    SettledIsPlaced(Family(), s, st0, st1, 1);
    assert HasId(Family(), s[0], "/p") && "/p" in st0.normal;
    assert !Replaced(Family(), s, st0, 1);
  }

  lemma FamilyImage(s: seq<Addr>, t: seq<Addr>)
    requires s == [0, 1] && t == [0, 2]
    ensures Image(ParentAndChild(), s, t) == List([Obj(0), Obj(2)])
  {
    var items := [Obj(0), Obj(1)];
    assert items[1..] == [Obj(1)] && items[1..][1..] == [];
    assert Slot(s, 0) == 0 && Slot(s, 1) == 1;
    assert ImageAll(items, s, t) == [Obj(0), Obj(2)];
  }
}
