/**
 Reading with ids that are remembered already, or that collide: at which object every position ends up, and
 what every new object holds.
 */
module Merging {
  import opened Common
  import opened Values
  import opened Writer
  import opened Reader
  import opened RoundTrip
  import opened Isomorphism
  import opened Totality

  // ---------- Images of values ----------

  function Moved(a: Addr, s: seq<Addr>, t: seq<Addr>): Addr
    requires |s| == |t|
  {
    if a in s then t[Slot(s, a)] else a
  }

  /** The value with every plain object `s[k]` replaced by `t[k]`; elements of a set that become equal are one. */
  function Image(v: Value, s: seq<Addr>, t: seq<Addr>): Value
    requires |s| == |t|
    decreases v
  {
    match v
    case List(items) => List(ImageAll(items, s, t))
    case Set(items) => Set(Distinct(ImageAll(items, s, t)))
    case FrozenSet(items) => FrozenSet(Distinct(ImageAll(items, s, t)))
    case Tuple(items) => Tuple(ImageAll(items, s, t))
    case Dict(entries) => Dict(map k | k in entries :: Image(entries[k], s, t))
    case Obj(a) => Obj(Moved(a, s, t))
    case _ => v
  }

  function ImageAll(items: seq<Value>, s: seq<Addr>, t: seq<Addr>): (r: seq<Value>)
    requires |s| == |t|
    ensures |r| == |items| && forall i :: 0 <= i < |items| ==> r[i] == Image(items[i], s, t)
    decreases items
  {
    if items == [] then [] else [Image(items[0], s, t)] + ImageAll(items[1..], s, t)
  }

  /** The attributes of an object, with what they refer to replaced. */
  function Attributes(heap: Heap, a: Addr, s: seq<Addr>, t: seq<Addr>): map<string, Value>
    requires a in heap && |s| == |t|
  {
    Image(Dict(Kept(heap[a].attributes)), s, t).entries
  }

  /** An image depends on the objects that are mentioned. */
  lemma {:induction false} SameImage(v: Value, s: seq<Addr>, t: seq<Addr>, s': seq<Addr>, t': seq<Addr>)
    requires |s| == |t| && |s'| == |t'|
    requires forall a :: Mentions(v, a) ==> Moved(a, s', t') == Moved(a, s, t)
    ensures Image(v, s', t') == Image(v, s, t)
    decreases v
  {
    if v.List? || v.Set? || v.FrozenSet? || v.Tuple? {
      forall i | 0 <= i < |v.items| ensures Image(v.items[i], s', t') == Image(v.items[i], s, t) {
        assert forall a :: Mentions(v.items[i], a) ==> Mentions(v, a);
        SameImage(v.items[i], s, t, s', t');
      }
      assert ImageAll(v.items, s', t') == ImageAll(v.items, s, t);
    } else if v.Dict? {
      forall k | k in v.entries ensures Image(v.entries[k], s', t') == Image(v.entries[k], s, t) {
        assert forall a :: Mentions(v.entries[k], a) ==> Mentions(v, a);
        SameImage(v.entries[k], s, t, s', t');
      }
    } else if v.Obj? {
      assert Mentions(v, v.addr);
    }
  }

  lemma SlotOfPrefix(s: seq<Addr>, s': seq<Addr>, a: Addr)
    requires s <= s' && a in s
    ensures a in s' && Slot(s', a) == Slot(s, a)
  {
    assert s'[Slot(s, a)] == a && forall j :: 0 <= j < |s| ==> s'[j] == s[j];
  }

  /** Objects met later do not matter to a value whose objects were all met before. */
  lemma ImageOfPrefix(v: Value, s: seq<Addr>, t: seq<Addr>, s': seq<Addr>, t': seq<Addr>)
    requires |s| == |t| && |s'| == |t'| && s <= s' && t <= t' && MentionsOnly(v, Elements(s))
    ensures Image(v, s', t') == Image(v, s, t)
  {
    forall a | Mentions(v, a) ensures Moved(a, s', t') == Moved(a, s, t) {
      assert a in Elements(s);
      SlotOfPrefix(s, s', a);
    }
    SameImage(v, s, t, s', t');
  }

  lemma {:induction false} ImageKeepsHashable(v: Value, s: seq<Addr>, t: seq<Addr>)
    requires |s| == |t| && Hashable(v)
    ensures Hashable(Image(v, s, t))
    decreases v
  {
    if v.Tuple? {
      forall i | 0 <= i < |v.items| ensures Hashable(Image(v.items[i], s, t)) {
        ImageKeepsHashable(v.items[i], s, t);
      }
    }
  }

  lemma ImageKeepsId(entries: map<string, Value>, s: seq<Addr>, t: seq<Addr>)
    requires |s| == |t|
    ensures IdOf(Image(Dict(entries), s, t).entries) == Image(IdOf(entries), s, t)
  {
  }

  // ---------- Positions ----------

  /** The object has this id, which is one that the reader remembers. */
  ghost predicate HasId(heap: Heap, a: Addr, id: string) {
    a in heap && SourceId(heap, a) == Plain(Str(id)) && "/" <= id
  }

  /** How many positions are taken once the object at `k` is written. */
  function End(heap: Heap, slots: seq<Addr>, k: nat): (n: nat)
    requires k < |slots|
    ensures k <= n
  {
    |Write(heap, Obj(slots[k]), slots[..k]).slots|
  }

  /** The object at `k` is first met within the one at `j`. */
  predicate Encloses(heap: Heap, slots: seq<Addr>, j: nat, k: nat)
    requires j < |slots|
  {
    j < k < End(heap, slots, j)
  }

  /** Reading the object at `i` ends before reading the one at `k` does. */
  predicate EndsBefore(heap: Heap, slots: seq<Addr>, i: nat, k: nat)
    requires i < |slots| && k < |slots|
  {
    i < End(heap, slots, k) && i != k && !Encloses(heap, slots, i, k)
  }

  /** The id is remembered at the start, or by an object that is read before this one. */
  ghost predicate IsKnown(heap: Heap, slots: seq<Addr>, lo: nat, remembered: map<string, Addr>, k: nat, id: string)
    requires k < |slots|
  {
    id in remembered || exists i :: lo <= i < |slots| && EndsBefore(heap, slots, i, k) && HasId(heap, slots[i], id)
  }

  /** An earlier object takes the place of the one at `k`. */
  ghost predicate IsReplaced(heap: Heap, slots: seq<Addr>, lo: nat, remembered: map<string, Addr>, k: nat)
    requires k < |slots|
  {
    exists id :: HasId(heap, slots[k], id) && IsKnown(heap, slots, lo, remembered, k, id)
  }

  /**
   What the positions stand for while the attributes of the object at `k` are read: those it is read within
   stand for their own new objects still, which are on the heap in the order of the positions.
   */
  function View(heap: Heap, slots: seq<Addr>, lo: nat, base: int, stack: seq<Addr>, k: nat): (view: seq<Addr>)
    requires |stack| == |slots| && 0 <= base + lo
    ensures |view| == |slots|
  {
    seq(|slots|, i requires 0 <= i < |slots| => if lo <= i && Encloses(heap, slots, i, k) then base + i else stack[i])
  }

  lemma EndOfPrefix(heap: Heap, s: seq<Addr>, s': seq<Addr>, k: nat)
    requires s <= s' && k < |s|
    ensures End(heap, s', k) == End(heap, s, k)
  {
    assert s'[..k] == s[..k];
  }

  // ---------- What reading from one point to another does ----------

  /**
   The object at `k`, met since `s0`: its position stands for a finished object, which is remembered under its id.
   That is a new one exactly if no earlier one has the id; then it holds the attributes as they were read.
   */
  ghost predicate Settled(heap: Heap, s0: seq<Addr>, st0: State, s1: seq<Addr>, st1: State, k: nat)
    requires |s0| <= k < |s1| && |s1| == |st1.stack|
  {
    var base := |st0.heap| - |s0|;
    var own, b := base + k, st1.stack[k];
    && s1[k] in heap && End(heap, s1, k) <= |s1|
    && b < |st1.heap| && st1.heap[b].Built? && own < |st1.heap|
    && (forall id :: HasId(heap, s1[k], id) ==> id in st1.normal && st1.normal[id] == b)
    && (b == own <==> !IsReplaced(heap, s1, |s0|, st0.normal, k))
    && st1.heap[own] == if b != own then Blank
                        else Built(PlainObject(heap[s1[k]].cls,
                                               Attributes(heap, s1[k], s1, View(heap, s1, |s0|, base, st1.stack, k))))
  }

  /** Nothing is forgotten, and what is new has the id of an object met since. */
  ghost predicate RemembersMore(heap: Heap, s0: seq<Addr>, st0: State, s1: seq<Addr>, st1: State) {
    && (forall id :: id in st0.normal ==> id in st1.normal && st1.normal[id] == st0.normal[id])
    && (forall id :: id in st1.normal && id !in st0.normal ==> exists k :: |s0| <= k < |s1| && HasId(heap, s1[k], id))
  }

  ghost predicate KnowsClasses(classOf: ClassOf, st: State) {
    forall oid :: oid in st.known && oid in classOf ==> st.known[oid] == classOf[oid]
  }

  /** The stack and the heap grow by one for every object met, and positions taken before stay. */
  ghost predicate Keeps(s0: seq<Addr>, st0: State, s1: seq<Addr>, st1: State) {
    && s0 <= s1 && |s0| == |st0.stack| && |s1| == |st1.stack| && st0.stack <= st1.stack
    && KeepsOld(st0, st1) && |st1.heap| == |st0.heap| + |s1| - |s0|
  }

  ghost predicate AllSettled(heap: Heap, s0: seq<Addr>, st0: State, s1: seq<Addr>, st1: State)
    requires |s1| == |st1.stack|
  {
    forall k :: |s0| <= k < |s1| ==> Settled(heap, s0, st0, s1, st1, k)
  }

  ghost predicate Merges(heap: Heap, classOf: ClassOf, s0: seq<Addr>, st0: State, s1: seq<Addr>, st1: State) {
    && Keeps(s0, st0, s1, st1) && ClosedSince(heap, s0, s1)
    && MergedById(st1) && KnowsClasses(classOf, st1)
    && RemembersMore(heap, s0, st0, s1, st1) && AllSettled(heap, s0, st0, s1, st1)
  }

  lemma MergesNothing(heap: Heap, classOf: ClassOf, s: seq<Addr>, st0: State, st1: State)
    requires |s| == |st0.stack| && MergedById(st0) && KnowsClasses(classOf, st1)
    requires st1 == st0.(known := st1.known)
    ensures Merges(heap, classOf, s, st0, s, st1)
  {
  }

  // ---------- One read after another ----------

  lemma IsKnownOfPrefix(heap: Heap, s1: seq<Addr>, s2: seq<Addr>, lo: nat, remembered: map<string, Addr>, k: nat, id: string)
    requires s1 <= s2 && k < |s1| && End(heap, s1, k) <= |s1|
    ensures IsKnown(heap, s2, lo, remembered, k, id) <==> IsKnown(heap, s1, lo, remembered, k, id)
  {
    EndOfPrefix(heap, s1, s2, k);
    forall i | 0 <= i < |s1| ensures EndsBefore(heap, s2, i, k) <==> EndsBefore(heap, s1, i, k) {
      EndOfPrefix(heap, s1, s2, i);
    }
    forall i | lo <= i < |s2| && EndsBefore(heap, s2, i, k) && HasId(heap, s2[i], id)
      ensures lo <= i < |s1| && EndsBefore(heap, s1, i, k) && HasId(heap, s1[i], id)
    {
    }
    forall i | lo <= i < |s1| && EndsBefore(heap, s1, i, k) && HasId(heap, s1[i], id)
      ensures lo <= i < |s2| && EndsBefore(heap, s2, i, k) && HasId(heap, s2[i], id)
    {
    }
  }

  lemma ViewOfPrefix(heap: Heap, s1: seq<Addr>, s2: seq<Addr>, lo: nat, base: int, t1: seq<Addr>, t2: seq<Addr>, k: nat)
    requires s1 <= s2 && t1 <= t2 && |s1| == |t1| && |s2| == |t2| && 0 <= base + lo
    ensures View(heap, s1, lo, base, t1, k) <= View(heap, s2, lo, base, t2, k)
  {
    forall i | 0 <= i < |s1| ensures View(heap, s2, lo, base, t2, k)[i] == View(heap, s1, lo, base, t1, k)[i] {
      EndOfPrefix(heap, s1, s2, i);
    }
  }

  /** What is read later leaves a settled object alone. */
  lemma SettledStays(heap: Heap, s0: seq<Addr>, st0: State, s1: seq<Addr>, st1: State, s2: seq<Addr>, st2: State, k: nat)
    requires Keeps(s0, st0, s1, st1) && Keeps(s1, st1, s2, st2) && ClosedSince(heap, s0, s1) && RemembersMore(heap, s1, st1, s2, st2)
    requires |s0| <= k < |s1| && Settled(heap, s0, st0, s1, st1, k)
    ensures Settled(heap, s0, st0, s2, st2, k)
  {
    var base := |st0.heap| - |s0|;
    EndOfPrefix(heap, s1, s2, k);
    forall id ensures IsKnown(heap, s2, |s0|, st0.normal, k, id) <==> IsKnown(heap, s1, |s0|, st0.normal, k, id) {
      IsKnownOfPrefix(heap, s1, s2, |s0|, st0.normal, k, id);
    }
    assert IsReplaced(heap, s2, |s0|, st0.normal, k) <==> IsReplaced(heap, s1, |s0|, st0.normal, k);
    ViewOfPrefix(heap, s1, s2, |s0|, base, st1.stack, st2.stack, k);
    ImageOfPrefix(Dict(Kept(heap[s1[k]].attributes)), s1, View(heap, s1, |s0|, base, st1.stack, k),
                  s2, View(heap, s2, |s0|, base, st2.stack, k));
  }

  /** Nothing met before is unfinished: what was read before does not enclose what is read later. */
  lemma EarlierDoesNotEnclose(heap: Heap, s0: seq<Addr>, st0: State, s1: seq<Addr>, st1: State, s2: seq<Addr>, i: nat, k: nat)
    requires |s1| == |st1.stack| && s1 <= s2 && |s0| <= i < |s1| <= k < |s2| && Settled(heap, s0, st0, s1, st1, i)
    ensures !Encloses(heap, s2, i, k) && EndsBefore(heap, s2, i, k)
  {
    EndOfPrefix(heap, s1, s2, i);
  }

  lemma IsKnownFromBefore(heap: Heap, s0: seq<Addr>, st0: State, s1: seq<Addr>, st1: State, s2: seq<Addr>, k: nat, id: string)
    requires |s1| == |st1.stack| && s0 <= s1 <= s2 && |s1| <= k < |s2|
    requires RemembersMore(heap, s0, st0, s1, st1) && AllSettled(heap, s0, st0, s1, st1)
    ensures IsKnown(heap, s2, |s0|, st0.normal, k, id) <==> IsKnown(heap, s2, |s1|, st1.normal, k, id)
  {
    if id in st1.normal && id !in st0.normal {
      var i :| |s0| <= i < |s1| && HasId(heap, s1[i], id);
      EarlierDoesNotEnclose(heap, s0, st0, s1, st1, s2, i, k);
      assert HasId(heap, s2[i], id);
    }
    if IsKnown(heap, s2, |s0|, st0.normal, k, id) && id !in st0.normal {
      var i :| |s0| <= i < |s2| && EndsBefore(heap, s2, i, k) && HasId(heap, s2[i], id);
      if i < |s1| {
        assert Settled(heap, s0, st0, s1, st1, i) && s1[i] == s2[i];
      }
    }
  }

  /** An object that is read later is settled as seen from the start. */
  lemma SettledSinceBefore(heap: Heap, s0: seq<Addr>, st0: State, s1: seq<Addr>, st1: State, s2: seq<Addr>, st2: State, k: nat)
    requires Keeps(s0, st0, s1, st1) && Keeps(s1, st1, s2, st2)
    requires RemembersMore(heap, s0, st0, s1, st1) && AllSettled(heap, s0, st0, s1, st1)
    requires |s1| <= k < |s2| && Settled(heap, s1, st1, s2, st2, k)
    ensures Settled(heap, s0, st0, s2, st2, k)
  {
    var base := |st0.heap| - |s0|;
    assert base == |st1.heap| - |s1|;
    forall id ensures IsKnown(heap, s2, |s0|, st0.normal, k, id) <==> IsKnown(heap, s2, |s1|, st1.normal, k, id) {
      IsKnownFromBefore(heap, s0, st0, s1, st1, s2, k, id);
    }
    assert IsReplaced(heap, s2, |s0|, st0.normal, k) <==> IsReplaced(heap, s2, |s1|, st1.normal, k);
    var view, view' := View(heap, s2, |s0|, base, st2.stack, k), View(heap, s2, |s1|, base, st2.stack, k);
    forall i | 0 <= i < |s2| ensures view[i] == view'[i] {
      if |s0| <= i < |s1| {
        assert Settled(heap, s0, st0, s1, st1, i);
        EarlierDoesNotEnclose(heap, s0, st0, s1, st1, s2, i, k);
      }
    }
    assert view == view';
  }

  lemma RemembersMoreIsTransitive(heap: Heap, s0: seq<Addr>, st0: State, s1: seq<Addr>, st1: State, s2: seq<Addr>, st2: State)
    requires s0 <= s1 <= s2 && RemembersMore(heap, s0, st0, s1, st1) && RemembersMore(heap, s1, st1, s2, st2)
    ensures RemembersMore(heap, s0, st0, s2, st2)
  {
    forall id | id in st2.normal && id !in st0.normal ensures exists k :: |s0| <= k < |s2| && HasId(heap, s2[k], id) {
      if id in st1.normal {
        var k :| |s0| <= k < |s1| && HasId(heap, s1[k], id);
        assert s2[k] == s1[k];
      }
    }
  }

  lemma MergesIsTransitive(heap: Heap, classOf: ClassOf, s0: seq<Addr>, st0: State, s1: seq<Addr>, st1: State, s2: seq<Addr>, st2: State)
    requires Merges(heap, classOf, s0, st0, s1, st1) && Merges(heap, classOf, s1, st1, s2, st2)
    ensures Merges(heap, classOf, s0, st0, s2, st2)
  {
    ClosedSinceIsTransitive(heap, s0, s1, s2);
    RemembersMoreIsTransitive(heap, s0, st0, s1, st1, s2, st2);
    forall k | |s0| <= k < |s2| ensures Settled(heap, s0, st0, s2, st2, k) {
      if k < |s1| {
        assert Settled(heap, s0, st0, s1, st1, k);
        SettledStays(heap, s0, st0, s1, st1, s2, st2, k);
      } else {
        assert Settled(heap, s1, st1, s2, st2, k);
        SettledSinceBefore(heap, s0, st0, s1, st1, s2, st2, k);
      }
    }
  }

  // ---------- Finishing an object ----------

  /** The object's attributes were read, after everything that is met within it. */
  ghost predicate Within(heap: Heap, a: Addr, s0: seq<Addr>, st0: State, s1: seq<Addr>, st1: State) {
    && a in heap && a !in s0 && |s0| == |st0.stack| && s0 + [a] <= s1 && s1 == Write(heap, Obj(a), s0).slots
    && Keeps(s0 + [a], Allocate(st0), s1, st1)
  }

  lemma WithinIsOpen(heap: Heap, a: Addr, s0: seq<Addr>, st0: State, s1: seq<Addr>, st1: State)
    requires Within(heap, a, s0, st0, s1, st1)
    ensures |s0| < |s1| && s1[|s0|] == a && s0 <= s1 && End(heap, s1, |s0|) == |s1|
    ensures st0.stack <= st1.stack && st1.stack[|s0|] == |st0.heap|
    ensures |st0.heap| < |st1.heap| && st1.heap[|st0.heap|] == Blank && |st1.heap| == |st0.heap| + |s1| - |s0|
    ensures KeepsOld(st0, st1)
  {
    LastOfPrefix(s0, a, s1);
    assert s1[..|s0|] == s0;
    assert st1.stack[|s0|] == Allocate(st0).stack[|s0|];
    assert st1.heap[|st0.heap|] == Allocate(st0).heap[|st0.heap|];
  }

  /** The id of the object is known by the time it is finished exactly if it is remembered then. */
  lemma KnownAtEnd(heap: Heap, a: Addr, s0: seq<Addr>, st0: State, s1: seq<Addr>, st1: State, id: string)
    requires Within(heap, a, s0, st0, s1, st1) && |s0| < |s1|
    requires RemembersMore(heap, s0 + [a], Allocate(st0), s1, st1) && AllSettled(heap, s0 + [a], Allocate(st0), s1, st1)
    ensures IsKnown(heap, s1, |s0|, st0.normal, |s0|, id) <==> id in st1.normal
  {
    WithinIsOpen(heap, a, s0, st0, s1, st1);
    if id in st1.normal && id !in st0.normal {
      var i :| |s0 + [a]| <= i < |s1| && HasId(heap, s1[i], id);
      assert EndsBefore(heap, s1, i, |s0|);
    }
    if IsKnown(heap, s1, |s0|, st0.normal, |s0|, id) && id !in st0.normal {
      var i :| |s0| <= i < |s1| && EndsBefore(heap, s1, i, |s0|) && HasId(heap, s1[i], id);
      assert Settled(heap, s0 + [a], Allocate(st0), s1, st1, i);
    }
  }

  /** Seen from before the object, what is met within it is known just the same. */
  lemma IsKnownWithin(heap: Heap, a: Addr, s0: seq<Addr>, st0: State, s1: seq<Addr>, st1: State, k: nat, id: string)
    requires Within(heap, a, s0, st0, s1, st1) && |s0| < k < |s1|
    ensures IsKnown(heap, s1, |s0|, st0.normal, k, id) <==> IsKnown(heap, s1, |s0| + 1, st0.normal, k, id)
  {
    WithinIsOpen(heap, a, s0, st0, s1, st1);
    assert Encloses(heap, s1, |s0|, k);
  }

  /** What finishing does to the state: a remembered object takes the place, or the new one is built and remembered. */
  ghost predicate Finishes(heap: Heap, a: Addr, s0: seq<Addr>, st0: State, s1: seq<Addr>, st1: State, st2: State)
    requires a in heap && |s0| < |s1| && |s1| == |st1.stack| && |st0.heap| < |st1.heap|
  {
    var index, self := |s0|, |st0.heap|;
    && st2.known == st1.known
    && if exists id :: HasId(heap, a, id) && id in st1.normal then
         && st2 == st1.(stack := st2.stack)
         && exists id :: HasId(heap, a, id) && id in st1.normal && st2.stack == st1.stack[index := st1.normal[id]]
       else
         && st2.stack == st1.stack
         && st2.heap == st1.heap[self := Built(PlainObject(heap[a].cls, Attributes(heap, a, s1, st1.stack)))]
         && (forall id :: id in st1.normal ==> id in st2.normal && st2.normal[id] == st1.normal[id])
         && (forall id :: id in st2.normal && id !in st1.normal ==> HasId(heap, a, id))
         && (forall id :: HasId(heap, a, id) ==> id in st2.normal && st2.normal[id] == self)
  }

  lemma {:induction false} FinishFinishes(registry: Registry, classOf: ClassOf, heap: Heap, a: Addr, s0: seq<Addr>, st0: State,
                                          s1: seq<Addr>, st1: State)
    requires Within(heap, a, s0, st0, s1, st1) && |s0| < |s1| && |st0.heap| < |st1.heap| && SupportedObject(registry, classOf, heap[a])
    requires MergedById(st1)
    ensures var attributes := Image(Dict(Kept(heap[a].attributes)), s1, st1.stack);
            var r := Finish(heap[a].cls, registry[heap[a].cls].immutable, attributes, |s0|, |st0.heap|, st1);
            && r.Done?
            && Finishes(heap, a, s0, st0, s1, st1, r.value.1)
            && |r.value.1.stack| == |st1.stack| && r.value.0 == Obj(r.value.1.stack[|s0|])
  {
    var entries := Kept(heap[a].attributes);
    var id := IdOf(entries);
    WithinIsOpen(heap, a, s0, st0, s1, st1);
    ImageKeepsId(entries, s1, st1.stack);
    ImageKeepsHashable(id, s1, st1.stack);
    var cls, immutable, attributes := heap[a].cls, registry[heap[a].cls].immutable, Attributes(heap, a, s1, st1.stack);
    FinishDecides(cls, immutable, attributes, id, |s0|, |st0.heap|, st1);
    DecidedFinishes(heap, a, s0, st0, s1, st1, Finish(cls, immutable, Dict(attributes), |s0|, |st0.heap|, st1).value.1);
  }

  lemma DecidedFinishes(heap: Heap, a: Addr, s0: seq<Addr>, st0: State, s1: seq<Addr>, st1: State, st2: State)
    requires a in heap && |s0| < |s1| && |s1| == |st1.stack| && |st0.heap| < |st1.heap|
    requires var id := SourceId(heap, a);
             if Cacheable(id) && id.scalar.s in st1.normal then
               st2 == st1.(stack := st1.stack[|s0| := st1.normal[id.scalar.s]])
             else
               && st2.stack == st1.stack && st2.known == st1.known
               && st2.heap == st1.heap[|st0.heap| := Built(PlainObject(heap[a].cls, Attributes(heap, a, s1, st1.stack)))]
               && st2.normal == if Cacheable(id) then st1.normal[id.scalar.s := |st0.heap|] else st1.normal
    ensures Finishes(heap, a, s0, st0, s1, st1, st2)
  {
    var id := SourceId(heap, a);
    assert forall i :: HasId(heap, a, i) <==> id == Plain(Str(i)) && "/" <= i;
    if Cacheable(id) && id.scalar.s in st1.normal {
      assert HasId(heap, a, id.scalar.s);
    }
  }

  /** The branches of finishing, for an object that is immutable only if its id can be remembered. */
  lemma FinishDecides(cls: string, immutable: bool, attributes: map<string, Value>, id: Value, index: nat, self: Addr, st: State)
    requires index < |st.stack| && self < |st.heap| && st.stack[index] == self && MergedById(st)
    requires Hashable(IdOf(attributes)) && (immutable ==> id == Nothing || Cacheable(id))
    requires (IdOf(attributes).Plain? || IdOf(attributes).Nothing? || id.Plain? || id.Nothing?) ==> IdOf(attributes) == id
    ensures var r := Finish(cls, immutable, Dict(attributes), index, self, st);
            && r.Done?
            && if Cacheable(id) && id.scalar.s in st.normal then
                 var b := st.normal[id.scalar.s];
                 r.value == (Obj(b), st.(stack := st.stack[index := b]))
               else
                 && r.value.0 == Obj(self)
                 && r.value.1.stack == st.stack && r.value.1.known == st.known
                 && r.value.1.heap == st.heap[self := Built(PlainObject(cls, attributes))]
                 && r.value.1.normal == if Cacheable(id) then st.normal[id.scalar.s := self] else st.normal
  {
    if id.Plain? && id.scalar.Str? && id.scalar.s in st.normal {
      assert IsFinished(st, id.scalar.s, st.normal[id.scalar.s]);
    }
  }

  lemma ReplacedAtEnd(heap: Heap, a: Addr, s0: seq<Addr>, st0: State, s1: seq<Addr>, st1: State)
    requires Within(heap, a, s0, st0, s1, st1) && |s0| < |s1|
    requires RemembersMore(heap, s0 + [a], Allocate(st0), s1, st1) && AllSettled(heap, s0 + [a], Allocate(st0), s1, st1)
    ensures s1[|s0|] == a
    ensures IsReplaced(heap, s1, |s0|, st0.normal, |s0|) <==> exists id :: HasId(heap, a, id) && id in st1.normal
  {
    WithinIsOpen(heap, a, s0, st0, s1, st1);
    forall id ensures IsKnown(heap, s1, |s0|, st0.normal, |s0|, id) <==> id in st1.normal {
      KnownAtEnd(heap, a, s0, st0, s1, st1, id);
    }
  }

  lemma ReplacedIsSettled(heap: Heap, a: Addr, s0: seq<Addr>, st0: State, s1: seq<Addr>, st1: State, st2: State, id: string)
    requires Within(heap, a, s0, st0, s1, st1) && |s0| < |s1| && |st0.heap| < |st1.heap| && MergedById(st1)
    requires s1[|s0|] == a && IsReplaced(heap, s1, |s0|, st0.normal, |s0|)
    requires HasId(heap, a, id) && id in st1.normal
    requires st2 == st1.(stack := st1.stack[|s0| := st1.normal[id]])
    ensures Settled(heap, s0, st0, s1, st2, |s0|)
  {
    WithinIsOpen(heap, a, s0, st0, s1, st1);
    assert IsFinished(st1, id, st1.normal[id]);
  }

  lemma BuiltIsSettled(heap: Heap, a: Addr, s0: seq<Addr>, st0: State, s1: seq<Addr>, st1: State, st2: State)
    requires Within(heap, a, s0, st0, s1, st1) && |s0| < |s1| && |st0.heap| < |st1.heap|
    requires s1[|s0|] == a && !IsReplaced(heap, s1, |s0|, st0.normal, |s0|)
    requires st2.stack == st1.stack
    requires st2.heap == st1.heap[|st0.heap| := Built(PlainObject(heap[a].cls, Attributes(heap, a, s1, st1.stack)))]
    requires forall id :: HasId(heap, a, id) ==> id in st2.normal && st2.normal[id] == |st0.heap|
    ensures Settled(heap, s0, st0, s1, st2, |s0|)
  {
    WithinIsOpen(heap, a, s0, st0, s1, st1);
    assert View(heap, s1, |s0|, |st0.heap| - |s0|, st2.stack, |s0|) == st1.stack;
  }

  lemma SelfIsSettled(heap: Heap, a: Addr, s0: seq<Addr>, st0: State, s1: seq<Addr>, st1: State, st2: State)
    requires Within(heap, a, s0, st0, s1, st1) && |s0| < |s1| && |st0.heap| < |st1.heap| && MergedById(st1)
    requires RemembersMore(heap, s0 + [a], Allocate(st0), s1, st1) && AllSettled(heap, s0 + [a], Allocate(st0), s1, st1)
    requires Finishes(heap, a, s0, st0, s1, st1, st2) && |st2.stack| == |s1|
    ensures Settled(heap, s0, st0, s1, st2, |s0|)
  {
    ReplacedAtEnd(heap, a, s0, st0, s1, st1);
    if exists id :: HasId(heap, a, id) && id in st1.normal {
      var id :| HasId(heap, a, id) && id in st1.normal && st2.stack == st1.stack[|s0| := st1.normal[id]];
      ReplacedIsSettled(heap, a, s0, st0, s1, st1, st2, id);
    } else {
      BuiltIsSettled(heap, a, s0, st0, s1, st1, st2);
    }
  }

  lemma ReplacedWithin(heap: Heap, a: Addr, s0: seq<Addr>, st0: State, s1: seq<Addr>, st1: State, k: nat)
    requires Within(heap, a, s0, st0, s1, st1) && |s0| < k < |s1|
    ensures IsReplaced(heap, s1, |s0|, st0.normal, k) <==> IsReplaced(heap, s1, |s0| + 1, st0.normal, k)
  {
    forall id ensures IsKnown(heap, s1, |s0|, st0.normal, k, id) <==> IsKnown(heap, s1, |s0| + 1, st0.normal, k, id) {
      IsKnownWithin(heap, a, s0, st0, s1, st1, k, id);
    }
  }

  /** While what is within the object was read, the object stood for itself. */
  lemma ViewWithin(heap: Heap, a: Addr, s0: seq<Addr>, st0: State, s1: seq<Addr>, st1: State, stack: seq<Addr>, k: nat)
    requires Within(heap, a, s0, st0, s1, st1) && |s0| < k < |s1| && |stack| == |s1|
    requires forall i :: 0 <= i < |s1| && i != |s0| ==> stack[i] == st1.stack[i]
    ensures View(heap, s1, |s0|, |st0.heap| - |s0|, stack, k) == View(heap, s1, |s0| + 1, |st0.heap| - |s0|, st1.stack, k)
  {
    WithinIsOpen(heap, a, s0, st0, s1, st1);
    assert Encloses(heap, s1, |s0|, k);
  }

  lemma InsideStaysSettled(heap: Heap, a: Addr, s0: seq<Addr>, st0: State, s1: seq<Addr>, st1: State, st2: State, k: nat)
    requires Within(heap, a, s0, st0, s1, st1) && |s0| < k < |s1| && |st0.heap| < |st1.heap|
    requires Settled(heap, s0 + [a], Allocate(st0), s1, st1, k)
    requires Finishes(heap, a, s0, st0, s1, st1, st2) && |st2.stack| == |s1|
    ensures Settled(heap, s0, st0, s1, st2, k)
  {
    WithinIsOpen(heap, a, s0, st0, s1, st1);
    ReplacedWithin(heap, a, s0, st0, s1, st1, k);
    ViewWithin(heap, a, s0, st0, s1, st1, st2.stack, k);
    FinishLeaves(heap, a, s0, st0, s1, st1, st2);
    SettledOtherwise(heap, s1, |s0 + [a]|, |s0|, |st0.heap| - |s0|, Allocate(st0), st1, st0, st2, k, s0 + [a], s0);
  }

  /** Finishing changes one cell and one position, and forgets nothing. */
  lemma FinishLeaves(heap: Heap, a: Addr, s0: seq<Addr>, st0: State, s1: seq<Addr>, st1: State, st2: State)
    requires Within(heap, a, s0, st0, s1, st1) && |s0| < |s1| && |st0.heap| < |st1.heap|
    requires Finishes(heap, a, s0, st0, s1, st1, st2)
    ensures |st2.stack| == |st1.stack| && forall i :: 0 <= i < |s1| && i != |s0| ==> st2.stack[i] == st1.stack[i]
    ensures |st2.heap| == |st1.heap| && forall b :: 0 <= b < |st1.heap| && b != |st0.heap| ==> st2.heap[b] == st1.heap[b]
    ensures forall id :: id in st1.normal ==> id in st2.normal && st2.normal[id] == st1.normal[id]
  {
  }

  /** Being settled depends on the cells of the object, its position, and the view of it. */
  lemma SettledOtherwise(heap: Heap, s1: seq<Addr>, lo: nat, lo': nat, base: int, st0: State, st1: State, st0': State, st2: State, k: nat,
                         s0: seq<Addr>, s0': seq<Addr>)
    requires |s0| == lo && |s0'| == lo' && base == |st0.heap| - lo == |st0'.heap| - lo' && lo <= k && lo' <= k < |s1|
    requires |st1.stack| == |s1| == |st2.stack| && Settled(heap, s0, st0, s1, st1, k) && st2.stack[k] == st1.stack[k]
    requires st1.heap[|st0'.heap|] == Blank && k != lo' && |st0'.heap| < |st1.heap| == |st2.heap|
    requires forall b :: 0 <= b < |st1.heap| && b != |st0'.heap| ==> st2.heap[b] == st1.heap[b]
    requires forall id :: id in st1.normal ==> id in st2.normal && st2.normal[id] == st1.normal[id]
    requires IsReplaced(heap, s1, lo', st0'.normal, k) <==> IsReplaced(heap, s1, lo, st0.normal, k)
    requires View(heap, s1, lo', base, st2.stack, k) == View(heap, s1, lo, base, st1.stack, k)
    ensures Settled(heap, s0', st0', s1, st2, k)
  {
  }

  lemma FinishKeeps(heap: Heap, a: Addr, s0: seq<Addr>, st0: State, s1: seq<Addr>, st1: State, st2: State)
    requires Within(heap, a, s0, st0, s1, st1) && |s0| < |s1| && |st0.heap| < |st1.heap|
    requires Finishes(heap, a, s0, st0, s1, st1, st2)
    ensures Keeps(s0, st0, s1, st2)
  {
    WithinIsOpen(heap, a, s0, st0, s1, st1);
  }

  lemma FinishRemembers(heap: Heap, a: Addr, s0: seq<Addr>, st0: State, s1: seq<Addr>, st1: State, st2: State)
    requires a in heap && |s0| < |s1| && s1[|s0|] == a && |s1| == |st1.stack| && |st0.heap| < |st1.heap|
    requires Finishes(heap, a, s0, st0, s1, st1, st2) && RemembersMore(heap, s0 + [a], Allocate(st0), s1, st1)
    ensures RemembersMore(heap, s0, st0, s1, st2)
  {
    forall id | id in st2.normal && id !in st0.normal ensures exists k :: |s0| <= k < |s1| && HasId(heap, s1[k], id) {
      if id in st1.normal {
        var k :| |s0 + [a]| <= k < |s1| && HasId(heap, s1[k], id);
      } else {
        assert HasId(heap, s1[|s0|], id);
      }
    }
  }

  lemma AllSettledAgain(heap: Heap, a: Addr, s0: seq<Addr>, st0: State, s1: seq<Addr>, st1: State, st2: State)
    requires Within(heap, a, s0, st0, s1, st1) && |s0| < |s1| && |st0.heap| < |st1.heap| && MergedById(st1)
    requires RemembersMore(heap, s0 + [a], Allocate(st0), s1, st1) && AllSettled(heap, s0 + [a], Allocate(st0), s1, st1)
    requires Finishes(heap, a, s0, st0, s1, st1, st2) && |st2.stack| == |s1|
    ensures AllSettled(heap, s0, st0, s1, st2)
  {
    forall k | |s0| <= k < |s1| ensures Settled(heap, s0, st0, s1, st2, k) {
      if k == |s0| {
        SelfIsSettled(heap, a, s0, st0, s1, st1, st2);
      } else {
        assert Settled(heap, s0 + [a], Allocate(st0), s1, st1, k);
        InsideStaysSettled(heap, a, s0, st0, s1, st1, st2, k);
      }
    }
  }

  /** With the object finished, everything met since it was met is settled. */
  lemma ObjectMerges(registry: Registry, classOf: ClassOf, heap: Heap, a: Addr, s0: seq<Addr>, st0: State, s1: seq<Addr>, st1: State)
    requires a in heap && a !in s0 && |s0| == |st0.stack| && SupportedObject(registry, classOf, heap[a])
    requires s0 + [a] <= s1 && s1 == Write(heap, Obj(a), s0).slots && ClosedSince(heap, s0, s1)
    requires Merges(heap, classOf, s0 + [a], Allocate(st0), s1, st1)
    ensures |s0| < |st1.stack| && |st0.heap| < |st1.heap|
    ensures var attributes := Image(Dict(Kept(heap[a].attributes)), s1, st1.stack);
            var r := Finish(heap[a].cls, registry[heap[a].cls].immutable, attributes, |s0|, |st0.heap|, st1);
            && r.Done?
            && Merges(heap, classOf, s0, st0, s1, r.value.1)
            && r.value.0 == Image(Obj(a), s1, r.value.1.stack)
  {
    WithinIsOpen(heap, a, s0, st0, s1, st1);
    FinishFinishes(registry, classOf, heap, a, s0, st0, s1, st1);
    var attributes := Image(Dict(Kept(heap[a].attributes)), s1, st1.stack);
    var st2 := Finish(heap[a].cls, registry[heap[a].cls].immutable, attributes, |s0|, |st0.heap|, st1).value.1;
    FinishMerges(heap[a].cls, registry[heap[a].cls].immutable, attributes, |s0|, |st0.heap|, st1);
    FinishKeeps(heap, a, s0, st0, s1, st1, st2);
    FinishRemembers(heap, a, s0, st0, s1, st1, st2);
    AllSettledAgain(heap, a, s0, st0, s1, st1, st2);
    assert Slot(s1, a) == |s0|;
  }

  // ---------- Reading what was written ----------

  /** What is written for the value is read as its image, and everything met since is settled. */
  ghost predicate ReadsAs(registry: Registry, classOf: ClassOf, heap: Heap, v: Value, s0: seq<Addr>, st0: State) {
    var w := Write(heap, v, s0);
    var r := Read(registry, w.json, st0, true);
    && r.Done?
    && Merges(heap, classOf, s0, st0, w.slots, r.value.1)
    && r.value.0 == Image(v, w.slots, r.value.1.stack)
  }

  ghost predicate ItemsReadAs(registry: Registry, classOf: ClassOf, heap: Heap, items: seq<Value>, s0: seq<Addr>, st0: State) {
    var w := WriteAll(heap, items, s0);
    var r := ReadAll(registry, w.elements, st0);
    && r.Done?
    && Merges(heap, classOf, s0, st0, w.slots, r.value.1)
    && r.value.0 == ImageAll(items, w.slots, r.value.1.stack)
  }

  ghost predicate EntriesReadAs(registry: Registry, classOf: ClassOf, heap: Heap, v: Value, keys: seq<string>, j: Json,
                                s0: seq<Addr>, st0: State)
    requires v.Dict? && forall k :: k in keys ==> k in v.entries
    requires j.JDict? && forall k :: k in keys ==> k in j.members
  {
    var w := WriteEntries(heap, v, keys, s0);
    var r := ReadEntries(registry, j, keys, st0);
    && r.Done?
    && Merges(heap, classOf, s0, st0, w.slots, r.value.1)
    && forall k :: k in keys ==> r.value.0[k] == Image(v.entries[k], w.slots, r.value.1.stack)
  }

  /** A reader, whatever it remembers, in step with the writer. */
  ghost predicate Ready(registry: Registry, classOf: ClassOf, heap: Heap, s0: seq<Addr>, st0: State) {
    SupportedGraph(registry, classOf, heap) && |s0| == |st0.stack| && MergedById(st0) && KnowsClasses(classOf, st0)
  }

  lemma {:induction false} ReadingMerges(registry: Registry, classOf: ClassOf, heap: Heap, v: Value, s0: seq<Addr>, st0: State)
    requires Ready(registry, classOf, heap, s0, st0) && Supported(registry, classOf, v) && MentionsOnly(v, heap.Keys)
    ensures ReadsAs(registry, classOf, heap, v, s0, st0)
    decreases |Unmet(heap, s0)|, v, 1
  {
    if v.List? || v.Set? || v.FrozenSet? || v.Tuple? {
      CollectionMerges(registry, classOf, heap, v, s0, st0);
    } else if v.Dict? {
      DictMerges(registry, classOf, heap, v, s0, st0);
    } else if v.Obj? && v.addr !in s0 {
      assert Mentions(v, v.addr);
      NewObjectMerges(registry, classOf, heap, v.addr, s0, st0);
    } else {
      LeafMerges(registry, classOf, heap, v, s0, st0);
    }
  }

  lemma {:induction false} LeafMerges(registry: Registry, classOf: ClassOf, heap: Heap, v: Value, s0: seq<Addr>, st0: State)
    requires Ready(registry, classOf, heap, s0, st0) && Supported(registry, classOf, v)
    requires v.Nothing? || v.Plain? || v.DateTime? || v.TypeName? || v.FunctionName? || v.Persisted? || (v.Obj? && v.addr in s0)
    ensures ReadsAs(registry, classOf, heap, v, s0, st0)
  {
    MergesNothing(heap, classOf, s0, st0, st0);
    match v
    case Nothing =>
    case Plain(_) =>
    case DateTime(iso) => ReadTaggedDateTime(registry, iso, st0);
    case TypeName(name) => ReadTaggedName(registry, TYPE_TYPE, name, st0);
    case FunctionName(name) => ReadTaggedName(registry, FUNCTION_TYPE, name, st0);
    case Persisted(oid, cls) => PersistedMerges(registry, classOf, heap, oid, cls, s0, st0);
    case Obj(a) => ReadTaggedPosition(registry, Slot(s0, a), st0);
  }

  lemma PersistedMerges(registry: Registry, classOf: ClassOf, heap: Heap, oid: string, cls: string, s0: seq<Addr>, st0: State)
    requires Ready(registry, classOf, heap, s0, st0) && Supported(registry, classOf, Persisted(oid, cls))
    ensures ReadsAs(registry, classOf, heap, Persisted(oid, cls), s0, st0)
  {
    ReadPersistentReference(registry, oid, cls, st0);
    MergesNothing(heap, classOf, s0, st0, PersistentReference(PersistentClass, cls, oid, st0).value.1);
  }

  lemma {:induction false} CollectionMerges(registry: Registry, classOf: ClassOf, heap: Heap, v: Value, s0: seq<Addr>, st0: State)
    requires v.List? || v.Set? || v.FrozenSet? || v.Tuple?
    requires Ready(registry, classOf, heap, s0, st0) && Supported(registry, classOf, v) && MentionsOnly(v, heap.Keys)
    ensures ReadsAs(registry, classOf, heap, v, s0, st0)
    decreases |Unmet(heap, s0)|, v, 0
  {
    forall i, a | 0 <= i < |v.items| && Mentions(v.items[i], a) ensures a in heap.Keys {
      assert Mentions(v, a);
    }
    ItemsMerge(registry, classOf, heap, v.items, s0, st0);
    CollectionReadsAs(registry, classOf, heap, v, s0, st0);
  }

  lemma CollectionReadsAs(registry: Registry, classOf: ClassOf, heap: Heap, v: Value, s0: seq<Addr>, st0: State)
    requires v.List? || v.Set? || v.FrozenSet? || v.Tuple?
    requires TUPLE_CLASS in registry && registry[TUPLE_CLASS].TupleClass?
    requires ItemsReadAs(registry, classOf, heap, v.items, s0, st0)
    requires v.Set? || v.FrozenSet? ==> forall i :: 0 <= i < |v.items| ==> Hashable(v.items[i])
    ensures ReadsAs(registry, classOf, heap, v, s0, st0)
  {
    var w := WriteAll(heap, v.items, s0);
    if v.Set? || v.FrozenSet? {
      var st1 := ReadAll(registry, w.elements, st0).value.1;
      forall i | 0 <= i < |v.items| ensures Hashable(Image(v.items[i], w.slots, st1.stack)) {
        ImageKeepsHashable(v.items[i], w.slots, st1.stack);
      }
      ReadTaggedList(registry, if v.Set? then SET_TYPE else FROZEN_SET_TYPE, w.elements, st0);
      MarkersAreDistinct();
    } else if v.Tuple? {
      ReadTaggedTuple(registry, w.elements, st0);
    }
  }

  lemma {:induction false} ItemsMerge(registry: Registry, classOf: ClassOf, heap: Heap, items: seq<Value>, s0: seq<Addr>, st0: State)
    requires Ready(registry, classOf, heap, s0, st0)
    requires forall i :: 0 <= i < |items| ==> Supported(registry, classOf, items[i]) && MentionsOnly(items[i], heap.Keys)
    ensures ItemsReadAs(registry, classOf, heap, items, s0, st0)
    decreases |Unmet(heap, s0)|, items
  {
    if items == [] {
      MergesNothing(heap, classOf, s0, st0, st0);
    } else {
      var w1 := Write(heap, items[0], s0);
      ReadingMerges(registry, classOf, heap, items[0], s0, st0);
      PrefixGrows(heap, s0, w1.slots);
      ItemsMerge(registry, classOf, heap, items[1..], w1.slots, Read(registry, w1.json, st0, true).value.1);
      WriteReachesAll(heap, items[0], s0);
      ItemsMergeCons(registry, classOf, heap, items, s0, st0);
    }
  }

  lemma {:induction false} ItemsMergeCons(registry: Registry, classOf: ClassOf, heap: Heap, items: seq<Value>, s0: seq<Addr>, st0: State)
    requires items != [] && ReadsAs(registry, classOf, heap, items[0], s0, st0)
    requires MentionsOnly(items[0], Elements(Write(heap, items[0], s0).slots))
    requires var w1 := Write(heap, items[0], s0);
             ItemsReadAs(registry, classOf, heap, items[1..], w1.slots, Read(registry, w1.json, st0, true).value.1)
    ensures ItemsReadAs(registry, classOf, heap, items, s0, st0)
  {
    var w1 := Write(heap, items[0], s0);
    var w2 := WriteAll(heap, items[1..], w1.slots);
    var w := WriteAll(heap, items, s0);
    assert w == WrittenAll([w1.json] + w2.elements, w2.slots);
    assert w.elements[0] == w1.json && w.elements[1..] == w2.elements;
    var (v1, st1) := Read(registry, w1.json, st0, true).value;
    var (rest, st2) := ReadAll(registry, w2.elements, st1).value;
    assert ReadAll(registry, w.elements, st0) == Done(([v1] + rest, st2));
    MergesIsTransitive(heap, classOf, s0, st0, w1.slots, st1, w2.slots, st2);
    ImageOfPrefix(items[0], w1.slots, st1.stack, w2.slots, st2.stack);
  }

  lemma {:induction false} DictMerges(registry: Registry, classOf: ClassOf, heap: Heap, v: Value, s0: seq<Addr>, st0: State)
    requires v.Dict? && Ready(registry, classOf, heap, s0, st0)
    requires Supported(registry, classOf, v) && MentionsOnly(v, heap.Keys)
    ensures ReadsAs(registry, classOf, heap, v, s0, st0)
    decreases |Unmet(heap, s0)|, v, 0
  {
    var keys := Sorted(v.entries.Keys);
    EntriesMentionOnly(v, heap.Keys);
    var w := WriteEntries(heap, v, keys, s0);
    assert w.members.Keys == v.entries.Keys;
    EntriesMerge(registry, classOf, heap, v, keys, JDict(w.members), s0, st0);
    DictReadsAs(registry, classOf, heap, v, s0, st0);
  }

  lemma DictReadsAs(registry: Registry, classOf: ClassOf, heap: Heap, v: Value, s0: seq<Addr>, st0: State)
    requires v.Dict? && TYPE !in v.entries && OID !in v.entries
    requires var keys := Sorted(v.entries.Keys);
             EntriesReadAs(registry, classOf, heap, v, keys, JDict(WriteEntries(heap, v, keys, s0).members), s0, st0)
    ensures ReadsAs(registry, classOf, heap, v, s0, st0)
  {
    var keys := Sorted(v.entries.Keys);
    var w := WriteEntries(heap, v, keys, s0);
    DictIsWritten(heap, v, s0);
    assert TYPE !in w.members.Keys && OID !in w.members.Keys;
    DictIsRead(registry, w.members, keys, st0);
    var (entries, st1) := ReadEntries(registry, JDict(w.members), keys, st0).value;
    assert forall k :: k in v.entries ==> k in keys;
    EntriesAreImage(v, entries, w.slots, st1.stack);
  }

  lemma EntriesAreImage(v: Value, entries: map<string, Value>, s: seq<Addr>, t: seq<Addr>)
    requires v.Dict? && |s| == |t| && entries.Keys == v.entries.Keys
    requires forall k :: k in v.entries ==> entries[k] == Image(v.entries[k], s, t)
    ensures Dict(entries) == Image(v, s, t)
  {
    assert entries == map k | k in v.entries :: Image(v.entries[k], s, t);
  }

  lemma {:induction false} EntriesMerge(registry: Registry, classOf: ClassOf, heap: Heap, v: Value, keys: seq<string>, j: Json,
                                        s0: seq<Addr>, st0: State)
    requires Ready(registry, classOf, heap, s0, st0) && EntriesWritten(registry, classOf, heap, v, keys, j, s0)
    ensures EntriesReadAs(registry, classOf, heap, v, keys, j, s0, st0)
    decreases |Unmet(heap, s0)|, v, 0, |keys|
  {
    if keys == [] {
      MergesNothing(heap, classOf, s0, st0, st0);
    } else {
      var w1 := Write(heap, v.entries[keys[0]], s0);
      SplitEntries(heap, v, keys, j, s0);
      RestOfKeys(keys);
      ReadingMerges(registry, classOf, heap, v.entries[keys[0]], s0, st0);
      PrefixGrows(heap, s0, w1.slots);
      EntriesMerge(registry, classOf, heap, v, keys[1..], j, w1.slots, Read(registry, w1.json, st0, true).value.1);
      WriteReachesAll(heap, v.entries[keys[0]], s0);
      EntriesMergeCons(registry, classOf, heap, v, keys, j, s0, st0);
    }
  }

  lemma {:induction false} EntriesMergeCons(registry: Registry, classOf: ClassOf, heap: Heap, v: Value, keys: seq<string>, j: Json,
                                            s0: seq<Addr>, st0: State)
    requires keys != [] && NoDuplicates(keys) && v.Dict? && forall k :: k in keys ==> k in v.entries
    requires j.JDict? && forall k :: k in keys ==> k in j.members && j.members[k] == WriteEntries(heap, v, keys, s0).members[k]
    requires j.members[keys[0]] == Write(heap, v.entries[keys[0]], s0).json
    requires ReadsAs(registry, classOf, heap, v.entries[keys[0]], s0, st0)
    requires MentionsOnly(v.entries[keys[0]], Elements(Write(heap, v.entries[keys[0]], s0).slots))
    requires EntriesReadAs(registry, classOf, heap, v, keys[1..], j,
                           Write(heap, v.entries[keys[0]], s0).slots, Read(registry, j.members[keys[0]], st0, true).value.1)
    ensures EntriesReadAs(registry, classOf, heap, v, keys, j, s0, st0)
  {
    SplitEntries(heap, v, keys, j, s0);
    RestOfKeys(keys);
    var value := v.entries[keys[0]];
    var w1 := Write(heap, value, s0);
    var w2 := WriteEntries(heap, v, keys[1..], w1.slots);
    var (first, st1) := Read(registry, j.members[keys[0]], st0, true).value;
    var (rest, st2) := ReadEntries(registry, j, keys[1..], st1).value;
    ReadEntriesCons(registry, j, keys, st0, first, st1, rest, st2);
    MergesIsTransitive(heap, classOf, s0, st0, w1.slots, st1, w2.slots, st2);
    ImageOfPrefix(value, w1.slots, st1.stack, w2.slots, st2.stack);
    EntriesImageCons(v, keys, first, rest, w2.slots, st2.stack);
  }

  lemma {:induction false} ReadEntriesCons(registry: Registry, j: Json, keys: seq<string>, st0: State, first: Value, st1: State,
                                           rest: map<string, Value>, st2: State)
    requires j.JDict? && keys != [] && forall k :: k in keys ==> k in j.members
    requires Read(registry, j.members[keys[0]], st0, true) == Done((first, st1))
    requires ReadEntries(registry, j, keys[1..], st1) == Done((rest, st2))
    ensures ReadEntries(registry, j, keys, st0) == Done((map[keys[0] := first] + rest, st2))
    ensures forall k :: k in rest <==> k in keys[1..]
  {
    assert forall k :: k in rest <==> k in rest.Keys;
  }

  lemma EntriesImageCons(v: Value, keys: seq<string>, first: Value, rest: map<string, Value>, s: seq<Addr>, t: seq<Addr>)
    requires keys != [] && NoDuplicates(keys) && v.Dict? && |s| == |t|
    requires (forall k :: k in keys ==> k in v.entries) && first == Image(v.entries[keys[0]], s, t)
    requires forall k :: k in rest <==> k in keys[1..]
    requires forall k :: k in keys[1..] ==> rest[k] == Image(v.entries[k], s, t)
    ensures forall k :: k in keys ==> (map[keys[0] := first] + rest)[k] == Image(v.entries[k], s, t)
  {
    assert keys[0] !in keys[1..] && forall k :: k in keys ==> k == keys[0] || k in keys[1..];
  }

  lemma {:induction false} NewObjectMerges(registry: Registry, classOf: ClassOf, heap: Heap, a: Addr, s0: seq<Addr>, st0: State)
    requires Ready(registry, classOf, heap, s0, st0) && a in heap && a !in s0
    ensures ReadsAs(registry, classOf, heap, Obj(a), s0, st0)
    decreases |Unmet(heap, s0)|, Obj(a), 0
  {
    var state := Dict(Kept(heap[a].attributes));
    WriteNewObject(heap, a, s0);
    AllocatingIsReady(registry, classOf, heap, a, s0, st0);
    ReadingMerges(registry, classOf, heap, state, s0 + [a], Allocate(st0));
    WriteReachesObject(heap, a, s0);
    NewObjectReadsAs(registry, classOf, heap, a, s0, st0);
  }

  lemma AllocatingIsReady(registry: Registry, classOf: ClassOf, heap: Heap, a: Addr, s0: seq<Addr>, st0: State)
    requires Ready(registry, classOf, heap, s0, st0)
    ensures Ready(registry, classOf, heap, s0 + [a], Allocate(st0))
  {
  }

  lemma NewObjectReadsAs(registry: Registry, classOf: ClassOf, heap: Heap, a: Addr, s0: seq<Addr>, st0: State)
    requires a in heap && a !in s0 && |s0| == |st0.stack| && SupportedObject(registry, classOf, heap[a])
    requires ClosedSince(heap, s0, Write(heap, Obj(a), s0).slots)
    requires ReadsAs(registry, classOf, heap, Dict(Kept(heap[a].attributes)), s0 + [a], Allocate(st0))
    ensures ReadsAs(registry, classOf, heap, Obj(a), s0, st0)
  {
    WriteNewObject(heap, a, s0);
    var w := Write(heap, Dict(Kept(heap[a].attributes)), s0 + [a]);
    ReadTaggedObject(registry, heap[a].cls, w.json, st0);
    var st1 := Read(registry, w.json, Allocate(st0), true).value.1;
    ObjectMerges(registry, classOf, heap, a, s0, st0, w.slots, st1);
  }
}
