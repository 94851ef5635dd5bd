/**
 What comes back when ids are remembered already or collide: which positions share an object, when everything
 that is read is finished, and when its content is what was written.
 */
module MergedReads {
  import opened Common
  import opened Values
  import opened Writer
  import opened Reader
  import opened RoundTrip
  import opened Isomorphism
  import opened Merging

  /** A record is read: the stack is empty, but the reader may remember objects from before. */
  ghost predicate IsReading(registry: Registry, classOf: ClassOf, heap: Heap, v: Value, st0: State, v': Value, st1: State) {
    && Ready(registry, classOf, heap, [], st0) && Supported(registry, classOf, v) && MentionsOnly(v, heap.Keys)
    && Read(registry, Write(heap, v, []).json, st0, true) == Done((v', st1))
  }

  /** The objects written, in the order in which they are met. */
  function Slots(heap: Heap, v: Value): seq<Addr> {
    Write(heap, v, []).slots
  }

  /** An earlier object takes the place of the one at this position. */
  ghost predicate Replaced(heap: Heap, s: seq<Addr>, st0: State, k: nat)
    requires k < |s|
  {
    IsReplaced(heap, s, 0, st0.normal, k)
  }

  ghost predicate SharesId(heap: Heap, a: Addr, b: Addr) {
    exists id :: HasId(heap, a, id) && HasId(heap, b, id)
  }

  lemma ReadingSettles(registry: Registry, classOf: ClassOf, heap: Heap, v: Value, st0: State, v': Value, st1: State)
    requires IsReading(registry, classOf, heap, v, st0, v', st1)
    ensures var s := Slots(heap, v);
            && Merges(heap, classOf, [], st0, s, st1) && v' == Image(v, s, st1.stack)
            && NoDuplicates(s) && MentionsOnly(v, Elements(s)) && |st1.heap| == |st0.heap| + |s|
  {
    ReadingMerges(registry, classOf, heap, v, [], st0);
    WritesExactlyTheReachable(heap, v);
  }

  // ---------- Which object stands at a position ----------

  /** The object at the position, as reading leaves it: finished, and the one remembered under its id. */
  ghost predicate IsPlaced(heap: Heap, s: seq<Addr>, st0: State, st1: State, k: nat)
    requires k < |s| == |st1.stack|
  {
    var own, b := |st0.heap| + k, st1.stack[k];
    && b < |st1.heap| && st1.heap[b].Built? && own < |st1.heap|
    && (forall id :: HasId(heap, s[k], id) ==> id in st1.normal && st1.normal[id] == b)
    && (forall id :: HasId(heap, s[k], id) && id in st0.normal ==> b == st0.normal[id])
    && (if Replaced(heap, s, st0, k) then b != own && st1.heap[own] == Blank else b == own)
  }

  /**
   Reading replaces every reference to an object, the first as well as those back to it, by the one object
   that stands at its position: what is remembered under its id, or else a new one. Two positions have one
   object exactly if they are the same or their objects share an id.
   */
  lemma PositionsAreMerged(registry: Registry, classOf: ClassOf, heap: Heap, v: Value, st0: State, v': Value, st1: State)
    requires IsReading(registry, classOf, heap, v, st0, v', st1)
    ensures var s := Slots(heap, v);
            && |st1.stack| == |s| && NoDuplicates(s) && |st1.heap| == |st0.heap| + |s|
            && v' == Image(v, s, st1.stack)
            && (forall k :: 0 <= k < |s| ==> IsPlaced(heap, s, st0, st1, k))
            && (forall j, k :: 0 <= j < |s| && 0 <= k < |s| ==>
                  (st1.stack[j] == st1.stack[k] <==> j == k || SharesId(heap, s[j], s[k])))
  {
    ReadingSettles(registry, classOf, heap, v, st0, v', st1);
    var s := Slots(heap, v);
    forall k | 0 <= k < |s| ensures IsPlaced(heap, s, st0, st1, k) {
      SettledIsPlaced(heap, s, st0, st1, k);
    }
    forall j, k | 0 <= j < |s| && 0 <= k < |s|
      ensures st1.stack[j] == st1.stack[k] <==> j == k || SharesId(heap, s[j], s[k])
    {
      OneObjectIff(heap, s, st0, st1, j, k);
    }
  }

  lemma SettledIsPlaced(heap: Heap, s: seq<Addr>, st0: State, st1: State, k: nat)
    requires k < |s| == |st1.stack| && AllSettled(heap, [], st0, s, st1) && RemembersMore(heap, [], st0, s, st1)
    ensures IsPlaced(heap, s, st0, st1, k)
  {
    assert Settled(heap, [], st0, s, st1, k);
  }

  lemma OneObjectIff(heap: Heap, s: seq<Addr>, st0: State, st1: State, j: nat, k: nat)
    requires j < |s| == |st1.stack| && k < |s| && AllSettled(heap, [], st0, s, st1) && MergedById(st1)
    ensures st1.stack[j] == st1.stack[k] <==> j == k || SharesId(heap, s[j], s[k])
  {
    assert Settled(heap, [], st0, s, st1, j) && Settled(heap, [], st0, s, st1, k);
    if st1.stack[j] == st1.stack[k] && j != k {
      SharedMeansId(heap, s, st0, st1, j, k);
    }
  }

  /** The object at a position that is replaced, or shared, has the id of the object written there. */
  lemma ReplacedHasId(heap: Heap, s: seq<Addr>, st0: State, st1: State, k: nat) returns (id: string)
    requires k < |s| == |st1.stack| && Settled(heap, [], st0, s, st1, k) && Replaced(heap, s, st0, k) && MergedById(st1)
    ensures HasId(heap, s[k], id) && id in st1.normal && st1.normal[id] == st1.stack[k] && IsFinished(st1, id, st1.stack[k])
  {
    id :| HasId(heap, s[k], id) && IsKnown(heap, s, 0, st0.normal, k, id);
  }

  /** What is built at a position has the id of what was written there. */
  lemma BuiltHasId(heap: Heap, s: seq<Addr>, st0: State, st1: State, k: nat, id: string)
    requires k < |s| == |st1.stack| && Settled(heap, [], st0, s, st1, k) && !Replaced(heap, s, st0, k)
    ensures st1.stack[k] == |st0.heap| + k
    ensures IsFinished(st1, id, st1.stack[k]) ==> HasId(heap, s[k], id)
  {
    ImageKeepsId(Kept(heap[s[k]].attributes), s, View(heap, s, 0, |st0.heap|, st1.stack, k));
  }

  lemma SharedMeansId(heap: Heap, s: seq<Addr>, st0: State, st1: State, j: nat, k: nat)
    requires j < |s| == |st1.stack| && k < |s| && j != k && st1.stack[j] == st1.stack[k] && MergedById(st1)
    requires Settled(heap, [], st0, s, st1, j) && Settled(heap, [], st0, s, st1, k)
    ensures SharesId(heap, s[j], s[k])
  {
    if Replaced(heap, s, st0, j) {
      var id := ReplacedHasId(heap, s, st0, st1, j);
      if Replaced(heap, s, st0, k) {
        var id' := ReplacedHasId(heap, s, st0, st1, k);
        assert id == id';
      } else {
        BuiltHasId(heap, s, st0, st1, k, id);
      }
    } else if Replaced(heap, s, st0, k) {
      var id := ReplacedHasId(heap, s, st0, st1, k);
      BuiltHasId(heap, s, st0, st1, j, id);
    }
  }

  // ---------- When everything read is finished ----------

  /** A new object refers to another, which it was met within, and whose place was taken in the end. */
  ghost predicate IsCaptured(heap: Heap, s: seq<Addr>, st0: State, j: nat, k: nat)
    requires j < |s| && k < |s| && s[k] in heap
  {
    && Replaced(heap, s, st0, j) && !Replaced(heap, s, st0, k)
    && Encloses(heap, s, j, k) && Mentions(Dict(Kept(heap[s[k]].attributes)), s[j])
  }

  ghost predicate NothingIsCaptured(heap: Heap, s: seq<Addr>, st0: State)
    requires forall k :: 0 <= k < |s| ==> s[k] in heap
  {
    forall j: nat, k: nat :: j < |s| && k < |s| ==> !IsCaptured(heap, s, st0, j, k)
  }

  ghost predicate MentionsFinished(cells: seq<Cell>, v: Value) {
    forall b: Addr :: Mentions(v, b) ==> b < |cells| && cells[b].Built?
  }

  /** No finished object refers to one that never got its attributes. */
  ghost predicate AllFinished(st: State) {
    forall b :: 0 <= b < |st.heap| && st.heap[b].Built? ==> MentionsFinished(st.heap, Dict(st.heap[b].made.attributes))
  }

  /** What an image mentions is what the value mentions, moved. */
  lemma {:induction false} ImageMentions(v: Value, s: seq<Addr>, t: seq<Addr>, b: Addr)
    requires |s| == |t|
    ensures Mentions(Image(v, s, t), b) <==> exists a :: Mentions(v, a) && Moved(a, s, t) == b
    decreases v
  {
    if v.List? || v.Set? || v.FrozenSet? || v.Tuple? {
      forall i | 0 <= i < |v.items|
        ensures Mentions(Image(v.items[i], s, t), b) <==> exists a :: Mentions(v.items[i], a) && Moved(a, s, t) == b
      {
        ImageMentions(v.items[i], s, t, b);
      }
      CollectionMentions(v, s, t, b);
    } else if v.Dict? {
      forall k | k in v.entries
        ensures Mentions(Image(v.entries[k], s, t), b) <==> exists a :: Mentions(v.entries[k], a) && Moved(a, s, t) == b
      {
        ImageMentions(v.entries[k], s, t, b);
      }
      DictMentions(v, s, t, b);
    } else if v.Obj? {
      assert Mentions(v, v.addr);
    }
  }

  ghost predicate AnyMentions(items: seq<Value>, b: Addr) {
    exists i :: 0 <= i < |items| && Mentions(items[i], b)
  }

  lemma SameMembersMention(xs: seq<Value>, ys: seq<Value>, b: Addr)
    requires forall x :: x in xs <==> x in ys
    ensures AnyMentions(xs, b) <==> AnyMentions(ys, b)
  {
    if i :| 0 <= i < |xs| && Mentions(xs[i], b) {
      assert xs[i] in ys;
    }
    if i :| 0 <= i < |ys| && Mentions(ys[i], b) {
      assert ys[i] in xs;
    }
  }

  lemma ImagesMention(items: seq<Value>, s: seq<Addr>, t: seq<Addr>, b: Addr) returns (a: Addr)
    requires |s| == |t| && AnyMentions(ImageAll(items, s, t), b)
    requires forall i :: 0 <= i < |items| && Mentions(Image(items[i], s, t), b) ==> exists x :: Mentions(items[i], x) && Moved(x, s, t) == b
    ensures AnyMentions(items, a) && Moved(a, s, t) == b
  {
    var images := ImageAll(items, s, t);
    var n :| 0 <= n < |images| && Mentions(images[n], b);
    assert Mentions(Image(items[n], s, t), b);
    a :| Mentions(items[n], a) && Moved(a, s, t) == b;
  }

  lemma MentionedInImages(items: seq<Value>, s: seq<Addr>, t: seq<Addr>, a: Addr)
    requires |s| == |t| && AnyMentions(items, a)
    requires forall i :: 0 <= i < |items| && Mentions(items[i], a) ==> Mentions(Image(items[i], s, t), Moved(a, s, t))
    ensures AnyMentions(ImageAll(items, s, t), Moved(a, s, t))
  {
    var n :| 0 <= n < |items| && Mentions(items[n], a);
    assert Mentions(ImageAll(items, s, t)[n], Moved(a, s, t));
  }

  lemma MentionsAMember(v: Value, b: Addr)
    requires v.List? || v.Set? || v.FrozenSet? || v.Tuple?
    ensures Mentions(v, b) <==> AnyMentions(v.items, b)
  {
  }

  lemma CollectionMentions(v: Value, s: seq<Addr>, t: seq<Addr>, b: Addr)
    requires |s| == |t| && (v.List? || v.Set? || v.FrozenSet? || v.Tuple?)
    requires forall i :: 0 <= i < |v.items| ==>
               (Mentions(Image(v.items[i], s, t), b) <==> exists a :: Mentions(v.items[i], a) && Moved(a, s, t) == b)
    ensures Mentions(Image(v, s, t), b) <==> exists a :: Mentions(v, a) && Moved(a, s, t) == b
  {
    SameMembersMention(Image(v, s, t).items, ImageAll(v.items, s, t), b);
    MentionsAMember(Image(v, s, t), b);
    if Mentions(Image(v, s, t), b) {
      var a := ImagesMention(v.items, s, t, b);
      MentionsAMember(v, a);
    }
    if a :| Mentions(v, a) && Moved(a, s, t) == b {
      MentionsAMember(v, a);
      MentionedInImages(v.items, s, t, a);
    }
  }

  lemma DictMentions(v: Value, s: seq<Addr>, t: seq<Addr>, b: Addr)
    requires |s| == |t| && v.Dict?
    requires forall k :: k in v.entries ==>
               (Mentions(Image(v.entries[k], s, t), b) <==> exists a :: Mentions(v.entries[k], a) && Moved(a, s, t) == b)
    ensures Mentions(Image(v, s, t), b) <==> exists a :: Mentions(v, a) && Moved(a, s, t) == b
  {
    var w := Image(v, s, t);
    if Mentions(w, b) {
      var k :| k in w.entries && Mentions(w.entries[k], b);
      var a :| Mentions(v.entries[k], a) && Moved(a, s, t) == b;
      assert Mentions(v, a);
    }
    if a :| Mentions(v, a) && Moved(a, s, t) == b {
      var k :| k in v.entries && Mentions(v.entries[k], a);
      assert Mentions(w.entries[k], b);
    }
  }

  lemma SlotIs(s: seq<Addr>, k: nat)
    requires NoDuplicates(s) && k < |s|
    ensures Slot(s, s[k]) == k
  {
  }

  /** The attributes of a new object are those written, as seen while they were read. */
  lemma NewObjectHolds(heap: Heap, s: seq<Addr>, st0: State, st1: State, k: nat) returns (view: seq<Addr>)
    requires k < |s| == |st1.stack| && Settled(heap, [], st0, s, st1, k) && !Replaced(heap, s, st0, k)
    ensures |view| == |s| && forall i :: 0 <= i < |s| ==> view[i] == if Encloses(heap, s, i, k) then |st0.heap| + i else st1.stack[i]
    ensures st1.stack[k] == |st0.heap| + k && st1.heap[|st0.heap| + k].made.cls == heap[s[k]].cls
    ensures Dict(st1.heap[|st0.heap| + k].made.attributes) == Image(Dict(Kept(heap[s[k]].attributes)), s, view)
  {
    view := View(heap, s, 0, |st0.heap|, st1.stack, k);
  }

  lemma ImageMentionsMoved(v: Value, s: seq<Addr>, t: seq<Addr>, i: nat)
    requires |s| == |t| && i < |s| && NoDuplicates(s) && Mentions(v, s[i])
    ensures Mentions(Image(v, s, t), t[i])
  {
    SlotIs(s, i);
    ImageMentions(v, s, t, t[i]);
    assert Moved(s[i], s, t) == t[i];
  }

  lemma ImageMentionsOnlyMoved(v: Value, s: seq<Addr>, t: seq<Addr>, b: Addr) returns (i: nat)
    requires |s| == |t| && MentionsOnly(v, Elements(s)) && Mentions(Image(v, s, t), b)
    ensures i < |s| && Mentions(v, s[i]) && t[i] == b
  {
    ImageMentions(v, s, t, b);
    var a :| Mentions(v, a) && Moved(a, s, t) == b;
    assert a in Elements(s);
    i := Slot(s, a);
  }

  lemma FinishedAgain(st0: State, st1: State, v: Value)
    requires KeepsOld(st0, st1) && MentionsFinished(st0.heap, v)
    ensures MentionsFinished(st1.heap, v)
  {
  }

  ghost predicate IsUnfinished(cells: seq<Cell>, b: Addr) {
    b < |cells| ==> cells[b].Blank?
  }

  /** A finished object refers to an unfinished one. */
  ghost predicate RefersToUnfinished(cells: seq<Cell>, b: Addr, c: Addr) {
    b < |cells| && cells[b].Built? && Mentions(Dict(cells[b].made.attributes), c) && IsUnfinished(cells, c)
  }

  /** What positions, heap and stack are like after reading. */
  ghost predicate IsMergedState(heap: Heap, s: seq<Addr>, st0: State, st1: State) {
    && |s| == |st1.stack| && NoDuplicates(s) && ClosedSince(heap, [], s) && |st1.heap| == |st0.heap| + |s|
    && KeepsOld(st0, st1) && AllSettled(heap, [], st0, s, st1)
  }

  lemma ResultIsFinished(heap: Heap, v: Value, s: seq<Addr>, st0: State, st1: State)
    requires IsMergedState(heap, s, st0, st1) && MentionsOnly(v, Elements(s))
    ensures MentionsFinished(st1.heap, Image(v, s, st1.stack))
  {
    forall b: Addr | Mentions(Image(v, s, st1.stack), b) ensures b < |st1.heap| && st1.heap[b].Built? {
      var i := ImageMentionsOnlyMoved(v, s, st1.stack, b);
      assert Settled(heap, [], st0, s, st1, i);
    }
  }

  lemma NewCellIsUnreplaced(heap: Heap, s: seq<Addr>, st0: State, st1: State, b: nat)
    requires IsMergedState(heap, s, st0, st1) && |st0.heap| <= b < |st1.heap| && st1.heap[b].Built?
    ensures Settled(heap, [], st0, s, st1, b - |st0.heap|) && !Replaced(heap, s, st0, b - |st0.heap|)
  {
    assert Settled(heap, [], st0, s, st1, b - |st0.heap|);
  }

  /** A finished object that refers to an unfinished one is new, and has captured it. */
  lemma UnfinishedIsCaptured(heap: Heap, s: seq<Addr>, st0: State, st1: State, b: nat, c: Addr) returns (j: nat, k: nat)
    requires IsMergedState(heap, s, st0, st1) && AllFinished(st0)
    requires RefersToUnfinished(st1.heap, b, c)
    ensures j < |s| && k < |s| && b == |st0.heap| + k && IsCaptured(heap, s, st0, j, k)
  {
    if b < |st0.heap| {
      assert st0.heap[b] == st1.heap[b];
      FinishedAgain(st0, st1, Dict(st0.heap[b].made.attributes));
      assert false;
    } else {
      k := b - |st0.heap|;
      NewCellIsUnreplaced(heap, s, st0, st1, b);
      var view := NewObjectHolds(heap, s, st0, st1, k);
      j := ImageMentionsOnlyMoved(Dict(Kept(heap[s[k]].attributes)), s, view, c);
      assert Settled(heap, [], st0, s, st1, j);
    }
  }

  lemma ReplacedIsBlank(heap: Heap, s: seq<Addr>, st0: State, st1: State, j: nat)
    requires IsMergedState(heap, s, st0, st1) && j < |s| && Replaced(heap, s, st0, j)
    ensures IsUnfinished(st1.heap, |st0.heap| + j)
  {
    assert Settled(heap, [], st0, s, st1, j);
  }

  /** What a new object referred to when it was written within it, it still refers to by the object that was there then. */
  lemma EnclosingIsMentioned(heap: Heap, s: seq<Addr>, st0: State, st1: State, j: nat, k: nat)
    requires IsMergedState(heap, s, st0, st1) && j < |s| && k < |s| && !Replaced(heap, s, st0, k) && Encloses(heap, s, j, k)
    requires Mentions(Dict(Kept(heap[s[k]].attributes)), s[j])
    ensures var own := |st0.heap| + k;
            own < |st1.heap| && st1.heap[own].Built? && Mentions(Dict(st1.heap[own].made.attributes), |st0.heap| + j)
  {
    assert Settled(heap, [], st0, s, st1, k);
    var view := NewObjectHolds(heap, s, st0, st1, k);
    ImageMentionsMoved(Dict(Kept(heap[s[k]].attributes)), s, view, j);
  }

  lemma CapturedIsBlank(heap: Heap, s: seq<Addr>, st0: State, st1: State, j: nat, k: nat)
    requires IsMergedState(heap, s, st0, st1) && j < |s| && k < |s| && IsCaptured(heap, s, st0, j, k)
    ensures RefersToUnfinished(st1.heap, |st0.heap| + k, |st0.heap| + j)
    ensures !AllFinished(st1)
    ensures forall v :: Reaches(st1.heap, v, |st0.heap| + k) ==> UnfinishedIsReached(st1.heap, v)
  {
    ReplacedIsBlank(heap, s, st0, st1, j);
    EnclosingIsMentioned(heap, s, st0, st1, j, k);
    RefersIsReached(st1, |st0.heap| + k, |st0.heap| + j);
  }

  lemma RefersIsReached(st: State, b: Addr, c: Addr)
    requires RefersToUnfinished(st.heap, b, c)
    ensures !AllFinished(st)
    ensures forall v :: Reaches(st.heap, v, b) ==> UnfinishedIsReached(st.heap, v)
  {
    forall v | Reaches(st.heap, v, b) ensures UnfinishedIsReached(st.heap, v) {
      ReachesNext(st.heap, v, b, c);
    }
  }

  lemma CellIsFinished(heap: Heap, s: seq<Addr>, st0: State, st1: State, b: nat)
    requires IsMergedState(heap, s, st0, st1) && AllFinished(st0) && NothingIsCaptured(heap, s, st0)
    requires b < |st1.heap| && st1.heap[b].Built?
    ensures MentionsFinished(st1.heap, Dict(st1.heap[b].made.attributes))
  {
    forall c: Addr | Mentions(Dict(st1.heap[b].made.attributes), c) ensures !IsUnfinished(st1.heap, c) {
      if IsUnfinished(st1.heap, c) {
        var j, k := UnfinishedIsCaptured(heap, s, st0, st1, b, c);
        assert false;
      }
    }
  }

  lemma FinishedUnlessCaptured(heap: Heap, s: seq<Addr>, st0: State, st1: State)
    requires IsMergedState(heap, s, st0, st1) && AllFinished(st0)
    ensures AllFinished(st1) <==> NothingIsCaptured(heap, s, st0)
  {
    if NothingIsCaptured(heap, s, st0) {
      forall b | 0 <= b < |st1.heap| && st1.heap[b].Built?
        ensures MentionsFinished(st1.heap, Dict(st1.heap[b].made.attributes))
      {
        CellIsFinished(heap, s, st0, st1, b);
      }
    }
    if j: nat, k: nat :| j < |s| && k < |s| && IsCaptured(heap, s, st0, j, k) {
      CapturedIsBlank(heap, s, st0, st1, j, k);
    }
  }

  /**
   No finished object refers to an unfinished one after reading, if none did before, exactly if nothing is
   captured. What is read itself never does.
   */
  lemma AllFinishedIff(registry: Registry, classOf: ClassOf, heap: Heap, v: Value, st0: State, v': Value, st1: State)
    requires IsReading(registry, classOf, heap, v, st0, v', st1) && AllFinished(st0)
    ensures MentionsFinished(st1.heap, v')
    ensures forall k :: 0 <= k < |Slots(heap, v)| ==> Slots(heap, v)[k] in heap
    ensures AllFinished(st1) <==> NothingIsCaptured(heap, Slots(heap, v), st0)
  {
    ReadingSettles(registry, classOf, heap, v, st0, v', st1);
    ResultIsFinished(heap, v, Slots(heap, v), st0, st1);
    FinishedUnlessCaptured(heap, Slots(heap, v), st0, st1);
  }

  /** The value mentions the first object of the path, and each mentions the next. */
  ghost predicate LeadsTo(cells: seq<Cell>, v: Value, path: seq<Addr>) {
    path != [] && Mentions(v, path[0]) && forall i :: 0 <= i < |path| - 1 ==> LeadsOn(cells, path, i)
  }

  ghost predicate LeadsOn(cells: seq<Cell>, path: seq<Addr>, i: nat)
    requires i + 1 < |path|
  {
    path[i] < |cells| && cells[path[i]].Built? && Mentions(Dict(cells[path[i]].made.attributes), path[i + 1])
  }

  ghost predicate Reaches(cells: seq<Cell>, v: Value, b: Addr) {
    exists path :: LeadsTo(cells, v, path) && path[|path| - 1] == b
  }

  lemma ReachesNext(cells: seq<Cell>, v: Value, b: Addr, c: Addr)
    requires Reaches(cells, v, b) && b < |cells| && cells[b].Built? && Mentions(Dict(cells[b].made.attributes), c)
    ensures Reaches(cells, v, c)
  {
    var path :| LeadsTo(cells, v, path) && path[|path| - 1] == b;
    var longer := path + [c];
    forall i | 0 <= i < |longer| - 1 ensures LeadsOn(cells, longer, i) {
      if i < |path| - 1 {
        assert LeadsOn(cells, path, i);
      }
    }
    assert LeadsTo(cells, v, longer) && longer[|longer| - 1] == c;
  }

  ghost predicate UnfinishedIsReached(cells: seq<Cell>, v: Value) {
    exists b: Addr :: Reaches(cells, v, b) && IsUnfinished(cells, b)
  }

  /** An object that has captured another can be reached. */
  ghost predicate CapturedIsReached(heap: Heap, s: seq<Addr>, st0: State, cells: seq<Cell>, v: Value)
    requires forall k :: 0 <= k < |s| ==> s[k] in heap
  {
    exists j: nat, k: nat :: j < |s| && k < |s| && IsCaptured(heap, s, st0, j, k) && Reaches(cells, v, |st0.heap| + k)
  }

  lemma UnfinishedComesFromCaptured(heap: Heap, s: seq<Addr>, st0: State, st1: State, v: Value, b: Addr)
    requires IsMergedState(heap, s, st0, st1) && AllFinished(st0) && MentionsFinished(st1.heap, v)
    requires Reaches(st1.heap, v, b) && IsUnfinished(st1.heap, b)
    ensures CapturedIsReached(heap, s, st0, st1.heap, v)
  {
    var c := LastFinished(st1.heap, v, b);
    var j, k := UnfinishedIsCaptured(heap, s, st0, st1, c, b);
    assert IsCaptured(heap, s, st0, j, k) && Reaches(st1.heap, v, |st0.heap| + k);
  }

  lemma CapturedLeadsToUnfinished(heap: Heap, s: seq<Addr>, st0: State, st1: State, v: Value)
    requires IsMergedState(heap, s, st0, st1) && CapturedIsReached(heap, s, st0, st1.heap, v)
    ensures UnfinishedIsReached(st1.heap, v)
  {
    var j: nat, k: nat :| j < |s| && k < |s| && IsCaptured(heap, s, st0, j, k) && Reaches(st1.heap, v, |st0.heap| + k);
    CapturedIsBlank(heap, s, st0, st1, j, k);
  }

  /** An unfinished object can be reached from what is read exactly if one can be reached that has captured it. */
  lemma UnfinishedIsReachedIff(registry: Registry, classOf: ClassOf, heap: Heap, v: Value, st0: State, v': Value, st1: State)
    requires IsReading(registry, classOf, heap, v, st0, v', st1) && AllFinished(st0)
    ensures forall k :: 0 <= k < |Slots(heap, v)| ==> Slots(heap, v)[k] in heap
    ensures UnfinishedIsReached(st1.heap, v') <==> CapturedIsReached(heap, Slots(heap, v), st0, st1.heap, v')
  {
    var s := Slots(heap, v);
    ReadingSettles(registry, classOf, heap, v, st0, v', st1);
    ResultIsFinished(heap, v, s, st0, st1);
    if UnfinishedIsReached(st1.heap, v') {
      var b: Addr :| Reaches(st1.heap, v', b) && IsUnfinished(st1.heap, b);
      UnfinishedComesFromCaptured(heap, s, st0, st1, v', b);
    }
    if CapturedIsReached(heap, s, st0, st1.heap, v') {
      CapturedLeadsToUnfinished(heap, s, st0, st1, v');
    }
  }

  /** The object on the way that mentions an unfinished one. */
  lemma LastFinished(cells: seq<Cell>, v: Value, b: Addr) returns (c: Addr)
    requires MentionsFinished(cells, v) && Reaches(cells, v, b) && IsUnfinished(cells, b)
    ensures Reaches(cells, v, c) && RefersToUnfinished(cells, c, b)
  {
    var path :| LeadsTo(cells, v, path) && path[|path| - 1] == b;
    var front := path[..|path| - 1];
    c := path[|path| - 2];
    assert LeadsOn(cells, path, |path| - 2);
    forall i | 0 <= i < |front| - 1 ensures LeadsOn(cells, front, i) {
      assert LeadsOn(cells, path, i);
    }
    assert LeadsTo(cells, v, front) && front[|front| - 1] == c;
  }
}
