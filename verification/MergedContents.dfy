/** When what is read has the content of what was written, objects with one id being one object. */
module MergedContents {
  import opened Common
  import opened Values
  import opened Writer
  import opened Reader
  import opened RoundTrip
  import opened Isomorphism
  import opened Merging
  import opened MergedReads

  // ---------- Values that are alike ----------

  type Rel = iset<(Addr, Addr)>

  /** The values are the same, up to related objects; of a set, what counts is its members. */
  ghost predicate Alike(v: Value, w: Value, rel: Rel)
    decreases v, 0
  {
    match v
    case List(items) => w.List? && |items| == |w.items| && forall i :: 0 <= i < |items| ==> Alike(items[i], w.items[i], rel)
    case Tuple(items) => w.Tuple? && |items| == |w.items| && forall i :: 0 <= i < |items| ==> Alike(items[i], w.items[i], rel)
    case Set(items) => w.Set? && Covers(items, w.items, rel)
    case FrozenSet(items) => w.FrozenSet? && Covers(items, w.items, rel)
    case Dict(entries) => w.Dict? && entries.Keys == w.entries.Keys && forall k :: k in entries ==> Alike(entries[k], w.entries[k], rel)
    case Obj(a) => w.Obj? && (a, w.addr) in rel
    case _ => w == v
  }

  /** Every member of either side is like one of the other. */
  ghost predicate Covers(xs: seq<Value>, ys: seq<Value>, rel: Rel)
    decreases xs, 2
  {
    && (forall i :: 0 <= i < |xs| ==> IsLikeOneOf(xs[i], ys, rel))
    && (forall j :: 0 <= j < |ys| ==> OneIsLike(xs, ys[j], rel))
  }

  ghost predicate IsLikeOneOf(x: Value, ys: seq<Value>, rel: Rel)
    decreases x, 1
  {
    exists j :: 0 <= j < |ys| && Alike(x, ys[j], rel)
  }

  ghost predicate OneIsLike(xs: seq<Value>, y: Value, rel: Rel)
    decreases xs, 1
  {
    exists i :: 0 <= i < |xs| && Alike(xs[i], y, rel)
  }

  ghost predicate IsOrdered(v: Value) {
    v.List? || v.Tuple?
  }

  ghost predicate IsUnordered(v: Value) {
    v.Set? || v.FrozenSet?
  }

  // Every implication between likenesses is proved for members first.

  ghost predicate Carries(xs: seq<Value>, ys: seq<Value>, rel: Rel, rel': Rel) {
    forall i, j :: 0 <= i < |xs| && 0 <= j < |ys| && Alike(xs[i], ys[j], rel) ==> Alike(xs[i], ys[j], rel')
  }

  lemma {:induction false} CoversStill(xs: seq<Value>, ys: seq<Value>, rel: Rel, rel': Rel)
    requires Covers(xs, ys, rel) && Carries(xs, ys, rel, rel')
    ensures Covers(xs, ys, rel')
  {
    forall i | 0 <= i < |xs| ensures IsLikeOneOf(xs[i], ys, rel') {
      assert IsLikeOneOf(xs[i], ys, rel);
      var j :| 0 <= j < |ys| && Alike(xs[i], ys[j], rel);
      assert Alike(xs[i], ys[j], rel');
    }
    forall j | 0 <= j < |ys| ensures OneIsLike(xs, ys[j], rel') {
      assert OneIsLike(xs, ys[j], rel);
      var i :| 0 <= i < |xs| && Alike(xs[i], ys[j], rel);
      assert Alike(xs[i], ys[j], rel');
    }
  }

  /** Only what the second value mentions matters. */
  lemma {:induction false} AlikeWithin(v: Value, w: Value, rel: Rel, rel': Rel)
    requires Alike(v, w, rel) && forall a: Addr, b: Addr :: (a, b) in rel && Mentions(w, b) ==> (a, b) in rel'
    ensures Alike(v, w, rel')
    decreases v
  {
    if IsOrdered(v) {
      forall i | 0 <= i < |v.items| ensures Alike(v.items[i], w.items[i], rel') {
        assert forall b :: Mentions(w.items[i], b) ==> Mentions(w, b);
        AlikeWithin(v.items[i], w.items[i], rel, rel');
      }
    } else if IsUnordered(v) {
      forall i, j | 0 <= i < |v.items| && 0 <= j < |w.items| && Alike(v.items[i], w.items[j], rel)
        ensures Alike(v.items[i], w.items[j], rel')
      {
        assert forall b :: Mentions(w.items[j], b) ==> Mentions(w, b);
        AlikeWithin(v.items[i], w.items[j], rel, rel');
      }
      CoversStill(v.items, w.items, rel, rel');
    } else if v.Dict? {
      forall k | k in v.entries ensures Alike(v.entries[k], w.entries[k], rel') {
        assert k in w.entries.Keys;
        assert forall b :: Mentions(w.entries[k], b) ==> Mentions(w, b);
        AlikeWithin(v.entries[k], w.entries[k], rel, rel');
      }
    } else if v.Obj? {
      assert Mentions(w, w.addr);
    }
  }

  ghost predicate Composes(us: seq<Value>, vs: seq<Value>, ws: seq<Value>, r1: Rel, r2: Rel, rel: Rel) {
    forall i, j, k :: 0 <= i < |us| && 0 <= j < |vs| && 0 <= k < |ws| && Alike(us[i], vs[j], r1) && Alike(vs[j], ws[k], r2)
      ==> Alike(us[i], ws[k], rel)
  }

  lemma {:induction false} CoversComposes(us: seq<Value>, vs: seq<Value>, ws: seq<Value>, r1: Rel, r2: Rel, rel: Rel)
    requires Covers(us, vs, r1) && Covers(vs, ws, r2) && Composes(us, vs, ws, r1, r2, rel)
    ensures Covers(us, ws, rel)
  {
    forall i | 0 <= i < |us| ensures IsLikeOneOf(us[i], ws, rel) {
      assert IsLikeOneOf(us[i], vs, r1);
      var j :| 0 <= j < |vs| && Alike(us[i], vs[j], r1);
      assert IsLikeOneOf(vs[j], ws, r2);
      var k :| 0 <= k < |ws| && Alike(vs[j], ws[k], r2);
      assert Alike(us[i], ws[k], rel);
    }
    forall k | 0 <= k < |ws| ensures OneIsLike(us, ws[k], rel) {
      assert OneIsLike(vs, ws[k], r2);
      var j :| 0 <= j < |vs| && Alike(vs[j], ws[k], r2);
      assert OneIsLike(us, vs[j], r1);
      var i :| 0 <= i < |us| && Alike(us[i], vs[j], r1);
      assert Alike(us[i], ws[k], rel);
    }
  }

  lemma {:induction false} AlikeComposes(u: Value, v: Value, w: Value, r1: Rel, r2: Rel, rel: Rel)
    requires Alike(u, v, r1) && Alike(v, w, r2)
    requires forall a: Addr, b: Addr, c: Addr :: (a, b) in r1 && (b, c) in r2 ==> (a, c) in rel
    ensures Alike(u, w, rel)
    decreases u
  {
    if IsOrdered(u) {
      forall i | 0 <= i < |u.items| ensures Alike(u.items[i], w.items[i], rel) {
        AlikeComposes(u.items[i], v.items[i], w.items[i], r1, r2, rel);
      }
    } else if IsUnordered(u) {
      forall i, j, k | 0 <= i < |u.items| && 0 <= j < |v.items| && 0 <= k < |w.items|
                       && Alike(u.items[i], v.items[j], r1) && Alike(v.items[j], w.items[k], r2)
        ensures Alike(u.items[i], w.items[k], rel)
      {
        AlikeComposes(u.items[i], v.items[j], w.items[k], r1, r2, rel);
      }
      CoversComposes(u.items, v.items, w.items, r1, r2, rel);
    } else if u.Dict? {
      forall k | k in u.entries ensures Alike(u.entries[k], w.entries[k], rel) {
        assert k in v.entries.Keys && k in w.entries.Keys;
        AlikeComposes(u.entries[k], v.entries[k], w.entries[k], r1, r2, rel);
      }
    }
  }

  ghost predicate Joins(us: seq<Value>, vs: seq<Value>, ws: seq<Value>, r1: Rel, r2: Rel, rel: Rel) {
    forall i, j, k :: 0 <= i < |us| && 0 <= j < |vs| && 0 <= k < |ws| && Alike(us[i], ws[k], r1) && Alike(vs[j], ws[k], r2)
      ==> Alike(us[i], vs[j], rel)
  }

  lemma {:induction false} CoversJoins(us: seq<Value>, vs: seq<Value>, ws: seq<Value>, r1: Rel, r2: Rel, rel: Rel)
    requires Covers(us, ws, r1) && Covers(vs, ws, r2) && Joins(us, vs, ws, r1, r2, rel)
    ensures Covers(us, vs, rel)
  {
    forall i | 0 <= i < |us| ensures IsLikeOneOf(us[i], vs, rel) {
      assert IsLikeOneOf(us[i], ws, r1);
      var k :| 0 <= k < |ws| && Alike(us[i], ws[k], r1);
      assert OneIsLike(vs, ws[k], r2);
      var j :| 0 <= j < |vs| && Alike(vs[j], ws[k], r2);
      assert Alike(us[i], vs[j], rel);
    }
    forall j | 0 <= j < |vs| ensures OneIsLike(us, vs[j], rel) {
      assert IsLikeOneOf(vs[j], ws, r2);
      var k :| 0 <= k < |ws| && Alike(vs[j], ws[k], r2);
      assert OneIsLike(us, ws[k], r1);
      var i :| 0 <= i < |us| && Alike(us[i], ws[k], r1);
      assert Alike(us[i], vs[j], rel);
    }
  }

  /** Two values that are both like a third are like each other. */
  lemma {:induction false} AlikeToOne(u: Value, v: Value, w: Value, r1: Rel, r2: Rel, rel: Rel)
    requires Alike(u, w, r1) && Alike(v, w, r2)
    requires forall a: Addr, b: Addr, c: Addr :: (a, c) in r1 && (b, c) in r2 ==> (a, b) in rel
    ensures Alike(u, v, rel)
    decreases u
  {
    if IsOrdered(u) {
      forall i | 0 <= i < |u.items| ensures Alike(u.items[i], v.items[i], rel) {
        AlikeToOne(u.items[i], v.items[i], w.items[i], r1, r2, rel);
      }
    } else if IsUnordered(u) {
      forall i, j, k | 0 <= i < |u.items| && 0 <= j < |v.items| && 0 <= k < |w.items|
                       && Alike(u.items[i], w.items[k], r1) && Alike(v.items[j], w.items[k], r2)
        ensures Alike(u.items[i], v.items[j], rel)
      {
        AlikeToOne(u.items[i], v.items[j], w.items[k], r1, r2, rel);
      }
      CoversJoins(u.items, v.items, w.items, r1, r2, rel);
    } else if u.Dict? {
      forall k | k in u.entries ensures Alike(u.entries[k], v.entries[k], rel) {
        assert k in w.entries.Keys && k in v.entries.Keys;
        AlikeToOne(u.entries[k], v.entries[k], w.entries[k], r1, r2, rel);
      }
    }
  }

  lemma {:induction false} DistinctCovers(xs: seq<Value>, images: seq<Value>, rel: Rel)
    requires |images| == |xs| && forall i :: 0 <= i < |xs| ==> Alike(xs[i], images[i], rel)
    ensures Covers(xs, Distinct(images), rel)
  {
    var ys := Distinct(images);
    forall i | 0 <= i < |xs| ensures IsLikeOneOf(xs[i], ys, rel) {
      assert images[i] in images && images[i] in ys;
      var j :| 0 <= j < |ys| && ys[j] == images[i];
      assert Alike(xs[i], ys[j], rel);
    }
    forall j | 0 <= j < |ys| ensures OneIsLike(xs, ys[j], rel) {
      assert ys[j] in ys && ys[j] in images;
      var i :| 0 <= i < |images| && images[i] == ys[j];
      assert Alike(xs[i], ys[j], rel);
    }
  }

  /** A value is like its image. */
  lemma {:induction false} AlikeImage(v: Value, s: seq<Addr>, t: seq<Addr>, rel: Rel)
    requires |s| == |t| && forall a: Addr :: Mentions(v, a) ==> (a, Moved(a, s, t)) in rel
    ensures Alike(v, Image(v, s, t), rel)
    decreases v
  {
    if IsOrdered(v) || IsUnordered(v) {
      forall i | 0 <= i < |v.items| ensures Alike(v.items[i], Image(v.items[i], s, t), rel) {
        assert forall a :: Mentions(v.items[i], a) ==> Mentions(v, a);
        AlikeImage(v.items[i], s, t, rel);
      }
      DistinctCovers(v.items, ImageAll(v.items, s, t), rel);
    } else if v.Dict? {
      forall k | k in v.entries ensures Alike(v.entries[k], Image(v.entries[k], s, t), rel) {
        assert forall a :: Mentions(v.entries[k], a) ==> Mentions(v, a);
        AlikeImage(v.entries[k], s, t, rel);
      }
    } else if v.Obj? {
      assert Mentions(v, v.addr);
    }
  }

  /** What the second value mentions is related to something. */
  lemma {:induction false} AlikeRelates(v: Value, w: Value, rel: Rel, b: Addr) returns (a: Addr)
    requires Alike(v, w, rel) && Mentions(w, b)
    ensures (a, b) in rel
    decreases v
  {
    if IsOrdered(v) {
      var i :| 0 <= i < |w.items| && Mentions(w.items[i], b);
      a := AlikeRelates(v.items[i], w.items[i], rel, b);
    } else if IsUnordered(v) {
      var j :| 0 <= j < |w.items| && Mentions(w.items[j], b);
      assert OneIsLike(v.items, w.items[j], rel);
      var i :| 0 <= i < |v.items| && Alike(v.items[i], w.items[j], rel);
      a := AlikeRelates(v.items[i], w.items[j], rel, b);
    } else if v.Dict? {
      var k :| k in w.entries && Mentions(w.entries[k], b);
      assert k in v.entries.Keys;
      a := AlikeRelates(v.entries[k], w.entries[k], rel, b);
    } else {
      a := v.addr;
    }
  }

  // ---------- Objects with the same content ----------

  /** Related objects have the same class, and attributes that are alike. */
  ghost predicate Agree(o: PlainObject, p: PlainObject, rel: Rel) {
    p.cls == o.cls && Alike(Dict(Kept(o.attributes)), Dict(p.attributes), rel)
  }

  ghost predicate Corresponds(heap: Heap, cells: seq<Cell>, rel: Rel) {
    forall a, b :: (a, b) in rel ==> a in heap && b < |cells| && cells[b].Built? && Agree(heap[a], cells[b].made, rel)
  }

  /** The object that was read holds the content of the one in the heap, all the way down. */
  ghost predicate HoldsContent(heap: Heap, cells: seq<Cell>, a: Addr, b: Addr) {
    exists rel: Rel :: Corresponds(heap, cells, rel) && (a, b) in rel
  }

  ghost predicate Equates(heap: Heap, rel: Rel) {
    forall a, b :: (a, b) in rel ==>
      a in heap && b in heap && Agree(heap[a], PlainObject(heap[b].cls, Kept(heap[b].attributes)), rel)
  }

  /** Two objects in the heap have the same content, all the way down. */
  ghost predicate EqualContent(heap: Heap, a: Addr, b: Addr) {
    exists rel: Rel :: Equates(heap, rel) && (a, b) in rel
  }

  lemma {:induction false} MembersCover(xs: seq<Value>, rel: Rel)
    requires forall i :: 0 <= i < |xs| ==> Alike(xs[i], xs[i], rel)
    ensures Covers(xs, xs, rel)
  {
    forall i | 0 <= i < |xs| ensures IsLikeOneOf(xs[i], xs, rel) && OneIsLike(xs, xs[i], rel) {
      assert Alike(xs[i], xs[i], rel);
    }
  }

  lemma {:induction false} AlikeItself(v: Value, rel: Rel)
    requires forall a: Addr :: Mentions(v, a) ==> (a, a) in rel
    ensures Alike(v, v, rel)
    decreases v
  {
    if IsOrdered(v) || IsUnordered(v) {
      forall i | 0 <= i < |v.items| ensures Alike(v.items[i], v.items[i], rel) {
        assert forall a :: Mentions(v.items[i], a) ==> Mentions(v, a);
        AlikeItself(v.items[i], rel);
      }
      if IsUnordered(v) {
        MembersCover(v.items, rel);
      }
    } else if v.Dict? {
      forall k | k in v.entries ensures Alike(v.entries[k], v.entries[k], rel) {
        assert forall a :: Mentions(v.entries[k], a) ==> Mentions(v, a);
        AlikeItself(v.entries[k], rel);
      }
    } else if v.Obj? {
      assert Mentions(v, v.addr);
    }
  }

  lemma EqualToItself(heap: Heap, a: Addr)
    requires Grounded(heap) && a in heap
    ensures EqualContent(heap, a, a)
  {
    var same: Rel := iset p: (Addr, Addr) | p.0 == p.1 && p.0 in heap;
    forall b | b in heap ensures Agree(heap[b], PlainObject(heap[b].cls, Kept(heap[b].attributes)), same) {
      AlikeItself(Dict(Kept(heap[b].attributes)), same);
    }
    assert Equates(heap, same) && (a, a) in same;
  }

  ghost function Composed(r1: Rel, r2: Rel): Rel {
    iset p: (Addr, Addr) | exists b :: (p.0, b) in r1 && (b, p.1) in r2
  }

  lemma EqualIsTransitive(heap: Heap, a: Addr, b: Addr, c: Addr)
    requires EqualContent(heap, a, b) && EqualContent(heap, b, c)
    ensures EqualContent(heap, a, c)
  {
    var r1: Rel :| Equates(heap, r1) && (a, b) in r1;
    var r2: Rel :| Equates(heap, r2) && (b, c) in r2;
    var rel := Composed(r1, r2);
    forall x, z | (x, z) in rel
      ensures x in heap && z in heap && Agree(heap[x], PlainObject(heap[z].cls, Kept(heap[z].attributes)), rel)
    {
      var y :| (x, y) in r1 && (y, z) in r2;
      AlikeComposes(Dict(Kept(heap[x].attributes)), Dict(Kept(heap[y].attributes)), Dict(Kept(heap[z].attributes)), r1, r2, rel);
    }
    assert Equates(heap, rel) && (a, c) in rel;
  }

  lemma EqualHolds(heap: Heap, cells: seq<Cell>, a: Addr, b: Addr, c: Addr)
    requires EqualContent(heap, a, b) && HoldsContent(heap, cells, b, c)
    ensures HoldsContent(heap, cells, a, c)
  {
    var r1: Rel :| Equates(heap, r1) && (a, b) in r1;
    var r2: Rel :| Corresponds(heap, cells, r2) && (b, c) in r2;
    var rel := Composed(r1, r2);
    forall x, z | (x, z) in rel
      ensures x in heap && z < |cells| && cells[z].Built? && Agree(heap[x], cells[z].made, rel)
    {
      var y :| (x, y) in r1 && (y, z) in r2;
      AlikeComposes(Dict(Kept(heap[x].attributes)), Dict(Kept(heap[y].attributes)), Dict(cells[z].made.attributes), r1, r2, rel);
    }
    assert Corresponds(heap, cells, rel) && (a, c) in rel;
  }

  lemma HoldingOneIsEqual(heap: Heap, cells: seq<Cell>, rel: Rel, a: Addr, b: Addr, c: Addr)
    requires Corresponds(heap, cells, rel) && (a, c) in rel && (b, c) in rel
    ensures EqualContent(heap, a, b)
  {
    var same: Rel := iset p: (Addr, Addr) | exists z :: (p.0, z) in rel && (p.1, z) in rel;
    forall x, y | (x, y) in same
      ensures x in heap && y in heap && Agree(heap[x], PlainObject(heap[y].cls, Kept(heap[y].attributes)), same)
    {
      var z :| (x, z) in rel && (y, z) in rel;
      AlikeToOne(Dict(Kept(heap[x].attributes)), Dict(Kept(heap[y].attributes)), Dict(cells[z].made.attributes), rel, rel, same);
    }
    assert Equates(heap, same) && (a, b) in same;
  }

  // ---------- When the content comes back ----------

  /** Objects with one id have the same content, and so have remembered objects and those written with their ids. */
  ghost predicate EqualIdsEqualContent(heap: Heap, s: seq<Addr>, st0: State) {
    && (forall j, k :: 0 <= j < |s| && 0 <= k < |s| && SharesId(heap, s[j], s[k]) ==> EqualContent(heap, s[j], s[k]))
    && (forall k, id :: 0 <= k < |s| && HasId(heap, s[k], id) && id in st0.normal ==>
          HoldsContent(heap, st0.heap, s[k], st0.normal[id]))
  }

  /** What was read is like what was written, every object holding the content of all that were written for its positions. */
  ghost predicate ComesBack(heap: Heap, v: Value, s: seq<Addr>, st1: State, v': Value) {
    && |s| == |st1.stack|
    && exists rel: Rel :: IsLike(heap, v, s, st1, v', rel)
  }

  ghost predicate IsLike(heap: Heap, v: Value, s: seq<Addr>, st1: State, v': Value, rel: Rel)
    requires |s| == |st1.stack|
  {
    Corresponds(heap, st1.heap, rel) && Alike(v, v', rel) && forall k :: 0 <= k < |s| ==> (s[k], st1.stack[k]) in rel
  }

  // ---------- Equal content is enough ----------

  ghost predicate IsReadAs(heap: Heap, s: seq<Addr>, st0: State, st1: State, a: Addr, b: Addr)
    requires |s| == |st1.stack|
  {
    HoldsContent(heap, st0.heap, a, b) || exists k :: 0 <= k < |s| && st1.stack[k] == b && EqualContent(heap, a, s[k])
  }

  ghost function ReadRelation(heap: Heap, s: seq<Addr>, st0: State, st1: State): Rel
    requires |s| == |st1.stack|
  {
    iset p: (Addr, Addr) | IsReadAs(heap, s, st0, st1, p.0, p.1)
  }

  lemma OldCorresponds(heap: Heap, s: seq<Addr>, st0: State, st1: State, a: Addr, b: Addr)
    requires |s| == |st1.stack| && KeepsOld(st0, st1) && HoldsContent(heap, st0.heap, a, b)
    ensures a in heap && b < |st1.heap| && st1.heap[b].Built? && Agree(heap[a], st1.heap[b].made, ReadRelation(heap, s, st0, st1))
  {
    var remembered: Rel :| Corresponds(heap, st0.heap, remembered) && (a, b) in remembered;
    assert st1.heap[b] == st0.heap[b];
    forall x: Addr, y: Addr | (x, y) in remembered ensures (x, y) in ReadRelation(heap, s, st0, st1) {
      assert HoldsContent(heap, st0.heap, x, y);
    }
    AlikeWithin(Dict(Kept(heap[a].attributes)), Dict(st1.heap[b].made.attributes), remembered, ReadRelation(heap, s, st0, st1));
  }

  /** Where nothing is captured, a new object holds what is at the positions in the end. */
  lemma NewObjectIsAlike(heap: Heap, s: seq<Addr>, st0: State, st1: State, k: nat, rel: Rel)
    requires IsMergedState(heap, s, st0, st1) && NothingIsCaptured(heap, s, st0) && k < |s| && !Replaced(heap, s, st0, k)
    requires forall i :: 0 <= i < |s| ==> (s[i], st1.stack[i]) in rel
    ensures var own := |st0.heap| + k;
            && st1.stack[k] == own < |st1.heap| && st1.heap[own].Built? && st1.heap[own].made.cls == heap[s[k]].cls
            && Alike(Dict(Kept(heap[s[k]].attributes)), Dict(st1.heap[own].made.attributes), rel)
  {
    assert Settled(heap, [], st0, s, st1, k);
    var state := Dict(Kept(heap[s[k]].attributes));
    var view := NewObjectHolds(heap, s, st0, st1, k);
    forall a: Addr | Mentions(state, a) ensures (a, Moved(a, s, view)) in rel {
      assert a in Elements(s);
      ViewIsFinal(heap, s, st0, st1, view, k, Slot(s, a));
    }
    AlikeImage(state, s, view, rel);
  }

  lemma ViewIsFinal(heap: Heap, s: seq<Addr>, st0: State, st1: State, view: seq<Addr>, k: nat, i: nat)
    requires IsMergedState(heap, s, st0, st1) && NothingIsCaptured(heap, s, st0)
    requires k < |s| && !Replaced(heap, s, st0, k) && i < |s| == |view|
    requires Mentions(Dict(Kept(heap[s[k]].attributes)), s[i])
    requires view[i] == if Encloses(heap, s, i, k) then |st0.heap| + i else st1.stack[i]
    ensures view[i] == st1.stack[i]
  {
    assert !IsCaptured(heap, s, st0, i, k);
    assert Settled(heap, [], st0, s, st1, i);
  }

  ghost function PositionRelation(s: seq<Addr>, t: seq<Addr>): Rel
    requires |s| == |t|
  {
    iset p: (Addr, Addr) | Linked(p.0, p.1, s, t)
  }

  lemma EqualAtPosition(heap: Heap, s: seq<Addr>, st0: State, st1: State, same: Rel, x: Addr, y: Addr, z: Addr)
    requires |s| == |st1.stack| && Equates(heap, same) && (x, y) in same && (y, z) in PositionRelation(s, st1.stack)
    ensures (x, z) in ReadRelation(heap, s, st0, st1)
  {
    var i :| 0 <= i < |s| && s[i] == y && st1.stack[i] == z;
    assert EqualContent(heap, x, s[i]);
    assert IsReadAs(heap, s, st0, st1, x, z);
  }

  lemma PositionsAreRelated(s: seq<Addr>, t: seq<Addr>)
    requires |s| == |t|
    ensures forall i :: 0 <= i < |s| ==> (s[i], t[i]) in PositionRelation(s, t)
  {
    forall i | 0 <= i < |s| ensures Linked(s[i], t[i], s, t) {
    }
  }

  lemma NewCorresponds(heap: Heap, s: seq<Addr>, st0: State, st1: State, a: Addr, k: nat)
    requires Grounded(heap) && IsMergedState(heap, s, st0, st1) && NothingIsCaptured(heap, s, st0)
    requires k < |s| && !Replaced(heap, s, st0, k) && EqualContent(heap, a, s[k])
    ensures var b := st1.stack[k];
            && a in heap && b < |st1.heap| && st1.heap[b].Built?
            && Agree(heap[a], st1.heap[b].made, ReadRelation(heap, s, st0, st1))
  {
    PositionsAreRelated(s, st1.stack);
    NewObjectIsAlike(heap, s, st0, st1, k, PositionRelation(s, st1.stack));
    AgreesAsEqual(heap, s, st0, st1, a, s[k], st1.stack[k]);
  }

  lemma AgreesAsEqual(heap: Heap, s: seq<Addr>, st0: State, st1: State, a: Addr, c: Addr, b: Addr)
    requires |s| == |st1.stack| && EqualContent(heap, a, c) && c in heap && b < |st1.heap| && st1.heap[b].Built?
    requires Agree(heap[c], st1.heap[b].made, PositionRelation(s, st1.stack))
    ensures a in heap && Agree(heap[a], st1.heap[b].made, ReadRelation(heap, s, st0, st1))
  {
    var same: Rel :| Equates(heap, same) && (a, c) in same;
    forall x: Addr, y: Addr, z: Addr | (x, y) in same && (y, z) in PositionRelation(s, st1.stack)
      ensures (x, z) in ReadRelation(heap, s, st0, st1)
    {
      EqualAtPosition(heap, s, st0, st1, same, x, y, z);
    }
    AlikeComposes(Dict(Kept(heap[a].attributes)), Dict(Kept(heap[c].attributes)), Dict(st1.heap[b].made.attributes),
                  same, PositionRelation(s, st1.stack), ReadRelation(heap, s, st0, st1));
  }

  lemma OldIsRemembered(st0: State, st1: State, id: string, b: Addr)
    requires KeepsOld(st0, st1) && MergedById(st0) && IsFinished(st1, id, b) && b < |st0.heap|
    ensures id in st0.normal && st0.normal[id] == b
  {
    assert st0.heap[b] == st1.heap[b];
  }

  lemma NewHasId(heap: Heap, s: seq<Addr>, st0: State, st1: State, id: string, b: Addr) returns (i: nat)
    requires IsMergedState(heap, s, st0, st1) && IsFinished(st1, id, b) && |st0.heap| <= b
    ensures i < |s| && !Replaced(heap, s, st0, i) && st1.stack[i] == b && HasId(heap, s[i], id)
  {
    i := b - |st0.heap|;
    NewCellIsUnreplaced(heap, s, st0, st1, b);
    BuiltHasId(heap, s, st0, st1, i, id);
  }

  lemma ReplacementHasId(heap: Heap, s: seq<Addr>, st0: State, st1: State, k: nat) returns (id: string)
    requires IsMergedState(heap, s, st0, st1) && MergedById(st1) && k < |s| && Replaced(heap, s, st0, k)
    ensures HasId(heap, s[k], id) && IsFinished(st1, id, st1.stack[k])
  {
    assert Settled(heap, [], st0, s, st1, k);
    id := ReplacedHasId(heap, s, st0, st1, k);
  }

  /** What takes the place of an object is an old one, remembered under its id, or a new one whose original shares the id. */
  lemma ReplacementIs(heap: Heap, s: seq<Addr>, st0: State, st1: State, k: nat) returns (id: string, i: nat)
    requires IsMergedState(heap, s, st0, st1) && MergedById(st0) && MergedById(st1) && k < |s| && Replaced(heap, s, st0, k)
    ensures HasId(heap, s[k], id)
    ensures if st1.stack[k] < |st0.heap| then id in st0.normal && st0.normal[id] == st1.stack[k]
            else i < |s| && !Replaced(heap, s, st0, i) && st1.stack[i] == st1.stack[k] && SharesId(heap, s[k], s[i])
  {
    id := ReplacementHasId(heap, s, st0, st1, k);
    i := k;
    if st1.stack[k] < |st0.heap| {
      OldIsRemembered(st0, st1, id, st1.stack[k]);
    } else {
      i := NewHasId(heap, s, st0, st1, id, st1.stack[k]);
    }
  }

  /** A position stands for an old object with the content, or for a new one whose original has the content. */
  lemma PositionHolds(heap: Heap, s: seq<Addr>, st0: State, st1: State, k: nat) returns (i: nat)
    requires Grounded(heap) && IsMergedState(heap, s, st0, st1) && MergedById(st0) && MergedById(st1)
    requires EqualIdsEqualContent(heap, s, st0) && k < |s|
    ensures HoldsContent(heap, st0.heap, s[k], st1.stack[k]) ||
            (i < |s| && !Replaced(heap, s, st0, i) && st1.stack[i] == st1.stack[k] && EqualContent(heap, s[k], s[i]))
  {
    i := k;
    if Replaced(heap, s, st0, k) {
      var id;
      id, i := ReplacementIs(heap, s, st0, st1, k);
    } else {
      EqualToItself(heap, s[k]);
    }
  }

  lemma ReadAsCorresponds(heap: Heap, s: seq<Addr>, st0: State, st1: State, a: Addr, b: Addr)
    requires Grounded(heap) && IsMergedState(heap, s, st0, st1) && MergedById(st0) && MergedById(st1)
    requires EqualIdsEqualContent(heap, s, st0) && NothingIsCaptured(heap, s, st0) && IsReadAs(heap, s, st0, st1, a, b)
    ensures a in heap && b < |st1.heap| && st1.heap[b].Built? && Agree(heap[a], st1.heap[b].made, ReadRelation(heap, s, st0, st1))
  {
    if HoldsContent(heap, st0.heap, a, b) {
      OldCorresponds(heap, s, st0, st1, a, b);
    } else {
      var k :| 0 <= k < |s| && st1.stack[k] == b && EqualContent(heap, a, s[k]);
      var i := PositionHolds(heap, s, st0, st1, k);
      if HoldsContent(heap, st0.heap, s[k], b) {
        EqualHolds(heap, st0.heap, a, s[k], b);
        OldCorresponds(heap, s, st0, st1, a, b);
      } else {
        EqualIsTransitive(heap, a, s[k], s[i]);
        NewCorresponds(heap, s, st0, st1, a, i);
      }
    }
  }

  lemma EqualContentComesBack(heap: Heap, v: Value, s: seq<Addr>, st0: State, st1: State)
    requires Grounded(heap) && IsMergedState(heap, s, st0, st1) && MergedById(st0) && MergedById(st1) && MentionsOnly(v, Elements(s))
    requires EqualIdsEqualContent(heap, s, st0) && NothingIsCaptured(heap, s, st0)
    ensures ComesBack(heap, v, s, st1, Image(v, s, st1.stack))
  {
    var rel := ReadRelation(heap, s, st0, st1);
    forall a: Addr, b: Addr | (a, b) in rel
      ensures a in heap && b < |st1.heap| && st1.heap[b].Built? && Agree(heap[a], st1.heap[b].made, rel)
    {
      ReadAsCorresponds(heap, s, st0, st1, a, b);
    }
    forall k | 0 <= k < |s| ensures (s[k], st1.stack[k]) in rel {
      EqualToItself(heap, s[k]);
      assert IsReadAs(heap, s, st0, st1, s[k], st1.stack[k]);
    }
    forall a: Addr | Mentions(v, a) ensures (a, Moved(a, s, st1.stack)) in rel {
      assert a in Elements(s);
      assert s[Slot(s, a)] == a;
    }
    AlikeImage(v, s, st1.stack, rel);
    assert IsLike(heap, v, s, st1, Image(v, s, st1.stack), rel);
  }

  // ---------- Equal content is needed ----------

  lemma RememberedHolds(heap: Heap, st0: State, st1: State, rel: Rel, a: Addr, b: Addr)
    requires KeepsOld(st0, st1) && AllFinished(st0) && Corresponds(heap, st1.heap, rel) && (a, b) in rel && b < |st0.heap|
    ensures HoldsContent(heap, st0.heap, a, b)
  {
    var remembered: Rel := iset p: (Addr, Addr) | p in rel && p.1 < |st0.heap|;
    forall x: Addr, y: Addr | (x, y) in remembered
      ensures x in heap && y < |st0.heap| && st0.heap[y].Built? && Agree(heap[x], st0.heap[y].made, remembered)
    {
      assert st0.heap[y] == st1.heap[y];
      assert MentionsFinished(st0.heap, Dict(st0.heap[y].made.attributes));
      AlikeWithin(Dict(Kept(heap[x].attributes)), Dict(st0.heap[y].made.attributes), rel, remembered);
    }
    assert Corresponds(heap, st0.heap, remembered) && (a, b) in remembered;
  }

  /** Where two objects agree, the one that was read does not refer to an unfinished one. */
  lemma AgreeingIsFinished(heap: Heap, cells: seq<Cell>, rel: Rel, a: Addr, b: Addr, c: Addr)
    requires Corresponds(heap, cells, rel) && (a, b) in rel && b < |cells| && cells[b].Built?
    ensures !RefersToUnfinished(cells, b, c)
  {
    if Mentions(Dict(cells[b].made.attributes), c) {
      var x := AlikeRelates(Dict(Kept(heap[a].attributes)), Dict(cells[b].made.attributes), rel, c);
    }
  }

  lemma CapturedDoesNotCorrespond(heap: Heap, s: seq<Addr>, st0: State, st1: State, rel: Rel, j: nat, k: nat)
    requires IsMergedState(heap, s, st0, st1) && j < |s| && k < |s| && IsCaptured(heap, s, st0, j, k)
    requires (s[k], st1.stack[k]) in rel
    ensures !Corresponds(heap, st1.heap, rel)
  {
    CapturedIsBlank(heap, s, st0, st1, j, k);
    NewIsInPlace(heap, s, st0, st1, k);
    if Corresponds(heap, st1.heap, rel) {
      AgreeingIsFinished(heap, st1.heap, rel, s[k], |st0.heap| + k, |st0.heap| + j);
    }
  }

  lemma NewIsInPlace(heap: Heap, s: seq<Addr>, st0: State, st1: State, k: nat)
    requires IsMergedState(heap, s, st0, st1) && k < |s| && !Replaced(heap, s, st0, k)
    ensures st1.stack[k] == |st0.heap| + k
  {
    assert Settled(heap, [], st0, s, st1, k);
  }

  lemma ComingBackNeedsEqualContent(heap: Heap, v: Value, s: seq<Addr>, st0: State, st1: State, v': Value)
    requires IsMergedState(heap, s, st0, st1) && MergedById(st1) && RemembersMore(heap, [], st0, s, st1) && AllFinished(st0)
    requires MergedById(st0) && ComesBack(heap, v, s, st1, v')
    ensures EqualIdsEqualContent(heap, s, st0) && NothingIsCaptured(heap, s, st0)
  {
    var rel: Rel :| IsLike(heap, v, s, st1, v', rel);
    forall j, k | 0 <= j < |s| && 0 <= k < |s| && SharesId(heap, s[j], s[k]) ensures EqualContent(heap, s[j], s[k]) {
      OneObjectIff(heap, s, st0, st1, j, k);
      HoldingOneIsEqual(heap, st1.heap, rel, s[j], s[k], st1.stack[k]);
    }
    forall k, id | 0 <= k < |s| && HasId(heap, s[k], id) && id in st0.normal
      ensures HoldsContent(heap, st0.heap, s[k], st0.normal[id])
    {
      SettledIsPlaced(heap, s, st0, st1, k);
      assert IsFinished(st0, id, st0.normal[id]);
      RememberedHolds(heap, st0, st1, rel, s[k], st0.normal[id]);
    }
    forall j: nat, k: nat | j < |s| && k < |s| ensures !IsCaptured(heap, s, st0, j, k) {
      if IsCaptured(heap, s, st0, j, k) {
        CapturedDoesNotCorrespond(heap, s, st0, st1, rel, j, k);
      }
    }
  }

  /**
   What is read has the content of what was written, with one object for every id, exactly if equal ids mean
   equal content, among the objects written and with the remembered ones, and nothing is captured.
   */
  lemma ContentComesBackIff(registry: Registry, classOf: ClassOf, heap: Heap, v: Value, st0: State, v': Value, st1: State)
    requires IsReading(registry, classOf, heap, v, st0, v', st1) && AllFinished(st0)
    ensures forall k :: 0 <= k < |Slots(heap, v)| ==> Slots(heap, v)[k] in heap
    ensures ComesBack(heap, v, Slots(heap, v), st1, v') <==>
            EqualIdsEqualContent(heap, Slots(heap, v), st0) && NothingIsCaptured(heap, Slots(heap, v), st0)
  {
    var s := Slots(heap, v);
    ReadingSettles(registry, classOf, heap, v, st0, v', st1);
    if EqualIdsEqualContent(heap, s, st0) && NothingIsCaptured(heap, s, st0) {
      EqualContentComesBack(heap, v, s, st0, st1);
    }
    if ComesBack(heap, v, s, st1, v') {
      ComingBackNeedsEqualContent(heap, v, s, st0, st1, v');
    }
  }
}
