/**
 `Database`: the identity map over persistent objects, ghosts that load lazily, and the commit worklist.

 A persistent object is a position in `objects` (its Python identity). Of its state the model keeps the
 persistent objects the serializer meets in it, in that order, and the rest as an opaque payload.
 */
module ObjectStore {
  import opened Common

  type Ref = nat

  /** `hash_id` is injective; names and random oids never coincide with hashes. */
  datatype Oid = Named(name: string) | Hash(id: string) | Random(n: nat)

  const ROOT := Named("root")

  datatype Status = Ghost | UpToDate | Changed

  /** A class, and whether it derives from renku's own `Persistent`. */
  datatype Class = Class(name: string, renku: bool)

  /** What an object's state consists of: its id ("" if it has none), its references, and the rest. */
  datatype State = State(id: string, payload: nat, refs: seq<Ref>)

  /**
   `uuid` is what `new_oid` would return for this object; `isNew` is the serial number of an object that
   was neither read nor stored yet.
   */
  datatype PObject = PObject(cls: Class, uuid: nat, oid: Option<Oid>, jar: bool, status: Status, isNew: bool, state: State)

  /** A reference in a record: the oid and the class of the object referred to. */
  datatype Link = Link(oid: Oid, cls: Class)

  datatype Record = Record(cls: Class, id: string, payload: nat, links: seq<Link>)

  datatype Db = Db(objects: seq<PObject>, storage: map<Oid, Record>, root: map<Oid, Ref>,
                   cache: map<Oid, Ref>, preCache: map<Oid, Ref>, toCommit: map<Oid, Ref>)

  /** Every key of a table is the oid of the object under it. */
  ghost predicate Keyed(objects: seq<PObject>, table: map<Oid, Ref>) {
    forall o :: o in table ==> table[o] < |objects| && objects[table[o]].oid == Some(o)
  }

  ghost predicate RefsInRange(objects: seq<PObject>) {
    forall r: Ref, c :: r < |objects| && c in objects[r].state.refs ==> c < |objects|
  }

  ghost predicate WellFormed(s: Db) {
    && RefsInRange(s.objects)
    && Keyed(s.objects, s.cache) && Keyed(s.objects, s.preCache) && Keyed(s.objects, s.toCommit)
    && (forall o :: o in s.root ==> s.root[o] < |s.objects|)
    && ROOT !in s.root
  }

  /** `generate_oid`. */
  function KeyOf(o: PObject): Oid {
    if o.oid.Some? then o.oid.value else if o.state.id != "" then Hash(o.state.id) else Random(o.uuid)
  }

  /** What makes the serializer register an object it meets. */
  predicate NeedsStore(o: PObject) {
    o.status.Changed? || (o.status.UpToDate? && o.isNew)
  }

  function Assign(s: Db, r: Ref): Db
    requires r < |s.objects|
  {
    s.(objects := s.objects[r := s.objects[r].(oid := Some(KeyOf(s.objects[r])))])
  }

  predicate OidChecks(o: PObject) {
    o.oid.Some? && o.cls.renku ==> o.oid.value == Hash(o.state.id)
  }

  function Register(s: Db, r: Ref): Outcome<Db>
    requires r < |s.objects|
  {
    if !OidChecks(s.objects[r]) then Raised
    else
      var o := s.objects[r];
      Done(s.(objects := s.objects[r := o.(oid := Some(KeyOf(o)), jar := true)], toCommit := s.toCommit[KeyOf(o) := r]))
  }

  // ---------- Resolving oids ----------

  function GetCached(s: Db, oid: Oid): Option<Ref> {
    if oid in s.cache then Some(s.cache[oid])
    else if oid in s.preCache then Some(s.preCache[oid])
    else if oid in s.toCommit then Some(s.toCommit[oid])
    else None
  }

  function NewGhost(link: Link): PObject {
    PObject(link.cls, 0, Some(link.oid), true, Ghost, true, State("", 0, []))
  }

  /** What a reference in a record stands for: the object already there, or a new ghost. */
  function Reference(s: Db, link: Link): (Db, Ref) {
    var known := GetCached(s, link.oid);
    if known.Some? then (s, known.value)
    else
      var g := |s.objects|;
      (s.(objects := s.objects + [NewGhost(link)], cache := s.cache[link.oid := g]), g)
  }

  function ReferenceAll(s: Db, links: seq<Link>): (Db, seq<Ref>)
    decreases |links|
  {
    if links == [] then (s, []) else
      var (s1, first) := Reference(s, links[0]);
      var (s2, rest) := ReferenceAll(s1, links[1..]);
      (s2, [first] + rest)
  }

  /** `setstate`: a ghost gets the state in its record. */
  function Activate(s: Db, r: Ref): Outcome<Db>
    requires r < |s.objects|
  {
    var o := s.objects[r];
    if o.oid.None? || o.oid.value !in s.storage then Raised
    else
      var rec := s.storage[o.oid.value];
      var (s1, refs) := ReferenceAll(s, rec.links);
      ReferenceAllGrows(s, rec.links);
      Done(s1.(objects := s1.objects[r := o.(status := UpToDate, isNew := false, state := State(rec.id, rec.payload, refs))]))
  }

  lemma ReferenceAllGrows(s: Db, links: seq<Link>)
    ensures var s1 := ReferenceAll(s, links).0;
            && s.objects <= s1.objects
            && s1.storage == s.storage && s1.root == s.root && s1.preCache == s.preCache && s1.toCommit == s.toCommit
    decreases |links|
  {
    if links != [] {
      ReferenceAllGrows(Reference(s, links[0]).0, links[1..]);
    }
  }

  /** `get` returns an object or raises; what it did to the caches stays either way. */
  datatype Got = Got(db: Db, found: Option<Ref>)

  function Get(s: Db, oid: Oid): Got {
    if oid != ROOT && oid in s.root then Got(s, Some(s.root[oid]))
    else if GetCached(s, oid).Some? then Got(s, GetCached(s, oid))
    else if oid !in s.storage then Got(s, None)
    else
      var rec := s.storage[oid];
      var (s1, refs) := ReferenceAll(s, rec.links);
      var r := |s1.objects|;
      var made := PObject(rec.cls, 0, Some(oid), true, UpToDate, false, State(rec.id, rec.payload, refs));
      var s2 := s1.(objects := s1.objects + [made]);
      if oid in s2.cache then
        Got(s2.(preCache := s2.preCache[oid := r]), None)  // the record refers to itself: the cache refuses a second object
      else
        Got(s2.(cache := s2.cache[oid := r]), Some(r))
  }

  /** The table without its entry for the oid, if that entry is this very object. */
  function Without(table: map<Oid, Ref>, oid: Oid, r: Ref): map<Oid, Ref> {
    if oid in table && table[oid] == r then table - {oid} else table
  }

  function RemoveFromCache(s: Db, r: Ref): Db
    requires r < |s.objects|
  {
    if s.objects[r].oid.None? then s
    else
      var oid := s.objects[r].oid.value;
      s.(cache := Without(s.cache, oid, r), preCache := Without(s.preCache, oid, r), toCommit := Without(s.toCommit, oid, r))
  }

  // ---------- Committing ----------

  /** The serializer meets a persistent object: it gets an oid, and is registered if it has to be stored. */
  function Visit(s: Db, c: Ref): Outcome<Db>
    requires c < |s.objects|
    ensures Visit(s, c).Done? ==> |Visit(s, c).value.objects| == |s.objects|
  {
    if NeedsStore(s.objects[c]) then Register(Assign(s, c), c) else Done(Assign(s, c))
  }

  function VisitAll(s: Db, refs: seq<Ref>): (r: Outcome<(Db, seq<Link>)>)
    requires forall c :: c in refs ==> c < |s.objects|
    ensures r.Done? ==> |r.value.0.objects| == |s.objects|
    decreases |refs|
  {
    if refs == [] then Done((s, [])) else
      assert refs[0] in refs;
      var c := refs[0];
      var s1 :- Visit(s, c);
      assert forall d :: d in refs[1..] ==> d in refs;
      var (s2, rest) :- VisitAll(s1, refs[1..]);
      Done((s2, [Link(KeyOf(s.objects[c]), s.objects[c].cls)] + rest))
  }

  /** `_store_object`. */
  function Store(s: Db, r: Ref): (out: Outcome<Db>)
    requires r < |s.objects| && forall c :: c in s.objects[r].state.refs ==> c < |s.objects|
    ensures out.Done? ==> |out.value.objects| == |s.objects|
  {
    var (s1, links) :- VisitAll(s, s.objects[r].state.refs);
    var o := s1.objects[r];
    if o.oid.None? then Raised
    else
      var oid := o.oid.value;
      if oid in s1.cache && s1.cache[oid] != r then Raised
      else
        Done(s1.(storage := s1.storage[oid := Record(o.cls, o.state.id, o.state.payload, links)],
                 cache := s1.cache[oid := r],
                 objects := s1.objects[r := o.(status := UpToDate, isNew := false)]))
  }

  /** One turn of the commit loop, on the entry popped. */
  function CommitStep(s: Db, oid: Oid): (out: Outcome<Db>)
    requires oid in s.toCommit && s.toCommit[oid] < |s.objects|
    requires forall c :: c in s.objects[s.toCommit[oid]].state.refs ==> c < |s.objects|
  {
    var r := s.toCommit[oid];
    var s1 := s.(toCommit := s.toCommit - {oid});
    if s.objects[r].status.Changed? || s.objects[r].isNew then Store(s1, r) else Done(s1)
  }

  lemma {:induction false} ReferenceAllSnoc(s: Db, links: seq<Link>, last: Link)
    ensures var (s1, refs) := ReferenceAll(s, links);
            var (s2, r) := Reference(s1, last);
            ReferenceAll(s, links + [last]) == (s2, refs + [r])
    decreases |links|
  {
    if links == [] {
      assert [] + [last] == [last] && [last][1..] == [];
      var (s2, r) := Reference(s, last);
      assert [r] + [] == [] + [r];
    } else {
      assert (links + [last])[0] == links[0] && (links + [last])[1..] == links[1..] + [last];
      var (s1, first) := Reference(s, links[0]);
      ReferenceAllSnoc(s1, links[1..], last);
      var (s2, rest) := ReferenceAll(s1, links[1..]);
      ConcatAssociates([first], rest, [Reference(s2, last).1]);
    }
  }

  lemma {:induction false} VisitAllSnoc(s: Db, refs: seq<Ref>, last: Ref)
    requires last < |s.objects| && forall c :: c in refs ==> c < |s.objects|
    ensures forall c :: c in refs + [last] ==> c < |s.objects|
    ensures var front := VisitAll(s, refs);
            var all := VisitAll(s, refs + [last]);
            if front.Raised? then all.Raised?
            else
              var (s1, links) := front.value;
              var end := Visit(s1, last);
              if end.Raised? then all.Raised?
              else all == Done((end.value, links + [Link(KeyOf(s1.objects[last]), s1.objects[last].cls)]))
    decreases |refs|
  {
    if refs == [] {
      assert [] + [last] == [last] && [last][1..] == [];
      var l := Link(KeyOf(s.objects[last]), s.objects[last].cls);
      assert [l] + [] == [] + [l];
    } else {
      assert (refs + [last])[0] == refs[0] && (refs + [last])[1..] == refs[1..] + [last];
      assert refs[0] in refs && forall c :: c in refs[1..] ==> c in refs;
      var first := Visit(s, refs[0]);
      if first.Done? {
        VisitAllSnoc(first.value, refs[1..], last);
        var front := VisitAll(first.value, refs[1..]);
        if front.Done? {
          var (s1, links) := front.value;
          ConcatAssociates([Link(KeyOf(s.objects[refs[0]]), s.objects[refs[0]].cls)], links,
                           [Link(KeyOf(s1.objects[last]), s1.objects[last].cls)]);
        }
      }
    }
  }

  lemma {:induction false} VisitAllStops(s: Db, refs: seq<Ref>, i: nat)
    requires forall c :: c in refs ==> c < |s.objects|
    requires i <= |refs| && (forall c :: c in refs[..i] ==> c < |s.objects|) && VisitAll(s, refs[..i]).Raised?
    ensures VisitAll(s, refs).Raised?
    decreases |refs| - i
  {
    if i < |refs| {
      TakeNext(refs, i);
      assert refs[i] in refs;
      VisitAllSnoc(s, refs[..i], refs[i]);
      VisitAllStops(s, refs, i + 1);
    } else {
      assert refs[..i] == refs;
    }
  }
}
