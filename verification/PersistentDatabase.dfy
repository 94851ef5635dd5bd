/** `Database` as the object it is in the source: its tables are fields that the methods update. */
module PersistentDatabase {
  import opened Common
  import opened ObjectStore
  import opened Commit
  import opened CompletedCommits
  import opened IdentityMap
  import opened LoadedStates

  class Database {
    var objects: seq<PObject>
    var storage: map<Oid, Record>
    var root: map<Oid, Ref>
    var cache: map<Oid, Ref>
    var preCache: map<Oid, Ref>
    var toCommit: map<Oid, Ref>

    ghost function Now(): Db
      reads this
    {
      Db(objects, storage, root, cache, preCache, toCommit)
    }

    method LookUp(oid: Oid) returns (found: Option<Ref>)
      ensures found == GetCached(Now(), oid)
    {
      if oid in cache {
        return Some(cache[oid]);
      }
      if oid in preCache {
        return Some(preCache[oid]);
      }
      if oid in toCommit {
        return Some(toCommit[oid]);
      }
      return None;
    }

    method AssignOid(r: Ref)
      requires r < |objects|
      modifies this`objects
      ensures Now() == Assign(old(Now()), r)
      ensures old(objects[r].oid).Some? ==> Now() == old(Now())
      ensures old(objects[r].oid).None? ==>
                objects[r].oid == Some(if objects[r].state.id != "" then Hash(objects[r].state.id) else Random(objects[r].uuid))
    {
      var o := objects[r];
      var oid := if o.oid.Some? then o.oid.value else if o.state.id != "" then Hash(o.state.id) else Random(o.uuid);
      objects := objects[r := o.(oid := Some(oid))];
    }

    method RegisterObject(r: Ref) returns (ok: bool)
      requires r < |objects|
      modifies this`objects, this`toCommit
      ensures ok <==> old(Register(Now(), r)).Done?
      ensures ok ==> Now() == old(Register(Now(), r)).value
      ensures !ok ==> Now() == old(Now())
    {
      var o := objects[r];
      if o.oid.None? {
        AssignOid(r);
      } else if o.cls.renku && o.oid.value != Hash(o.state.id) {
        return false;
      }
      o := objects[r];
      objects := objects[r := o.(jar := true)];
      toCommit := toCommit[o.oid.value := r];
      return true;
    }

    /** A reference in a record: the object already there, or a new ghost that is put in the cache. */
    method Resolve(link: Link) returns (r: Ref)
      modifies this`objects, this`cache
      ensures (Now(), r) == Reference(old(Now()), link)
    {
      var known := LookUp(link.oid);
      if known.Some? {
        return known.value;
      }
      r := |objects|;
      objects := objects + [PObject(link.cls, 0, Some(link.oid), true, Ghost, true, State("", 0, []))];
      cache := cache[link.oid := r];
    }

    method ResolveAll(links: seq<Link>) returns (refs: seq<Ref>)
      modifies this`objects, this`cache
      ensures (Now(), refs) == ReferenceAll(old(Now()), links)
      ensures |objects| >= old(|objects|)
    {
      refs := [];
      ghost var before := Now();
      for i := 0 to |links|
        invariant (Now(), refs) == ReferenceAll(before, links[..i])
        invariant |objects| >= old(|objects|)
      {
        TakeNext(links, i);
        ReferenceAllSnoc(before, links[..i], links[i]);
        var r := Resolve(links[i]);
        refs := refs + [r];
      }
      assert links[..|links|] == links;
    }

    /** Loads the state of a ghost from its record. */
    method SetState(r: Ref) returns (ok: bool)
      requires r < |objects|
      modifies this`objects, this`cache
      ensures ok <==> old(Activate(Now(), r)).Done?
      ensures ok ==> Now() == old(Activate(Now(), r)).value
      ensures !ok ==> Now() == old(Now())
      ensures ok && old(Sound(Now())) && old(objects[r].jar) ==> IsActivated(old(Now()), Now(), r)
    {
      var o := objects[r];
      if o.oid.None? || o.oid.value !in storage {
        return false;
      }
      var rec := storage[o.oid.value];
      var refs := ResolveAll(rec.links);
      objects := objects[r := o.(status := UpToDate, isNew := false, state := State(rec.id, rec.payload, refs))];
      StateIsSet(old(Now()), Now(), r);
      return true;
    }

    method GetObject(oid: Oid) returns (found: Option<Ref>)
      modifies this`objects, this`cache, this`preCache
      ensures Got(Now(), found) == old(Get(Now(), oid))
      ensures old(Sound(Now())) && found.Some? ==> IsFetched(old(Now()), Now(), oid, found.value)
    {
      if oid != ROOT && oid in root {
        return Some(root[oid]);
      }
      var known := LookUp(oid);
      if known.Some? {
        return known;
      }
      if oid !in storage {
        return None;
      }
      var rec := storage[oid];
      var refs := ResolveAll(rec.links);
      var r := |objects|;
      objects := objects + [PObject(rec.cls, 0, Some(oid), true, UpToDate, false, State(rec.id, rec.payload, refs))];
      ReferenceAllGrows(old(Now()), rec.links);
      assert oid !in preCache;
      preCache := preCache[oid := r];
      if oid in cache {
        return None;
      }
      cache := cache[oid := r];
      preCache := preCache - {oid};
      assert preCache == old(preCache);
      FetchedIs(old(Now()), Now(), oid, r);
      return Some(r);
    }

    method Forget(r: Ref)
      requires r < |objects|
      modifies this`cache, this`preCache, this`toCommit
      ensures Now() == RemoveFromCache(old(Now()), r)
    {
      if objects[r].oid.None? {
        return;
      }
      var oid := objects[r].oid.value;
      if oid in cache && cache[oid] == r {
        cache := cache - {oid};
      }
      if oid in preCache && preCache[oid] == r {
        preCache := preCache - {oid};
      }
      if oid in toCommit && toCommit[oid] == r {
        toCommit := toCommit - {oid};
      }
    }

    /** Serializes an object, registering what it meets on the way, and stores the record. */
    method StoreObject(r: Ref) returns (ok: bool)
      requires r < |objects| && forall c :: c in objects[r].state.refs ==> c < |objects|
      modifies this`objects, this`storage, this`cache, this`toCommit
      ensures ok <==> old(Store(Now(), r)).Done?
      ensures ok ==> Now() == old(Store(Now(), r)).value
    {
      var refs := objects[r].state.refs;
      var links: seq<Link> := [];
      ghost var before := Now();
      for i := 0 to |refs|
        invariant |objects| == |before.objects|
        invariant forall c :: c in refs ==> c < |before.objects|
        invariant forall c :: c in refs[..i] ==> c < |before.objects|
        invariant VisitAll(before, refs[..i]) == Done((Now(), links))
      {
        TakeNext(refs, i);
        var c := refs[i];
        assert c in refs;
        VisitAllSnoc(before, refs[..i], c);
        var needsStore := objects[c].status.Changed? || (objects[c].status.UpToDate? && objects[c].isNew);
        AssignOid(c);
        if needsStore {
          var registered := RegisterObject(c);
          if !registered {
            VisitAllStops(before, refs, i + 1);
            return false;
          }
        }
        links := links + [Link(objects[c].oid.value, objects[c].cls)];
      }
      assert refs[..|refs|] == refs;
      var o := objects[r];
      if o.oid.None? || (o.oid.value in cache && cache[o.oid.value] != r) {
        return false;
      }
      storage := storage[o.oid.value := Record(o.cls, o.state.id, o.state.payload, links)];
      cache := cache[o.oid.value := r];
      objects := objects[r := o.(status := UpToDate, isNew := false)];
      return true;
    }

    /** One turn of the loop: an arbitrary entry is taken, and stored if it is changed or new. */
    method CommitNext() returns (ok: bool, ghost oid: Oid)
      requires WellFormed(Now()) && toCommit != map[]
      modifies this`objects, this`storage, this`cache, this`toCommit
      ensures oid in old(toCommit)
      ensures ok <==> CommitStep(old(Now()), oid).Done?
      ensures ok ==> CommitStep(old(Now()), oid) == Done(Now())
    {
      var taken :| taken in toCommit;
      var r := toCommit[taken];
      toCommit := toCommit - {taken};
      ok, oid := true, taken;
      if objects[r].status.Changed? || objects[r].isNew {
        ok := StoreObject(r);
      }
    }

    /**
     Stores every changed or new object on the worklist, which grows while it is drained; the entry taken is
     arbitrary. If it completes, the store is closed under references as it was, and every update on a dirty
     path is stored exactly if no oid is contested.
     */
    method CommitAll() returns (ok: bool)
      requires WellFormed(Now()) && NoGhostWaits(Now())
      modifies this`objects, this`storage, this`cache, this`toCommit
      ensures ok ==> toCommit == map[] && WellFormed(Now()) && exists taken :: Completes(old(Now()), taken, Now())
      ensures ok && OthersHaveRecords(old(Now())) && StoreIsClosed(old(storage)) ==> StoreIsClosed(storage)
      ensures ok ==> (AllStored(old(Now()), Now()) <==> Uncontested(old(Now())))
      ensures ok && AllStored(old(Now()), Now()) ==> CacheIsFree(old(Now()))
      ensures Uncontested(old(Now())) && OidsMatch(old(Now())) ==> (ok <==> CacheIsFree(old(Now())))
    {
      ghost var before := Now();
      ghost var taken, last;
      ok, taken, last := Drain();
      if ok {
        CompletedMeans(before, taken, Now());
      } else {
        CannotComplete(before, taken, last);
      }
    }

    /** The loop: the entries taken, and if a turn raised, the one that it was for. */
    method Drain() returns (ok: bool, ghost taken: seq<Oid>, ghost last: Oid)
      requires WellFormed(Now()) && NoGhostWaits(Now())
      modifies this`objects, this`storage, this`cache, this`toCommit
      ensures ok ==> Completes(old(Now()), taken, Now()) && WellFormed(Now())
      ensures !ok ==> Fails(old(Now()), taken, last)
    {
      ghost var before := Now();
      ok, taken, last := true, [], ROOT;
      while toCommit != map[]
        invariant Turns(before, taken) == Done(Now())
        invariant WellFormed(Now()) && NoGhostWaits(Now())
        decreases |Dirty(Now())|, |toCommit|
      {
        ghost var s := Now();
        ok, last := CommitNext();
        TurnsNext(before, taken, last);
        if !ok {
          return;
        }
        taken := taken + [last];
        StepShrinks(s, last);
        ShrinkingIsProper(s, Now());
      }
      ok := true;
    }
  }

  /** What was a ghost is clean and holds its record; the other objects are as they were. */
  ghost predicate IsActivated(before: Db, now: Db, r: Ref)
    requires r < |before.objects|
  {
    && before.objects[r].oid.Some? && before.objects[r].oid.value in before.storage
    && HoldsRecord(now, r, before.objects[r].oid.value, before.storage[before.objects[r].oid.value])
    && |before.objects| <= |now.objects| && forall q: Ref :: q < |before.objects| && q != r ==> now.objects[q] == before.objects[q]
  }

  lemma StateIsSet(before: Db, now: Db, r: Ref)
    requires r < |before.objects| && Activate(before, r) == Done(now)
    ensures Sound(before) && before.objects[r].jar ==> IsActivated(before, now, r)
  {
    if Sound(before) && before.objects[r].jar {
      ActivatedHoldsRecord(before, r, now);
    }
  }

  /** The object found is the one that was known, or a new one that is clean and holds the record. */
  ghost predicate IsFetched(before: Db, now: Db, oid: Oid, r: Ref) {
    if oid != ROOT && oid in before.root then now == before && r == before.root[oid]
    else if GetCached(before, oid).Some? then now == before && r == GetCached(before, oid).value
    else
      && oid in before.storage && before.objects <= now.objects && |before.objects| <= r
      && HoldsRecord(now, r, oid, before.storage[oid]) && now.objects[r].cls == before.storage[oid].cls
  }

  lemma FetchedIs(before: Db, now: Db, oid: Oid, r: Ref)
    requires Get(before, oid) == Got(now, Some(r))
    ensures Sound(before) ==> IsFetched(before, now, oid, r)
  {
    if (oid != ROOT && oid in before.root) || GetCached(before, oid).Some? {
      KnownIsNotLoaded(before, oid);
    } else if Sound(before) {
      LoadedHoldsRecord(before, oid, now, r);
    }
  }

  /** After these turns, the one for this entry raises. */
  ghost predicate Fails(before: Db, taken: seq<Oid>, oid: Oid) {
    && WellFormed(before) && NoGhostWaits(before) && Turns(before, taken).Done?
    && oid in Turns(before, taken).value.toCommit && Turns(before, taken + [oid]).Raised?
  }

  /** A turn that raised shows that some oid is contested, does not match, or is taken in the cache. */
  lemma CannotComplete(before: Db, taken: seq<Oid>, oid: Oid)
    requires Fails(before, taken, oid)
    ensures !(Uncontested(before) && CacheIsFree(before) && OidsMatch(before))
  {
    if Uncontested(before) && CacheIsFree(before) && OidsMatch(before) {
      UncontestedTurnCompletes(before, taken, oid);
    }
  }

  lemma CompletedMeans(before: Db, taken: seq<Oid>, s: Db)
    requires Completes(before, taken, s)
    ensures OthersHaveRecords(before) && StoreIsClosed(before.storage) ==> StoreIsClosed(s.storage)
    ensures AllStored(before, s) <==> Uncontested(before)
    ensures AllStored(before, s) ==> CacheIsFree(before)
  {
    CommitStoresAllIff(before, taken, s);
    if OthersHaveRecords(before) && StoreIsClosed(before.storage) {
      CommitClosesTheStore(before, taken, s);
    }
  }

  lemma ShrinkingIsProper(s: Db, s': Db)
    requires Shrinks(s, s')
    ensures |Dirty(s')| < |Dirty(s)| || (|Dirty(s')| == |Dirty(s)| && |s'.toCommit| < |s.toCommit|)
  {
    SubsetCardinality(Dirty(s'), Dirty(s));
  }
}
