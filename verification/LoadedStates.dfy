/** What an object holds once it is loaded, and that what a commit stored is what comes back. */
module LoadedStates {
  import opened Common
  import opened ObjectStore
  import opened Commit
  import opened CompletedCommits
  import opened IdentityMap

  /** The object is clean, and has the id, the content and the references in the record. */
  ghost predicate HoldsRecord(s: Db, r: Ref, oid: Oid, rec: Record) {
    && r < |s.objects|
    && var o := s.objects[r];
       && o.oid == Some(oid) && o.jar && o.status.UpToDate? && !o.isNew
       && o.state.id == rec.id && o.state.payload == rec.payload
       && LeadTo(s, o.state.refs, rec.links)
  }

  /** Each reference is to the object that its link's oid stands for. */
  ghost predicate LeadTo(s: Db, refs: seq<Ref>, links: seq<Link>) {
    && |refs| == |links|
    && forall i :: 0 <= i < |links| ==>
         refs[i] < |s.objects| && s.objects[refs[i]].oid == Some(links[i].oid) && GetCached(s, links[i].oid) == Some(refs[i])
  }

  lemma {:induction false} ReferencesLead(s: Db, links: seq<Link>)
    requires Sound(s)
    ensures var (s', refs) := ReferenceAll(s, links);
            Sound(s') && KeepsIdentities(s, s') && LeadTo(s', refs, links)
    decreases |links|
  {
    ReferenceAllKeepsSound(s, links);
    if links != [] {
      var (s1, first) := Reference(s, links[0]);
      ReferenceKeepsSound(s, links[0]);
      ReferencesLead(s1, links[1..]);
      var (s2, rest) := ReferenceAll(s1, links[1..]);
      FirstLeads(s2, links, first, rest);
    }
  }

  lemma FirstLeads(s: Db, links: seq<Link>, first: Ref, rest: seq<Ref>)
    requires Sound(s) && links != [] && GetCached(s, links[0].oid) == Some(first) && LeadTo(s, rest, links[1..])
    ensures LeadTo(s, [first] + rest, links)
  {
    CachedIsAnObject(s, links[0].oid);
    forall i | 0 < i < |links| ensures ([first] + rest)[i] == rest[i - 1] && links[i] == links[1..][i - 1] {
    }
  }

  /** Tables that resolve the same, and objects that keep their oids, lead to the same objects. */
  lemma StillLead(s: Db, s': Db, refs: seq<Ref>, links: seq<Link>)
    requires LeadTo(s, refs, links) && KeepsIdentities(s, s') && |s.objects| <= |s'.objects|
    requires forall r: Ref :: r < |s.objects| ==> s'.objects[r].oid == s.objects[r].oid
    ensures LeadTo(s', refs, links)
  {
  }

  lemma LoadingMakes(s: Db, oid: Oid, s': Db, r: Ref)
    requires Get(s, oid) == Got(s', Some(r)) && (oid == ROOT || oid !in s.root) && GetCached(s, oid).None?
    ensures oid in s.storage
    ensures var rec := s.storage[oid];
            var (s1, refs) := ReferenceAll(s, rec.links);
            && r == |s1.objects|
            && s' == s1.(objects := s1.objects + [PObject(rec.cls, 0, Some(oid), true, UpToDate, false, State(rec.id, rec.payload, refs))],
                         cache := s1.cache[oid := r])
  {
  }

  lemma AppendedHolds(s: Db, s': Db, oid: Oid, rec: Record, refs: seq<Ref>)
    requires LeadTo(s, refs, rec.links) && KeepsIdentities(s, s')
    requires s'.objects == s.objects + [PObject(rec.cls, 0, Some(oid), true, UpToDate, false, State(rec.id, rec.payload, refs))]
    ensures HoldsRecord(s', |s.objects|, oid, rec) && s'.objects[|s.objects|].cls == rec.cls
  {
    StillLead(s, s', refs, rec.links);
  }

  lemma CachingKeepsIdentities(s: Db, s': Db, oid: Oid, r: Ref)
    requires GetCached(s, oid).None?
    requires s'.cache == s.cache[oid := r] && s'.preCache == s.preCache && s'.toCommit == s.toCommit
    ensures KeepsIdentities(s, s') && GetCached(s', oid) == Some(r)
  {
  }

  /**
   Loading an oid that stands for nothing yet makes a new object that holds the record, of the record's class.
   The objects there were are as they were.
   */
  lemma LoadedHoldsRecord(s: Db, oid: Oid, s': Db, r: Ref)
    requires Sound(s) && Get(s, oid) == Got(s', Some(r))
    requires (oid == ROOT || oid !in s.root) && GetCached(s, oid).None?
    ensures oid in s.storage && |s.objects| <= r && s.objects <= s'.objects
    ensures HoldsRecord(s', r, oid, s.storage[oid]) && s'.objects[r].cls == s.storage[oid].cls
    ensures GetCached(s', oid) == Some(r)
  {
    LoadingMakes(s, oid, s', r);
    var rec := s.storage[oid];
    var (s1, refs) := ReferenceAll(s, rec.links);
    ReferencesLead(s, rec.links);
    ReferenceAllGrows(s, rec.links);
    ReferenceAllCaches(s, rec.links);
    FetchFailsIff(s, oid);
    CachingKeepsIdentities(s1, s', oid, r);
    AppendedHolds(s1, s', oid, rec, refs);
  }

  /** If the oid stands for an object, or is a key of the root, nothing is loaded. */
  lemma KnownIsNotLoaded(s: Db, oid: Oid)
    requires (oid != ROOT && oid in s.root) || GetCached(s, oid).Some?
    ensures Get(s, oid).db == s && Get(s, oid).found.Some?
    ensures Get(s, oid).found == if oid != ROOT && oid in s.root then Some(s.root[oid]) else GetCached(s, oid)
  {
  }

  /** A ghost that is activated holds its record, and no other object changes. */
  lemma ActivatedHoldsRecord(s: Db, r: Ref, s': Db)
    requires Sound(s) && r < |s.objects| && s.objects[r].jar && Activate(s, r) == Done(s')
    ensures s.objects[r].oid.Some? && s.objects[r].oid.value in s.storage
    ensures HoldsRecord(s', r, s.objects[r].oid.value, s.storage[s.objects[r].oid.value]) && s'.objects[r].cls == s.objects[r].cls
    ensures |s.objects| <= |s'.objects| && forall q: Ref :: q < |s.objects| && q != r ==> s'.objects[q] == s.objects[q]
  {
    var rec := s.storage[s.objects[r].oid.value];
    var (s1, refs) := ReferenceAll(s, rec.links);
    ReferencesLead(s, rec.links);
    ReferenceAllGrows(s, rec.links);
    TablesDecide(s1, s');
    StillLead(s1, s', refs, rec.links);
  }

  // ---------- What was stored comes back ----------

  /** The object has the class, the id and the content of an earlier one, and refers to the same oids. */
  ghost predicate IsReadBack(s0: Db, r: Ref, s: Db, q: Ref)
    requires r < |s0.objects|
  {
    && q < |s.objects|
    && var o0, o := s0.objects[r], s.objects[q];
       && o.status.UpToDate? && !o.isNew && o.cls == o0.cls && KeyOf(o) == KeyOf(o0)
       && o.state.id == o0.state.id && o.state.payload == o0.state.payload && |o.state.refs| == |o0.state.refs|
       && forall i :: 0 <= i < |o.state.refs| ==>
            && o.state.refs[i] < |s.objects| && o0.state.refs[i] < |s0.objects|
            && KeyOf(s.objects[o.state.refs[i]]) == KeyOf(s0.objects[o0.state.refs[i]])
  }

  lemma {:induction false} LinksAt(objects: seq<PObject>, refs: seq<Ref>)
    ensures |LinksTo(objects, refs)| == |refs|
    ensures forall i :: 0 <= i < |refs| ==> LinksTo(objects, refs)[i] == LinkTo(objects, refs[i])
    decreases |refs|
  {
    if refs != [] {
      LinksAt(objects, refs[1..]);
    }
  }

  lemma HoldingIsReadBack(s0: Db, r: Ref, s: Db, q: Ref)
    requires WellFormed(s0) && r < |s0.objects| && HoldsRecord(s, q, KeyOf(s0.objects[r]), RecordOf(s0, r))
    requires s.objects[q].cls == s0.objects[r].cls
    ensures IsReadBack(s0, r, s, q)
  {
    var refs := s0.objects[r].state.refs;
    LinksAt(s0.objects, refs);
    forall i | 0 <= i < |refs| ensures refs[i] < |s0.objects| {
      assert refs[i] in refs;
    }
  }

  /** What the store holds for the object, once a commit has completed that left no oid contested. */
  lemma StoredForDirtyPath(s0: Db, taken: seq<Oid>, s: Db, r: Ref)
    requires Completes(s0, taken, s) && Uncontested(s0) && OnDirtyPath(s0, r)
    ensures r < |s0.objects| && r < |s.objects| && Sound(s)
    ensures var oid := KeyOf(s0.objects[r]);
            && s.objects[r].oid == Some(oid) && oid in s.cache && s.cache[oid] == r
            && oid in s.storage && s.storage[oid] == RecordOf(s0, r) && s.preCache == s0.preCache && s.root == s0.root
  {
    TurnsKeep(s0, taken);
    CommitStoresAllIff(s0, taken, s);
    OnPathIsDirty(s0, r);
    assert IsStored(s0, s, r) && Cleaned(s0, s, r);
  }

  /** Nothing but the record can answer for the oid: it is no key of the root, and no other object is left in the pre-cache. */
  predicate OnlyStored(s0: Db, r: Ref)
    requires r < |s0.objects|
  {
    var oid := KeyOf(s0.objects[r]);
    (oid == ROOT || oid !in s0.root) && (oid in s0.preCache ==> s0.preCache[oid] == r)
  }

  predicate RefersToItself(s0: Db, r: Ref)
    requires r < |s0.objects|
  {
    exists i :: 0 <= i < |s0.objects[r].state.refs| &&
      var c := s0.objects[r].state.refs[i]; c < |s0.objects| && KeyOf(s0.objects[c]) == KeyOf(s0.objects[r])
  }

  lemma LinksToItselfIff(s0: Db, r: Ref)
    requires WellFormed(s0) && r < |s0.objects|
    ensures (exists l :: l in RecordOf(s0, r).links && l.oid == KeyOf(s0.objects[r])) <==> RefersToItself(s0, r)
  {
    var refs, links := s0.objects[r].state.refs, RecordOf(s0, r).links;
    LinksAt(s0.objects, refs);
    forall i | 0 <= i < |refs| ensures refs[i] < |s0.objects| && links[i].oid == KeyOf(s0.objects[refs[i]]) {
      assert refs[i] in refs;
    }
    if RefersToItself(s0, r) {
      var i :| 0 <= i < |refs| && KeyOf(s0.objects[refs[i]]) == KeyOf(s0.objects[r]);
      assert links[i] in links;
    }
  }

  lemma DroppedIsForgotten(s0: Db, s: Db, r: Ref)
    requires r < |s0.objects| && r < |s.objects| && s.objects[r].oid == Some(KeyOf(s0.objects[r])) && s.toCommit == map[]
    requires s.preCache == s0.preCache && KeyOf(s0.objects[r]) in s.cache && s.cache[KeyOf(s0.objects[r])] == r
    requires OnlyStored(s0, r)
    ensures GetCached(RemoveFromCache(s, r), KeyOf(s0.objects[r])).None?
  {
  }

  /**
   An object on a dirty path whose oid is not contested, stored by a commit that completes, dropped from the
   caches and fetched again: a new object comes back exactly if nothing else answers for its oid and it did not
   refer to itself; and then that has its id, its content, and references to the oids that it referred to.
   */
  lemma StoredComesBack(s0: Db, taken: seq<Oid>, s: Db, r: Ref, s': Db, found: Option<Ref>)
    requires Completes(s0, taken, s) && Uncontested(s0) && OnDirtyPath(s0, r) && r < |s0.objects| && r < |s.objects|
    requires Get(RemoveFromCache(s, r), KeyOf(s0.objects[r])) == Got(s', found)
    ensures found.Some? && |s.objects| <= found.value <==> OnlyStored(s0, r) && !RefersToItself(s0, r)
    ensures found.Some? && |s.objects| <= found.value ==> IsReadBack(s0, r, s', found.value)
  {
    var oid := KeyOf(s0.objects[r]);
    StoredForDirtyPath(s0, taken, s, r);
    var dropped := RemoveFromCache(s, r);
    RemoveKeepsSound(s, r);
    if OnlyStored(s0, r) {
      DroppedIsForgotten(s0, s, r);
      FetchFailsIff(dropped, oid);
      LinksToItselfIff(s0, r);
      if found.Some? {
        LoadedHoldsRecord(dropped, oid, s', found.value);
        HoldingIsReadBack(s0, r, s', found.value);
      }
    } else {
      OtherAnswers(s0, s, r);
      KnownIsNotLoaded(dropped, oid);
    }
  }

  /** Otherwise an object that was there already is what is found. */
  lemma OtherAnswers(s0: Db, s: Db, r: Ref)
    requires Sound(s) && r < |s0.objects| && r < |s.objects| && s.objects[r].oid == Some(KeyOf(s0.objects[r]))
    requires s.preCache == s0.preCache && s.root == s0.root && !OnlyStored(s0, r)
    ensures var oid, dropped := KeyOf(s0.objects[r]), RemoveFromCache(s, r);
            if oid != ROOT && oid in dropped.root then dropped.root[oid] < |s.objects|
            else GetCached(dropped, oid).Some? && GetCached(dropped, oid).value < |s.objects|
  {
    var dropped := RemoveFromCache(s, r);
    RemoveKeepsSound(s, r);
    if GetCached(dropped, KeyOf(s0.objects[r])).Some? {
      CachedIsAnObject(dropped, KeyOf(s0.objects[r]));
    }
  }

  /** A reference to it that is loaded anywhere else, in a database that has the store, gets the same. */
  lemma StoredIsActivated(s0: Db, taken: seq<Oid>, s: Db, r: Ref, other: Db, q: Ref, s': Db)
    requires Completes(s0, taken, s) && Uncontested(s0) && OnDirtyPath(s0, r) && r < |s0.objects|
    requires Sound(other) && other.storage == s.storage && q < |other.objects|
    requires other.objects[q].jar && other.objects[q].oid == Some(KeyOf(s0.objects[r])) && other.objects[q].cls == s0.objects[r].cls
    requires Activate(other, q) == Done(s')
    ensures IsReadBack(s0, r, s', q)
  {
    StoredForDirtyPath(s0, taken, s, r);
    ActivatedHoldsRecord(other, q, s');
    HoldingIsReadBack(s0, r, s', q);
  }

  // ---------- Changes and additions reach the store ----------

  /** The object waits under its oid, and has to be stored. */
  ghost predicate IsDue(s: Db, r: Ref) {
    && r < |s.objects| && NeedsStore(s.objects[r])
    && s.objects[r].oid.Some? && s.objects[r].oid.value in s.toCommit && s.toCommit[s.objects[r].oid.value] == r
  }

  lemma DueIsOnPath(s: Db, r: Ref)
    requires IsDue(s, r)
    ensures OnDirtyPath(s, r)
  {
    WaitingIsOnPath(s, r);
  }

  /**
   Setting an attribute of a clean object that belongs to a database gives it the new state and makes it due,
   unless its oid is not that of its id; then nothing changes. An object that is due or belongs to none just
   gets the state. Other objects stay.
   */
  lemma ChangingMakesDue(s: Db, r: Ref, state: State)
    requires r < |s.objects|
    ensures var s', o := Changing(s, r, state), s.objects[r];
            && |s'.objects| == |s.objects|
            && (forall q: Ref :: q < |s.objects| && q != r ==> s'.objects[q] == s.objects[q])
            && (if o.jar && o.status.UpToDate? then
                  if o.oid.Some? && o.cls.renku && o.oid.value != Hash(o.state.id) then s' == s
                  else s'.objects[r].state == state && s'.objects[r].status.Changed? && IsDue(s', r)
                else s'.objects[r] == o.(state := state) && s'.toCommit == s.toCommit)
  {
  }

  /** Registering an object makes it due if it is new or changed, and raises exactly if its oid is not that of its id. */
  lemma RegisteringMakesDue(s: Db, r: Ref)
    requires r < |s.objects|
    ensures var o := s.objects[r];
            && (Register(s, r).Raised? <==> o.oid.Some? && o.cls.renku && o.oid.value != Hash(o.state.id))
            && (Register(s, r).Done? ==>
                  var s' := Register(s, r).value;
                  && |s'.objects| == |s.objects| && s'.objects[r].jar && s'.objects[r].state == o.state
                  && s'.objects[r].oid == (if o.oid.Some? then o.oid
                                           else Some(if o.state.id != "" then Hash(o.state.id) else Random(o.uuid)))
                  && (NeedsStore(o) ==> IsDue(s', r)))
  {
  }

  /** What is due when a commit starts that leaves no oid contested is stored with its state when it completes. */
  lemma DueIsStored(s0: Db, taken: seq<Oid>, s: Db, r: Ref)
    requires Completes(s0, taken, s) && Uncontested(s0) && IsDue(s0, r)
    ensures var oid := s0.objects[r].oid.value;
            && oid in s.storage && s.storage[oid].cls == s0.objects[r].cls
            && s.storage[oid].id == s0.objects[r].state.id && s.storage[oid].payload == s0.objects[r].state.payload
            && |s.storage[oid].links| == |s0.objects[r].state.refs|
  {
    DueIsOnPath(s0, r);
    StoredForDirtyPath(s0, taken, s, r);
    LinksAt(s0.objects, s0.objects[r].state.refs);
  }

  /** An object whose oid is reassigned gets the oid of its id, or the new random one, and nothing stands for it any more. */
  lemma ReassigningNames(s: Db, r: Ref, uuid: nat)
    requires Sound(s) && r < |s.objects|
    ensures var s', o := Reassigned(s, r, uuid), s.objects[r];
            && |s'.objects| == |s.objects| && s'.objects[r].state == o.state && s'.objects[r].status == o.status
            && s'.objects[r].oid == Some(if o.state.id != "" then Hash(o.state.id) else Random(uuid))
            && (forall q: Ref :: q < |s.objects| && q != r ==> s'.objects[q] == s.objects[q])
            && r !in s'.cache.Values && r !in s'.preCache.Values && r !in s'.toCommit.Values
  {
    RemovedIsInNoTable(s, r);
  }
}
