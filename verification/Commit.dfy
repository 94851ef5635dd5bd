/** What every turn of `Database.commit` keeps: on objects, tables, the worklist, and where references lead. */
module Commit {
  import opened Common
  import opened ObjectStore

  /** The objects are the same, with the same states; some may have been given the oid they were due. */
  ghost predicate SameIdentities(s: Db, s': Db) {
    && |s'.objects| == |s.objects|
    && forall r :: 0 <= r < |s.objects| ==>
         var o, o' := s.objects[r], s'.objects[r];
         o'.cls == o.cls && o'.uuid == o.uuid && o'.state == o.state && KeyOf(o') == KeyOf(o) && (o.oid.Some? ==> o'.oid == o.oid)
  }

  /** A reference by oid; every reference is to one of the objects. */
  function LinkTo(objects: seq<PObject>, c: Ref): Link {
    if c < |objects| then Link(KeyOf(objects[c]), objects[c].cls) else Link(ROOT, Class("", false))
  }

  function LinksTo(objects: seq<PObject>, refs: seq<Ref>): seq<Link> {
    if refs == [] then [] else [LinkTo(objects, refs[0])] + LinksTo(objects, refs[1..])
  }

  lemma {:induction false} LinksToSameIdentities(s: Db, s': Db, refs: seq<Ref>)
    requires SameIdentities(s, s')
    ensures LinksTo(s'.objects, refs) == LinksTo(s.objects, refs)
    decreases |refs|
  {
    if refs != [] {
      LinksToSameIdentities(s, s', refs[1..]);
    }
  }

  /** The links written are those of the objects met. */
  lemma {:induction false} LinksToMembers(objects: seq<PObject>, refs: seq<Ref>, link: Link)
    ensures link in LinksTo(objects, refs) <==> exists c :: c in refs && link == LinkTo(objects, c)
    decreases |refs|
  {
    if refs != [] {
      LinksToMembers(objects, refs[1..], link);
      assert forall c :: c in refs ==> c == refs[0] || c in refs[1..];
    }
  }

  /** The record an object should have: its own state, with references by oid. */
  function RecordOf(s: Db, r: Ref): Record
    requires r < |s.objects|
  {
    var o := s.objects[r];
    Record(o.cls, o.state.id, o.state.payload, LinksTo(s.objects, o.state.refs))
  }

  lemma SameIdentitiesSameRecord(s: Db, s': Db, r: Ref)
    requires SameIdentities(s, s') && r < |s.objects|
    ensures RecordOf(s', r) == RecordOf(s, r)
  {
    LinksToSameIdentities(s, s', s.objects[r].state.refs);
  }

  // ---------- Serializing one object ----------

  /** Meeting objects only assigns oids and registers those that have to be stored. */
  ghost predicate Visited(s: Db, s': Db, refs: seq<Ref>) {
    && SameIdentities(s, s')
    && (forall c :: c in refs ==> c < |s.objects|)
    && (forall r :: 0 <= r < |s.objects| ==> s'.objects[r].status == s.objects[r].status && s'.objects[r].isNew == s.objects[r].isNew)
    && (forall r :: 0 <= r < |s.objects| && r !in refs ==> s'.objects[r] == s.objects[r])
    && (forall c :: c in refs ==> s'.objects[c].oid.Some?)
    && s'.storage == s.storage && s'.root == s.root && s'.cache == s.cache && s'.preCache == s.preCache
    && (forall o :: o in s.toCommit ==> o in s'.toCommit)
    && (forall o :: o in s'.toCommit && !(o in s.toCommit && s'.toCommit[o] == s.toCommit[o]) ==>
          var c := s'.toCommit[o]; c in refs && NeedsStore(s.objects[c]) && KeyOf(s.objects[c]) == o)
    && (forall c :: c in refs && NeedsStore(s.objects[c]) ==>
          && KeyOf(s.objects[c]) in s'.toCommit
          && var d := s'.toCommit[KeyOf(s.objects[c])]; d in refs && NeedsStore(s.objects[d]) && KeyOf(s.objects[d]) == KeyOf(s.objects[c]))
  }

  lemma VisitEffect(s: Db, c: Ref)
    requires c < |s.objects|
    ensures Visit(s, c).Done? <==> (NeedsStore(s.objects[c]) ==> OidChecks(Assign(s, c).objects[c]))
    ensures Visit(s, c).Done? ==> Visited(s, Visit(s, c).value, [c])
  {
  }

  lemma VisitedIsTransitive(s: Db, s1: Db, s2: Db, a: seq<Ref>, b: seq<Ref>)
    requires Visited(s, s1, a) && Visited(s1, s2, b)
    ensures Visited(s, s2, a + b)
  {
  }

  ghost predicate RenkuOidsMatch(s: Db, refs: seq<Ref>)
    requires forall c :: c in refs ==> c < |s.objects|
  {
    forall c :: c in refs && NeedsStore(s.objects[c]) && s.objects[c].cls.renku ==> KeyOf(s.objects[c]) == Hash(s.objects[c].state.id)
  }

  lemma {:induction false} VisitAllCompletes(s: Db, refs: seq<Ref>)
    requires (forall c :: c in refs ==> c < |s.objects|) && RenkuOidsMatch(s, refs)
    ensures VisitAll(s, refs).Done?
    decreases |refs|
  {
    if refs != [] {
      assert refs[0] in refs && forall c :: c in refs[1..] ==> c in refs;
      VisitEffect(s, refs[0]);
      VisitAllCompletes(Visit(s, refs[0]).value, refs[1..]);
    }
  }

  lemma {:induction false} VisitAllVisits(s: Db, refs: seq<Ref>)
    requires (forall c :: c in refs ==> c < |s.objects|) && VisitAll(s, refs).Done?
    ensures Visited(s, VisitAll(s, refs).value.0, refs)
    decreases |refs|
  {
    if refs == [] {
      assert Visited(s, s, []);
    } else {
      assert refs[0] in refs && forall c :: c in refs[1..] ==> c in refs;
      VisitEffect(s, refs[0]);
      var s1 := Visit(s, refs[0]).value;
      VisitAllVisits(s1, refs[1..]);
      assert refs == [refs[0]] + refs[1..];
      VisitedIsTransitive(s, s1, VisitAll(s1, refs[1..]).value.0, [refs[0]], refs[1..]);
    }
  }

  lemma {:induction false} VisitAllLinks(s: Db, refs: seq<Ref>)
    requires (forall c :: c in refs ==> c < |s.objects|) && VisitAll(s, refs).Done?
    ensures VisitAll(s, refs).value.1 == LinksTo(s.objects, refs)
    decreases |refs|
  {
    if refs != [] {
      assert refs[0] in refs && forall c :: c in refs[1..] ==> c in refs;
      VisitEffect(s, refs[0]);
      var s1 := Visit(s, refs[0]).value;
      VisitAllLinks(s1, refs[1..]);
      LinksToSameIdentities(s, s1, refs[1..]);
    }
  }

  lemma VisitAllEffect(s: Db, refs: seq<Ref>)
    requires forall c :: c in refs ==> c < |s.objects|
    ensures RenkuOidsMatch(s, refs) ==> VisitAll(s, refs).Done?
    ensures VisitAll(s, refs).Done? ==>
            Visited(s, VisitAll(s, refs).value.0, refs) && VisitAll(s, refs).value.1 == LinksTo(s.objects, refs)
  {
    if RenkuOidsMatch(s, refs) {
      VisitAllCompletes(s, refs);
    }
    if VisitAll(s, refs).Done? {
      VisitAllVisits(s, refs);
      VisitAllLinks(s, refs);
    }
  }

  // ---------- What commit may rely on ----------

  /** A set of objects that covers the worklist and everything referred to from dirty or new objects in it. */
  ghost predicate Region(s: Db, region: set<Ref>) {
    && (forall r :: r in region ==> r < |s.objects|)
    && (forall o :: o in s.toCommit ==> s.toCommit[o] in region)
    && (forall r :: r in region && NeedsStore(s.objects[r]) ==> forall c :: c in s.objects[r].state.refs ==> c in region)
  }

  /** No two dirty or new objects claim one oid. */
  ghost predicate KeysApart(s: Db, region: set<Ref>) {
    && (forall r :: r in region ==> r < |s.objects|)
    && (forall r, q :: r in region && q in region && r != q && NeedsStore(s.objects[r]) && NeedsStore(s.objects[q]) ==>
          KeyOf(s.objects[r]) != KeyOf(s.objects[q]))
  }

  /** The cache holds nothing else under an oid that a dirty or new object claims. */
  ghost predicate CacheFits(s: Db, region: set<Ref>) {
    && (forall r :: r in region ==> r < |s.objects|)
    && (forall r :: r in region && NeedsStore(s.objects[r]) && KeyOf(s.objects[r]) in s.cache ==> s.cache[KeyOf(s.objects[r])] == r)
  }

  /** The oid check passes for what dirty or new objects refer to. */
  ghost predicate MetOidsMatch(s: Db, region: set<Ref>)
    requires RefsInRange(s.objects)
  {
    && (forall r :: r in region ==> r < |s.objects|)
    && (forall r :: r in region && NeedsStore(s.objects[r]) ==> RenkuOidsMatch(s, s.objects[r].state.refs))
  }

  ghost predicate StoreIsClosed(storage: map<Oid, Record>) {
    forall o, link :: o in storage && link in storage[o].links ==> link.oid in storage
  }

  /** Every object referred to from a dirty or new one is dirty or new itself, or has a record. */
  ghost predicate CleanOnesAreStored(s: Db, region: set<Ref>) {
    && Region(s, region)
    && forall r, c :: r in region && NeedsStore(s.objects[r]) && c in s.objects[r].state.refs && c < |s.objects| && !NeedsStore(s.objects[c]) ==>
      KeyOf(s.objects[c]) in s.storage
  }

  // ---------- What every turn keeps ----------

  ghost predicate Cleaned(s0: Db, s: Db, r: Ref) {
    r < |s0.objects| && r < |s.objects| && NeedsStore(s0.objects[r]) && !NeedsStore(s.objects[r])
  }

  ghost predicate Waiting(s: Db, r: Ref) {
    r < |s.objects| && KeyOf(s.objects[r]) in s.toCommit && s.toCommit[KeyOf(s.objects[r])] == r
  }

  /** What happened to the objects since the start: each is as it was, or stored and clean. */
  ghost predicate ObjectsSoFar(s0: Db, s: Db, region: set<Ref>) {
    && SameIdentities(s0, s)
    && (forall r: Ref :: r < |s0.objects| && !Cleaned(s0, s, r) ==>
          s.objects[r].status == s0.objects[r].status && s.objects[r].isNew == s0.objects[r].isNew)
    && (forall r: Ref :: r < |s0.objects| && r !in region ==> s.objects[r] == s0.objects[r])
    && (forall r: Ref :: Cleaned(s0, s, r) ==>
          && r in region && s.objects[r].oid.Some? && s.objects[r].status.UpToDate? && !s.objects[r].isNew
          && KeyOf(s.objects[r]) in s.storage && s.storage[KeyOf(s.objects[r])] == RecordOf(s0, r)
          && KeyOf(s.objects[r]) in s.cache && s.cache[KeyOf(s.objects[r])] == r)
  }

  /** What happened to the store and the cache: nothing but the objects stored. */
  ghost predicate TablesSoFar(s0: Db, s: Db) {
    && (forall o :: o in s0.storage ==> o in s.storage)
    && (forall o :: o in s.storage && !(o in s0.storage && s.storage[o] == s0.storage[o]) ==>
          exists r: Ref :: Cleaned(s0, s, r) && KeyOf(s.objects[r]) == o)
    && (forall o :: o in s0.cache ==> o in s.cache && s.cache[o] == s0.cache[o])
    && (forall o :: o in s.cache && o !in s0.cache ==> exists r: Ref :: Cleaned(s0, s, r) && KeyOf(s.objects[r]) == o)
    && s.preCache == s0.preCache && s.root == s0.root
  }

  /** What is on the worklist: what was there at the start, or dirty or new objects met since. */
  ghost predicate EntriesSoFar(s0: Db, s: Db, region: set<Ref>) {
    && |s.objects| == |s0.objects|
    && (forall r :: r in region ==> r < |s.objects|)
    && (forall o :: o in s.toCommit ==>
          && s.toCommit[o] in region && s.objects[s.toCommit[o]].oid == Some(o) && !s.objects[s.toCommit[o]].status.Ghost?
          && (NeedsStore(s0.objects[s.toCommit[o]]) || (o in s0.toCommit && s0.toCommit[o] == s.toCommit[o])))
  }

  ghost predicate Kept(s0: Db, s: Db, region: set<Ref>) {
    ObjectsSoFar(s0, s, region) && TablesSoFar(s0, s) && EntriesSoFar(s0, s, region)
  }

  lemma KeptAtStart(s: Db, region: set<Ref>)
    requires WellFormed(s) && NoGhostWaits(s) && Region(s, region)
    ensures Kept(s, s, region)
  {
  }

  /** The region, and what happened in it so far. */
  ghost predicate Underway(s0: Db, s: Db, region: set<Ref>) {
    WellFormed(s0) && Region(s0, region) && Kept(s0, s, region)
  }

  lemma TakingKeeps(s0: Db, s: Db, region: set<Ref>, oid: Oid)
    requires Underway(s0, s, region) && oid in s.toCommit
    ensures Underway(s0, s.(toCommit := s.toCommit - {oid}), region)
  {
    var s1 := s.(toCommit := s.toCommit - {oid});
    assert forall r: Ref :: Cleaned(s0, s1, r) <==> Cleaned(s0, s, r);
  }

  /** Meeting objects changes no status and no table but the worklist. */
  lemma VisitingKeepsStored(s0: Db, s: Db, s': Db, region: set<Ref>, r: Ref)
    requires Underway(s0, s, region) && r in region && NeedsStore(s0.objects[r])
    requires Visited(s, s', s0.objects[r].state.refs)
    ensures ObjectsSoFar(s0, s', region) && TablesSoFar(s0, s')
    ensures forall q: Ref :: Cleaned(s0, s', q) <==> Cleaned(s0, s, q)
  {
    assert forall q: Ref :: Cleaned(s0, s', q) <==> Cleaned(s0, s, q);
    assert SameIdentities(s0, s');
  }

  ghost predicate EntryIsSound(s0: Db, s: Db, region: set<Ref>, o: Oid)
    requires o in s.toCommit && |s.objects| == |s0.objects|
  {
    var r := s.toCommit[o];
    && r in region && r < |s.objects| && s.objects[r].oid == Some(o) && !s.objects[r].status.Ghost?
    && (NeedsStore(s0.objects[r]) || (o in s0.toCommit && s0.toCommit[o] == r))
  }

  /** What visiting puts on the worklist lies in the region, under its own oid, and needs to be stored. */
  lemma VisitedEntryIsSound(s0: Db, s: Db, s': Db, region: set<Ref>, refs: seq<Ref>, o: Oid)
    requires SameIdentities(s0, s) && EntriesSoFar(s0, s, region) && Visited(s, s', refs) && o in s'.toCommit
    requires forall c :: c in refs ==> c in region
    requires forall c :: c in refs && NeedsStore(s.objects[c]) ==> NeedsStore(s0.objects[c])
    ensures EntryIsSound(s0, s', region, o)
  {
    var c := s'.toCommit[o];
    if o in s.toCommit && c == s.toCommit[o] {
      assert EntryIsSound(s0, s, region, o);
    } else {
      assert c in refs && s'.objects[c].oid.Some? && KeyOf(s'.objects[c]) == KeyOf(s.objects[c]) == o;
    }
  }

  lemma VisitingKeepsEntries(s0: Db, s: Db, s': Db, region: set<Ref>, r: Ref)
    requires Underway(s0, s, region) && r in region && NeedsStore(s0.objects[r])
    requires Visited(s, s', s0.objects[r].state.refs)
    ensures EntriesSoFar(s0, s', region)
  {
    var refs := s0.objects[r].state.refs;
    forall c | c in refs && NeedsStore(s.objects[c]) ensures NeedsStore(s0.objects[c]) {
      assert !Cleaned(s0, s, c);
    }
    forall o | o in s'.toCommit ensures EntryIsSound(s0, s', region, o) {
      VisitedEntryIsSound(s0, s, s', region, refs, o);
    }
  }

  lemma VisitingKeeps(s0: Db, s: Db, s': Db, region: set<Ref>, r: Ref)
    requires Underway(s0, s, region) && r in region && NeedsStore(s0.objects[r])
    requires Visited(s, s', s0.objects[r].state.refs)
    ensures Underway(s0, s', region)
    ensures forall q: Ref :: Cleaned(s0, s', q) <==> Cleaned(s0, s, q)
  {
    VisitingKeepsStored(s0, s, s', region, r);
    VisitingKeepsEntries(s0, s, s', region, r);
  }

  /** The object is written and marked as clean; the cache has nothing else under its oid. */
  ghost predicate Storing(s0: Db, s: Db, s': Db, r: Ref) {
    && r < |s0.objects| && r < |s.objects| && NeedsStore(s0.objects[r]) && NeedsStore(s.objects[r])
    && var oid := KeyOf(s.objects[r]);
    && s.objects[r].oid.Some? && (oid in s.cache ==> s.cache[oid] == r)
    && s' == s.(storage := s.storage[oid := RecordOf(s0, r)], cache := s.cache[oid := r],
                objects := s.objects[r := s.objects[r].(status := UpToDate, isNew := false)])
  }

  lemma StoringCleansOne(s0: Db, s: Db, s': Db, region: set<Ref>, r: Ref)
    requires Underway(s0, s, region) && Storing(s0, s, s', r)
    ensures SameIdentities(s0, s')
    ensures forall q: Ref :: q < |s0.objects| ==> (Cleaned(s0, s', q) <==> q == r || Cleaned(s0, s, q))
    ensures forall q: Ref :: Cleaned(s0, s, q) ==> KeyOf(s.objects[q]) != KeyOf(s.objects[r])
  {
  }

  /** Every new record and cache entry is accounted for by an object stored. */
  lemma StoringIsAccountedFor(s0: Db, s: Db, s': Db, region: set<Ref>, r: Ref, o: Oid)
    requires Underway(s0, s, region) && Storing(s0, s, s', r)
    requires || (o in s'.storage && !(o in s0.storage && s'.storage[o] == s0.storage[o]))
             || (o in s'.cache && o !in s0.cache)
    ensures exists q: Ref :: Cleaned(s0, s', q) && KeyOf(s'.objects[q]) == o
  {
    StoringCleansOne(s0, s, s', region, r);
    if o == KeyOf(s.objects[r]) {
      assert Cleaned(s0, s', r);
    } else {
      var q: Ref :| Cleaned(s0, s, q) && KeyOf(s.objects[q]) == o;
      assert Cleaned(s0, s', q);
    }
  }

  lemma StoringKeepsObjects(s0: Db, s: Db, s': Db, region: set<Ref>, r: Ref)
    requires Underway(s0, s, region) && r in region && Storing(s0, s, s', r)
    ensures ObjectsSoFar(s0, s', region)
  {
    StoringCleansOne(s0, s, s', region, r);
    forall q: Ref | Cleaned(s0, s', q) && q != r
      ensures s'.objects[q] == s.objects[q] && KeyOf(s.objects[q]) != KeyOf(s.objects[r]) && Cleaned(s0, s, q)
    {
    }
  }

  lemma StoringKeepsTables(s0: Db, s: Db, s': Db, region: set<Ref>, r: Ref)
    requires Underway(s0, s, region) && Storing(s0, s, s', r)
    ensures TablesSoFar(s0, s')
  {
    forall o | o in s'.storage && !(o in s0.storage && s'.storage[o] == s0.storage[o])
      ensures exists q: Ref :: Cleaned(s0, s', q) && KeyOf(s'.objects[q]) == o
    {
      StoringIsAccountedFor(s0, s, s', region, r, o);
    }
    forall o | o in s'.cache && o !in s0.cache ensures exists q: Ref :: Cleaned(s0, s', q) && KeyOf(s'.objects[q]) == o {
      StoringIsAccountedFor(s0, s, s', region, r, o);
    }
  }

  lemma StoringKeepsEntries(s0: Db, s: Db, s': Db, region: set<Ref>, r: Ref)
    requires EntriesSoFar(s0, s, region) && Storing(s0, s, s', r)
    ensures EntriesSoFar(s0, s', region)
  {
    forall o | o in s'.toCommit ensures EntryIsSound(s0, s', region, o) {
      assert EntryIsSound(s0, s, region, o);
    }
  }

  lemma StoringKeepsWaiting(s0: Db, s: Db, s': Db, r: Ref)
    requires Storing(s0, s, s', r)
    ensures forall q: Ref :: Waiting(s, q) ==> Waiting(s', q)
  {
  }

  lemma StoringKeeps(s0: Db, s: Db, s': Db, region: set<Ref>, r: Ref)
    requires Underway(s0, s, region) && r in region && Storing(s0, s, s', r)
    ensures Underway(s0, s', region)
  {
    StoringKeepsObjects(s0, s, s', region, r);
    StoringKeepsTables(s0, s, s', region, r);
    StoringKeepsEntries(s0, s, s', region, r);
  }

  /** A turn on a dirty entry: it is taken, what it refers to is met, and it is stored. */
  ghost predicate Stores(s0: Db, s: Db, s1: Db, s2: Db, s': Db, oid: Oid) {
    && oid in s.toCommit && s.toCommit[oid] < |s0.objects| && s.toCommit[oid] < |s.objects|
    && s1 == s.(toCommit := s.toCommit - {oid})
    && Visited(s1, s2, s0.objects[s.toCommit[oid]].state.refs)
    && Storing(s0, s2, s', s.toCommit[oid])
  }

  lemma StoreEffect(s0: Db, s: Db, region: set<Ref>, r: Ref)
    requires Underway(s0, s, region) && r in region && NeedsStore(s0.objects[r]) && NeedsStore(s.objects[r])
    requires s.objects[r].oid.Some? && Store(s, r).Done?
    ensures VisitAll(s, s.objects[r].state.refs).Done?
    ensures var s2 := VisitAll(s, s.objects[r].state.refs).value.0;
            Visited(s, s2, s0.objects[r].state.refs) && Storing(s0, s2, Store(s, r).value, r)
  {
    VisitAllEffect(s, s.objects[r].state.refs);
    SameIdentitiesSameRecord(s0, s, r);
  }

  lemma TurnStores(s0: Db, s: Db, region: set<Ref>, oid: Oid) returns (s1: Db, s2: Db)
    requires Underway(s0, s, region) && oid in s.toCommit && NeedsStore(s.objects[s.toCommit[oid]])
    requires CommitStep(s, oid).Done?
    ensures Stores(s0, s, s1, s2, CommitStep(s, oid).value, oid)
    ensures Underway(s0, s1, region) && Underway(s0, s2, region) && Underway(s0, CommitStep(s, oid).value, region)
  {
    var r := s.toCommit[oid];
    s1 := s.(toCommit := s.toCommit - {oid});
    TakingKeeps(s0, s, region, oid);
    assert CommitStep(s, oid) == Store(s1, r);
    StoreEffect(s0, s1, region, r);
    s2 := VisitAll(s1, s.objects[r].state.refs).value.0;
    VisitingKeeps(s0, s1, s2, region, r);
    StoringKeeps(s0, s2, CommitStep(s, oid).value, region, r);
  }

  /** No turn that completes does anything else, whatever oids are claimed. */
  lemma TurnKeeps(s0: Db, s: Db, region: set<Ref>, oid: Oid)
    requires Underway(s0, s, region) && oid in s.toCommit && CommitStep(s, oid).Done?
    ensures Underway(s0, CommitStep(s, oid).value, region)
  {
    if NeedsStore(s.objects[s.toCommit[oid]]) {
      var s1, s2 := TurnStores(s0, s, region, oid);
    } else {
      TakingKeeps(s0, s, region, oid);
    }
  }

  // ---------- Every reference leads to a record, or to one to be written ----------

  /** Every link leads to a record, or to an object that waits to be stored. */
  ghost predicate LinksLead(s: Db) {
    forall o, link :: o in s.storage && link in s.storage[o].links ==> Leads(s, link.oid)
  }

  ghost predicate Leads(s: Db, oid: Oid) {
    oid in s.storage || (oid in s.toCommit && s.toCommit[oid] < |s.objects| && NeedsStore(s.objects[s.toCommit[oid]]))
  }

  lemma TakingLeads(s: Db, oid: Oid, target: Oid)
    requires oid in s.toCommit && Leads(s, target)
    ensures target == oid || Leads(s.(toCommit := s.toCommit - {oid}), target)
    ensures target in s.storage || NeedsStore(s.objects[s.toCommit[target]])
  {
  }

  lemma VisitingLeads(s: Db, s': Db, refs: seq<Ref>, target: Oid)
    requires Visited(s, s', refs) && Leads(s, target)
    ensures Leads(s', target)
  {
  }

  lemma MetLeads(s: Db, s': Db, refs: seq<Ref>, c: Ref)
    requires Visited(s, s', refs) && c in refs && NeedsStore(s.objects[c])
    ensures Leads(s', KeyOf(s.objects[c]))
  {
  }

  lemma StoringLeads(s0: Db, s: Db, s': Db, r: Ref, target: Oid)
    requires Storing(s0, s, s', r) && Keyed(s.objects, s.toCommit)
    requires Leads(s, target) || target == KeyOf(s.objects[r])
    ensures Leads(s', target)
  {
  }

  lemma EntriesAreKeyed(s0: Db, s: Db, region: set<Ref>)
    requires Underway(s0, s, region)
    ensures Keyed(s.objects, s.toCommit)
  {
  }

  /** What a stored object refers to is stored, or needs to be and was just met. */
  lemma ReferredToLeads(s0: Db, s: Db, s': Db, region: set<Ref>, r: Ref, c: Ref)
    requires Underway(s0, s, region) && CleanOnesAreStored(s0, region) && r in region && NeedsStore(s0.objects[r])
    requires c in s0.objects[r].state.refs && Visited(s, s', s0.objects[r].state.refs)
    ensures Leads(s', LinkTo(s0.objects, c).oid)
  {
    assert c < |s0.objects|;
    if NeedsStore(s.objects[c]) {
      MetLeads(s, s', s0.objects[r].state.refs, c);
    } else if NeedsStore(s0.objects[c]) {
      assert Cleaned(s0, s, c);
    }
  }

  lemma StoringKeepsLinksLeading(s0: Db, s: Db, s1: Db, s2: Db, s': Db, region: set<Ref>, oid: Oid)
    requires Underway(s0, s1, region) && Keyed(s2.objects, s2.toCommit)
    requires Stores(s0, s, s1, s2, s', oid) && s.toCommit[oid] in region && KeyOf(s2.objects[s.toCommit[oid]]) == oid
    requires CleanOnesAreStored(s0, region) && LinksLead(s)
    ensures LinksLead(s')
  {
    var r := s.toCommit[oid];
    var refs := s0.objects[r].state.refs;
    forall o, link | o in s'.storage && link in s'.storage[o].links ensures Leads(s', link.oid) {
      if o == oid {
        LinksToMembers(s0.objects, refs, link);
        var c :| c in refs && link == LinkTo(s0.objects, c);
        ReferredToLeads(s0, s1, s2, region, r, c);
      } else {
        TakingLeads(s, oid, link.oid);
        if link.oid != oid {
          VisitingLeads(s1, s2, refs, link.oid);
        }
      }
      StoringLeads(s0, s2, s', r, link.oid);
    }
  }

  lemma TakingKeepsLinksLeading(s: Db, oid: Oid)
    requires LinksLead(s) && oid in s.toCommit && s.toCommit[oid] < |s.objects| && !NeedsStore(s.objects[s.toCommit[oid]])
    ensures LinksLead(s.(toCommit := s.toCommit - {oid}))
  {
    var s1 := s.(toCommit := s.toCommit - {oid});
    forall o, link | o in s1.storage && link in s1.storage[o].links ensures Leads(s1, link.oid) {
      assert Leads(s, link.oid);
    }
  }

  lemma TakenIsNamed(s0: Db, s: Db, region: set<Ref>, oid: Oid, s2: Db)
    requires Underway(s0, s, region) && Underway(s0, s2, region) && oid in s.toCommit
    ensures s.toCommit[oid] in region && s.toCommit[oid] < |s2.objects| && KeyOf(s2.objects[s.toCommit[oid]]) == oid
  {
  }

  lemma TurnKeepsLinksLeading(s0: Db, s: Db, region: set<Ref>, oid: Oid)
    requires Underway(s0, s, region) && oid in s.toCommit && CommitStep(s, oid).Done?
    requires CleanOnesAreStored(s0, region) && LinksLead(s)
    ensures LinksLead(CommitStep(s, oid).value)
  {
    if NeedsStore(s.objects[s.toCommit[oid]]) {
      var s1, s2 := TurnStores(s0, s, region, oid);
      EntriesAreKeyed(s0, s2, region);
      TakenIsNamed(s0, s, region, oid, s2);
      StoringKeepsLinksLeading(s0, s, s1, s2, CommitStep(s, oid).value, region, oid);
    } else {
      TakingKeepsLinksLeading(s, oid);
    }
  }

  // ---------- Uncontested oids ----------

  /** Still to be stored: it was on the worklist at the start, or an object stored since refers to it. */
  ghost predicate Due(s0: Db, s: Db, q: Ref) {
    && q < |s.objects| && NeedsStore(s.objects[q])
    && (|| (exists o :: o in s0.toCommit && s0.toCommit[o] == q)
        || (exists r: Ref :: Cleaned(s0, s, r) && q in s0.objects[r].state.refs))
  }

  /** Everything due is on the worklist; `except` is the object just taken from it. */
  ghost predicate DueWaits(s0: Db, s: Db, except: Option<Ref>) {
    forall q: Ref :: Due(s0, s, q) && except != Some(q) ==> Waiting(s, q)
  }

  ghost predicate Progress(s0: Db, s: Db, region: set<Ref>) {
    Underway(s0, s, region) && DueWaits(s0, s, None)
  }

  lemma ProgressAtStart(s: Db, region: set<Ref>)
    requires WellFormed(s) && NoGhostWaits(s) && Region(s, region)
    ensures Progress(s, s, region)
  {
    KeptAtStart(s, region);
  }

  lemma DueDependsOnStatus(s0: Db, s: Db, s': Db)
    requires |s.objects| == |s0.objects| == |s'.objects|
    requires forall r: Ref :: r < |s.objects| ==> s'.objects[r].status == s.objects[r].status && s'.objects[r].isNew == s.objects[r].isNew
    ensures forall q: Ref :: Due(s0, s', q) <==> Due(s0, s, q)
  {
    assert forall r: Ref :: Cleaned(s0, s', r) <==> Cleaned(s0, s, r);
  }

  lemma DueIsInRegion(s0: Db, s: Db, region: set<Ref>)
    requires Underway(s0, s, region)
    ensures forall q: Ref :: Due(s0, s, q) ==> q in region
  {
  }

  lemma TakingLeavesOthers(s0: Db, s: Db, oid: Oid)
    requires |s.objects| == |s0.objects| && DueWaits(s0, s, None) && oid in s.toCommit
    ensures DueWaits(s0, s.(toCommit := s.toCommit - {oid}), Some(s.toCommit[oid]))
  {
    var s1 := s.(toCommit := s.toCommit - {oid});
    DueDependsOnStatus(s0, s, s1);
    forall q: Ref | Due(s0, s1, q) && q != s.toCommit[oid] ensures Waiting(s1, q) {
      assert Due(s0, s, q) && Waiting(s, q);
    }
  }

  /** An object that waits, or was just met and has to be stored, is not displaced by another. */
  lemma NoContention(s0: Db, s: Db, s': Db, region: set<Ref>, refs: seq<Ref>, q: Ref)
    requires Underway(s0, s, region) && KeysApart(s0, region)
    requires (forall c :: c in refs ==> c in region) && Visited(s, s', refs)
    requires q in region && NeedsStore(s.objects[q])
    requires Waiting(s, q) || q in refs
    ensures Waiting(s', q)
  {
    var o := KeyOf(s.objects[q]);
    assert o in s'.toCommit;
    var p := s'.toCommit[o];
    if !(o in s.toCommit && p == s.toCommit[o]) || q in refs {
      assert p in refs && NeedsStore(s.objects[p]) && KeyOf(s.objects[p]) == o;
      OneKeyOneObject(s0, s, region, p, q);
    }
  }

  lemma OneKeyOneObject(s0: Db, s: Db, region: set<Ref>, p: Ref, q: Ref)
    requires Underway(s0, s, region) && KeysApart(s0, region) && p in region && q in region
    requires NeedsStore(s.objects[p]) && NeedsStore(s.objects[q]) && KeyOf(s.objects[p]) == KeyOf(s.objects[q])
    ensures p == q
  {
    assert !Cleaned(s0, s, p) && !Cleaned(s0, s, q);
  }

  lemma VisitingKeepsDue(s0: Db, s: Db, s': Db, region: set<Ref>, r: Ref)
    requires Underway(s0, s, region) && KeysApart(s0, region) && DueWaits(s0, s, Some(r))
    requires r in region && NeedsStore(s0.objects[r]) && Visited(s, s', s0.objects[r].state.refs)
    ensures DueWaits(s0, s', Some(r))
    ensures forall c :: c in s0.objects[r].state.refs && NeedsStore(s.objects[c]) ==> Waiting(s', c)
  {
    var refs := s0.objects[r].state.refs;
    forall q: Ref | q in region && NeedsStore(s.objects[q]) && (Waiting(s, q) || q in refs) ensures Waiting(s', q) {
      NoContention(s0, s, s', region, refs, q);
    }
    DueDependsOnStatus(s0, s, s');
    DueIsInRegion(s0, s, region);
  }

  lemma DueAfterStoring(s0: Db, s: Db, s': Db, region: set<Ref>, r: Ref, q: Ref)
    requires Underway(s0, s, region) && Storing(s0, s, s', r) && Due(s0, s', q)
    ensures q != r && (Due(s0, s, q) || (q in s0.objects[r].state.refs && NeedsStore(s.objects[q])))
  {
    StoringCleansOne(s0, s, s', region, r);
    if p: Ref :| Cleaned(s0, s', p) && q in s0.objects[p].state.refs {
      assert p == r || Cleaned(s0, s, p);
    }
  }

  lemma StoringKeepsDue(s0: Db, s: Db, s': Db, region: set<Ref>, r: Ref)
    requires Underway(s0, s, region) && r in region && Storing(s0, s, s', r) && DueWaits(s0, s, Some(r))
    requires forall c :: c in s0.objects[r].state.refs && NeedsStore(s.objects[c]) ==> Waiting(s, c)
    ensures DueWaits(s0, s', None)
  {
    StoringKeepsWaiting(s0, s, s', r);
    forall q: Ref | Due(s0, s', q) ensures Waiting(s', q) {
      DueAfterStoring(s0, s, s', region, r, q);
      assert Waiting(s, q);
    }
  }

  /** If no two dirty or new objects claim one oid, a turn that completes keeps everything due on the worklist. */
  lemma StepMakesProgress(s0: Db, s: Db, region: set<Ref>, oid: Oid)
    requires Progress(s0, s, region) && KeysApart(s0, region)
    requires oid in s.toCommit && CommitStep(s, oid).Done?
    ensures Progress(s0, CommitStep(s, oid).value, region)
  {
    TurnKeeps(s0, s, region, oid);
    TakingLeavesOthers(s0, s, oid);
    if NeedsStore(s.objects[s.toCommit[oid]]) {
      var s1, s2 := TurnStores(s0, s, region, oid);
      StoringTurnKeepsDue(s0, s, s1, s2, CommitStep(s, oid).value, region, oid);
    } else {
      CleanIsNotDue(s0, s.(toCommit := s.toCommit - {oid}), s.toCommit[oid]);
    }
  }

  lemma CleanIsNotDue(s0: Db, s: Db, r: Ref)
    requires DueWaits(s0, s, Some(r)) && r < |s.objects| && !NeedsStore(s.objects[r])
    ensures DueWaits(s0, s, None)
  {
  }

  lemma StoringTurnKeepsDue(s0: Db, s: Db, s1: Db, s2: Db, s': Db, region: set<Ref>, oid: Oid)
    requires Underway(s0, s1, region) && Underway(s0, s2, region) && KeysApart(s0, region)
    requires Stores(s0, s, s1, s2, s', oid) && s.toCommit[oid] in region && DueWaits(s0, s1, Some(s.toCommit[oid]))
    ensures DueWaits(s0, s', None)
  {
    var r := s.toCommit[oid];
    VisitingKeepsDue(s0, s1, s2, region, r);
    StoringKeepsDue(s0, s2, s', region, r);
  }

  /** A turn raises only if an oid that is met does not match, or the cache holds something else. */
  lemma StepCompletes(s0: Db, s: Db, region: set<Ref>, oid: Oid)
    requires Underway(s0, s, region) && KeysApart(s0, region) && CacheFits(s0, region) && MetOidsMatch(s0, region)
    requires oid in s.toCommit
    ensures CommitStep(s, oid).Done?
  {
    var r := s.toCommit[oid];
    if NeedsStore(s.objects[r]) {
      var s1 := s.(toCommit := s.toCommit - {oid});
      TakingKeeps(s0, s, region, oid);
      assert CommitStep(s, oid) == Store(s1, r);
      StoreCompletes(s0, s1, region, r);
    }
  }

  lemma StoreCompletes(s0: Db, s: Db, region: set<Ref>, r: Ref)
    requires Underway(s0, s, region) && KeysApart(s0, region) && CacheFits(s0, region) && MetOidsMatch(s0, region)
    requires r in region && NeedsStore(s.objects[r]) && s.objects[r].oid.Some?
    ensures Store(s, r).Done?
  {
    var refs := s.objects[r].state.refs;
    assert NeedsStore(s0.objects[r]) && RenkuOidsMatch(s0, refs);
    assert RenkuOidsMatch(s, refs);
    VisitAllEffect(s, refs);
    CacheHasRoom(s0, s, region, r);
  }

  lemma CacheHasRoom(s0: Db, s: Db, region: set<Ref>, r: Ref)
    requires Underway(s0, s, region) && KeysApart(s0, region) && CacheFits(s0, region)
    requires r in region && NeedsStore(s0.objects[r]) && NeedsStore(s.objects[r])
    ensures KeyOf(s.objects[r]) in s.cache ==> s.cache[KeyOf(s.objects[r])] == r
  {
  }

  // ---------- Termination ----------

  ghost function Dirty(s: Db): set<Ref> {
    set r: Ref | r < |s.objects| && NeedsStore(s.objects[r])
  }

  ghost predicate NoGhostWaits(s: Db) {
    forall o :: o in s.toCommit && s.toCommit[o] < |s.objects| ==> !s.objects[s.toCommit[o]].status.Ghost?
  }

  /** The pair that gets lexicographically smaller with every turn of the commit loop. */
  ghost predicate Shrinks(s: Db, s': Db) {
    Dirty(s') < Dirty(s) || (Dirty(s') == Dirty(s) && |s'.toCommit| < |s.toCommit|)
  }

  lemma VisitedStaysWellFormed(s: Db, s': Db, refs: seq<Ref>)
    requires WellFormed(s) && NoGhostWaits(s) && Visited(s, s', refs)
    ensures WellFormed(s') && NoGhostWaits(s') && Dirty(s') == Dirty(s)
  {
  }

  lemma StoreShrinks(s: Db, r: Ref)
    requires WellFormed(s) && NoGhostWaits(s) && r < |s.objects| && NeedsStore(s.objects[r])
    requires Store(s, r).Done?
    ensures var s' := Store(s, r).value;
            WellFormed(s') && NoGhostWaits(s') && Dirty(s') < Dirty(s)
  {
    var refs := s.objects[r].state.refs;
    VisitAllEffect(s, refs);
    var s2 := VisitAll(s, refs).value.0;
    VisitedStaysWellFormed(s, s2, refs);
    MarkingCleanShrinks(s2, Store(s, r).value, r);
  }

  lemma MarkingCleanShrinks(s: Db, s': Db, r: Ref)
    requires WellFormed(s) && NoGhostWaits(s) && r < |s.objects| && NeedsStore(s.objects[r]) && s.objects[r].oid.Some?
    requires s'.objects == s.objects[r := s.objects[r].(status := UpToDate, isNew := false)]
    requires s' == s.(objects := s'.objects, storage := s'.storage, cache := s.cache[s.objects[r].oid.value := r])
    ensures WellFormed(s') && NoGhostWaits(s') && Dirty(s') < Dirty(s)
  {
    assert Dirty(s') == Dirty(s) - {r};
    assert r in Dirty(s);
  }

  lemma StepShrinks(s: Db, oid: Oid)
    requires WellFormed(s) && NoGhostWaits(s) && oid in s.toCommit
    requires CommitStep(s, oid).Done?
    ensures var s' := CommitStep(s, oid).value;
            WellFormed(s') && NoGhostWaits(s') && Shrinks(s, s')
  {
    var r := s.toCommit[oid];
    var s1 := s.(toCommit := s.toCommit - {oid});
    assert s1.toCommit.Keys == s.toCommit.Keys - {oid};
    assert Dirty(s1) == Dirty(s);
    if NeedsStore(s.objects[r]) {
      StoreShrinks(s1, r);
    }
  }
}
