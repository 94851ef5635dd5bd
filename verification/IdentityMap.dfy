/**
 The identity map over any run: every table is keyed by oids, and an oid stands for one object exactly
 until a step displaces it.
 */
module IdentityMap {
  import opened Common
  import opened ObjectStore
  import opened Commit

  /** What can happen to a database. A commit is a run of `CommitOne`, one per entry taken. */
  datatype Op =
    | New(made: PObject)             // client code makes an object, with or without an oid
    | Add(r: Ref)                    // `register`
    | Change(r: Ref, state: State)   // an attribute is set: a clean object with a jar registers itself first
    | Fetch(oid: Oid)                // `get`
    | Refer(link: Link)              // a reference inside any record is resolved
    | Load(r: Ref)                   // `setstate` on a ghost
    | CommitOne(oid: Oid)
    | Remove(r: Ref)                 // `remove_from_cache`
    | Reassign(r: Ref, uuid: nat)    // `reassign_oid`, on an object with a jar

  /** Does setting an attribute register the object? */
  predicate Registers(o: PObject) {
    o.jar && o.status.UpToDate?
  }

  function Changing(s: Db, r: Ref, state: State): Db
    requires r < |s.objects|
  {
    if !Registers(s.objects[r]) then s.(objects := s.objects[r := s.objects[r].(state := state)])
    else
      match Register(s, r)
      case Raised => s
      case Done(s1) => s1.(objects := s1.objects[r := s1.objects[r].(status := Changed, state := state)])
  }

  /** The operands exist, a ghost is only loaded, and a turn of a commit does not raise. */
  predicate Possible(s: Db, op: Op) {
    match op
    case New(made) => made.status.UpToDate? && made.isNew && forall c :: c in made.state.refs ==> c < |s.objects|
    case Add(r) => r < |s.objects| && !s.objects[r].status.Ghost?
    case Change(r, state) => r < |s.objects| && !s.objects[r].status.Ghost? && forall c :: c in state.refs ==> c < |s.objects|
    case Fetch(oid) => true
    case Refer(link) => true
    case Load(r) => r < |s.objects| && s.objects[r].status.Ghost?
    case CommitOne(oid) =>
      && oid in s.toCommit && s.toCommit[oid] < |s.objects|
      && (forall c :: c in s.objects[s.toCommit[oid]].state.refs ==> c < |s.objects|)
      && CommitStep(s, oid).Done?
    case Remove(r) => r < |s.objects|
    case Reassign(r, _) => r < |s.objects| && !s.objects[r].status.Ghost? && s.objects[r].jar
  }

  /** The object leaves the caches and gets the oid that it is due by now. */
  function Reassigned(s: Db, r: Ref, uuid: nat): Db
    requires r < |s.objects|
  {
    var unnamed := s.objects[r].(oid := None, uuid := uuid);
    RemoveFromCache(s, r).(objects := s.objects[r := unnamed.(oid := Some(KeyOf(unnamed)))])
  }

  /** What raises changes nothing. */
  function Apply(s: Db, op: Op): Db
    requires Possible(s, op)
  {
    match op
    case New(made) => s.(objects := s.objects + [made])
    case Add(r) => if Register(s, r).Done? then Register(s, r).value else s
    case Change(r, state) => Changing(s, r, state)
    case Fetch(oid) => Get(s, oid).db
    case Refer(link) => Reference(s, link).0
    case Load(r) => if Activate(s, r).Done? then Activate(s, r).value else s
    case CommitOne(oid) => CommitStep(s, oid).value
    case Remove(r) => RemoveFromCache(s, r)
    case Reassign(r, uuid) => Reassigned(s, r, uuid)
  }

  /** What every run keeps. */
  ghost predicate Sound(s: Db) {
    WellFormed(s) && NoGhostWaits(s)
  }

  // ---------- When an oid stops standing for its object ----------

  /** The worklist entry under the oid is all that there is, and the object is another one. */
  predicate Overtakes(s: Db, r: Ref, oid: Oid)
    requires r < |s.objects|
  {
    && OidChecks(s.objects[r]) && KeyOf(s.objects[r]) == oid
    && oid !in s.cache && oid !in s.preCache && oid in s.toCommit && s.toCommit[oid] != r
  }

  /** The last of these objects that the serializer registers under the oid. */
  function LastRegistered(objects: seq<PObject>, refs: seq<Ref>, oid: Oid): Option<Ref>
    requires forall c :: c in refs ==> c < |objects|
    decreases |refs|
  {
    if refs == [] then None else
      assert refs[0] in refs && forall c :: c in refs[1..] ==> c in refs;
      var later := LastRegistered(objects, refs[1..], oid);
      if later.Some? then later
      else if NeedsStore(objects[refs[0]]) && KeyOf(objects[refs[0]]) == oid then Some(refs[0])
      else None
  }

  /**
   A turn of a commit displaces what it takes if it is clean and not cached, or dirty with another object
   in the pre-cache; and any other entry that is overtaken by an object the serializer meets.
   */
  predicate TurnDisplaces(s: Db, taken: Oid, oid: Oid)
    requires taken in s.toCommit && s.toCommit[taken] < |s.objects|
    requires forall c :: c in s.objects[s.toCommit[taken]].state.refs ==> c < |s.objects|
  {
    var r := s.toCommit[taken];
    var dirty := s.objects[r].status.Changed? || s.objects[r].isNew;
    if oid == taken then
      oid !in s.cache && if dirty then oid in s.preCache && s.preCache[oid] != r else oid !in s.preCache
    else
      && dirty && oid !in s.cache && oid !in s.preCache && oid in s.toCommit
      && LastRegistered(s.objects, s.objects[r].state.refs, oid).Some?
      && LastRegistered(s.objects, s.objects[r].state.refs, oid) != Some(s.toCommit[oid])
  }

  predicate Displaces(s: Db, op: Op, oid: Oid)
    requires Possible(s, op)
  {
    match op
    case Add(r) => Overtakes(s, r, oid)
    case Change(r, _) => Registers(s.objects[r]) && Overtakes(s, r, oid)
    case CommitOne(taken) => TurnDisplaces(s, taken, oid)
    case Remove(r) => s.objects[r].oid == Some(oid) && GetCached(s, oid) == Some(r)
    case Reassign(r, _) => s.objects[r].oid == Some(oid) && GetCached(s, oid) == Some(r)
    case _ => false
  }

  /** Nothing that was resolved resolves differently. */
  ghost predicate KeepsIdentities(s: Db, s': Db) {
    forall o :: GetCached(s, o).Some? ==> GetCached(s', o) == GetCached(s, o)
  }

  // ---------- Resolving references ----------

  lemma GhostsAreSound(s: Db, link: Link)
    requires Sound(s) && GetCached(s, link.oid).None?
    ensures Sound(s.(objects := s.objects + [NewGhost(link)], cache := s.cache[link.oid := |s.objects|]))
  {
    AppendingKeepsSound(s, NewGhost(link));
  }

  lemma CachedIsAnObject(s: Db, oid: Oid)
    requires WellFormed(s) && GetCached(s, oid).Some?
    ensures GetCached(s, oid).value < |s.objects|
  {
  }

  lemma ReferenceKeepsSound(s: Db, link: Link)
    requires Sound(s)
    ensures var (s', r) := Reference(s, link);
            && Sound(s') && KeepsIdentities(s, s')
            && GetCached(s', link.oid) == Some(r) && r < |s'.objects|
  {
    if GetCached(s, link.oid).None? {
      GhostsAreSound(s, link);
    } else {
      CachedIsAnObject(s, link.oid);
    }
  }

  lemma ReferenceGrows(s: Db, link: Link)
    ensures var s' := Reference(s, link).0;
            && s.objects <= s'.objects
            && (forall o :: o in s.cache ==> o in s'.cache)
            && (forall o :: o in s'.cache && o !in s.cache ==> o == link.oid)
            && s' == s.(objects := s'.objects, cache := s'.cache)
  {
  }

  lemma {:induction false} ReferenceAllKeepsSound(s: Db, links: seq<Link>)
    requires Sound(s)
    ensures var (s', refs) := ReferenceAll(s, links);
            && Sound(s') && KeepsIdentities(s, s')
            && (forall r :: r in refs ==> r < |s'.objects|)
            && (forall l :: l in links ==> GetCached(s', l.oid).Some?)
    decreases |links|
  {
    if links != [] {
      var (s1, first) := Reference(s, links[0]);
      ReferenceKeepsSound(s, links[0]);
      ReferenceAllKeepsSound(s1, links[1..]);
      ReferenceAllGrows(s1, links[1..]);
      assert forall l :: l in links ==> l == links[0] || l in links[1..];
    }
  }

  lemma {:induction false} ReferenceAllCaches(s: Db, links: seq<Link>)
    ensures var s' := ReferenceAll(s, links).0;
            && s' == s.(objects := s'.objects, cache := s'.cache)
            && (forall o :: o in s.cache ==> o in s'.cache)
            && (forall o :: o in s'.cache && o !in s.cache ==> exists l :: l in links && l.oid == o)
    decreases |links|
  {
    if links != [] {
      var s1 := Reference(s, links[0]).0;
      ReferenceGrows(s, links[0]);
      ReferenceAllCaches(s1, links[1..]);
      assert links[0] in links && forall l :: l in links[1..] ==> l in links;
    }
  }

  // ---------- Changing the list of objects ----------

  /** Replacing an object by one with the same oid that is not a ghost. */
  lemma UpdatingKeepsSound(s: Db, r: Ref, o: PObject)
    requires Sound(s) && r < |s.objects|
    requires o.oid == s.objects[r].oid && !o.status.Ghost? && forall c :: c in o.state.refs ==> c < |s.objects|
    ensures Sound(s.(objects := s.objects[r := o]))
  {
  }

  lemma AppendingKeepsSound(s: Db, made: PObject)
    requires Sound(s) && forall c :: c in made.state.refs ==> c < |s.objects|
    ensures Sound(s.(objects := s.objects + [made]))
  {
  }

  /** What an oid stands for depends on the tables only. */
  lemma TablesDecide(s: Db, s': Db)
    requires s'.cache == s.cache && s'.preCache == s.preCache && s'.toCommit == s.toCommit
    ensures forall x :: GetCached(s', x) == GetCached(s, x)
  {
  }

  // ---------- Registering ----------

  lemma RegisterKeepsSound(s: Db, r: Ref)
    requires Sound(s) && r < |s.objects| && !s.objects[r].status.Ghost?
    ensures Register(s, r).Done? ==> Sound(Register(s, r).value) && Register(s, r).value.root == s.root
  {
  }

  /** Registering an object displaces another exactly when that one waits under the same oid and is not cached. */
  lemma RegisterDisplacesIff(s: Db, r: Ref, oid: Oid)
    requires r < |s.objects| && Register(s, r).Done? && GetCached(s, oid).Some?
    ensures GetCached(Register(s, r).value, oid) != GetCached(s, oid) <==> Overtakes(s, r, oid)
  {
  }

  lemma ChangingKeepsSound(s: Db, r: Ref, state: State)
    requires Sound(s) && Possible(s, Change(r, state))
    ensures Sound(Changing(s, r, state)) && Changing(s, r, state).root == s.root
  {
    if !Registers(s.objects[r]) {
      UpdatingKeepsSound(s, r, s.objects[r].(state := state));
    } else if Register(s, r).Done? {
      RegisterKeepsSound(s, r);
      var s1 := Register(s, r).value;
      UpdatingKeepsSound(s1, r, s1.objects[r].(status := Changed, state := state));
    }
  }

  lemma ChangingDisplacesIff(s: Db, r: Ref, state: State, oid: Oid)
    requires Possible(s, Change(r, state)) && GetCached(s, oid).Some?
    ensures GetCached(Changing(s, r, state), oid) != GetCached(s, oid) <==> Registers(s.objects[r]) && Overtakes(s, r, oid)
  {
    var s' := Changing(s, r, state);
    if !Registers(s.objects[r]) {
      TablesDecide(s, s');
    } else if Register(s, r).Done? {
      RegisterDisplacesIff(s, r, oid);
      TablesDecide(Register(s, r).value, s');
    }
  }

  // ---------- Loading ----------

  /** An object goes into the cache under an oid that stood for nothing. */
  lemma CachingLoaded(s: Db, s': Db, oid: Oid, made: PObject)
    requires Sound(s) && made.oid == Some(oid) && forall c :: c in made.state.refs ==> c < |s.objects|
    requires GetCached(s, oid).None?
    requires s' == s.(objects := s.objects + [made], cache := s.cache[oid := |s.objects|])
    ensures Sound(s') && KeepsIdentities(s, s')
  {
    AppendingKeepsSound(s, made);
  }

  /** An object whose record refers to itself is left in the pre-cache, behind the ghost that took its place. */
  lemma LeavingInPreCache(s: Db, s': Db, oid: Oid, made: PObject)
    requires Sound(s) && made.oid == Some(oid) && forall c :: c in made.state.refs ==> c < |s.objects|
    requires oid in s.cache
    requires s' == s.(objects := s.objects + [made], preCache := s.preCache[oid := |s.objects|])
    ensures Sound(s') && KeepsIdentities(s, s')
  {
    assert Keyed(s'.objects, s'.preCache);
    assert RefsInRange(s'.objects);
    assert NoGhostWaits(s');
  }

  lemma FetchKeepsSound(s: Db, oid: Oid)
    requires Sound(s)
    ensures Sound(Get(s, oid).db) && KeepsIdentities(s, Get(s, oid).db) && Get(s, oid).db.root == s.root
  {
    if !(oid != ROOT && oid in s.root) && GetCached(s, oid).None? && oid in s.storage {
      var rec := s.storage[oid];
      var (s1, refs) := ReferenceAll(s, rec.links);
      ReferenceAllKeepsSound(s, rec.links);
      ReferenceAllGrows(s, rec.links);
      var made := PObject(rec.cls, 0, Some(oid), true, UpToDate, false, State(rec.id, rec.payload, refs));
      if oid in s1.cache {
        LeavingInPreCache(s1, Get(s, oid).db, oid, made);
      } else {
        CachingLoaded(s1, Get(s, oid).db, oid, made);
      }
    }
  }

  lemma LoadKeepsSound(s: Db, r: Ref)
    requires Sound(s) && r < |s.objects|
    ensures Activate(s, r).Done? ==>
              var s' := Activate(s, r).value; Sound(s') && KeepsIdentities(s, s') && s'.root == s.root
  {
    if Activate(s, r).Done? {
      var rec := s.storage[s.objects[r].oid.value];
      var (s1, refs) := ReferenceAll(s, rec.links);
      ReferenceAllKeepsSound(s, rec.links);
      ReferenceAllGrows(s, rec.links);
      UpdatingKeepsSound(s1, r, s.objects[r].(status := UpToDate, isNew := false, state := State(rec.id, rec.payload, refs)));
      TablesDecide(s1, Activate(s, r).value);
    }
  }

  // ---------- Removing ----------

  lemma WithoutStaysKeyed(objects: seq<PObject>, table: map<Oid, Ref>, oid: Oid, r: Ref)
    requires Keyed(objects, table)
    ensures Keyed(objects, Without(table, oid, r))
    ensures forall o :: o in Without(table, oid, r) ==> o in table && Without(table, oid, r)[o] == table[o]
  {
  }

  lemma RemoveKeepsSound(s: Db, r: Ref)
    requires Sound(s) && r < |s.objects|
    ensures Sound(RemoveFromCache(s, r))
  {
    if s.objects[r].oid.Some? {
      var oid := s.objects[r].oid.value;
      WithoutStaysKeyed(s.objects, s.cache, oid, r);
      WithoutStaysKeyed(s.objects, s.preCache, oid, r);
      WithoutStaysKeyed(s.objects, s.toCommit, oid, r);
    }
  }

  lemma RemoveDisplacesIff(s: Db, r: Ref, oid: Oid)
    requires r < |s.objects| && GetCached(s, oid).Some?
    ensures GetCached(RemoveFromCache(s, r), oid) != GetCached(s, oid) <==>
            s.objects[r].oid == Some(oid) && GetCached(s, oid) == Some(r)
  {
  }

  lemma WithoutHasNoOther(objects: seq<PObject>, table: map<Oid, Ref>, oid: Oid, r: Ref)
    requires Keyed(objects, table) && r < |objects| && objects[r].oid == Some(oid)
    ensures forall o :: o in Without(table, oid, r) ==> Without(table, oid, r)[o] != r
  {
  }

  /** A table that does not hold the object stays keyed when its oid changes. */
  lemma RenamingStaysKeyed(objects: seq<PObject>, table: map<Oid, Ref>, r: Ref, o: PObject)
    requires Keyed(objects, table) && r < |objects| && forall x :: x in table ==> table[x] != r
    ensures Keyed(objects[r := o], table)
  {
  }

  lemma RemovedIsInNoTable(s: Db, r: Ref)
    requires Sound(s) && r < |s.objects|
    ensures var s' := RemoveFromCache(s, r);
            && (forall x :: x in s'.cache ==> s'.cache[x] != r) && (forall x :: x in s'.preCache ==> s'.preCache[x] != r)
            && (forall x :: x in s'.toCommit ==> s'.toCommit[x] != r)
  {
    if s.objects[r].oid.Some? {
      var oid := s.objects[r].oid.value;
      WithoutHasNoOther(s.objects, s.cache, oid, r);
      WithoutHasNoOther(s.objects, s.preCache, oid, r);
      WithoutHasNoOther(s.objects, s.toCommit, oid, r);
    }
  }

  lemma ReassignKeepsSound(s: Db, r: Ref, uuid: nat)
    requires Sound(s) && r < |s.objects|
    ensures Sound(Reassigned(s, r, uuid)) && Reassigned(s, r, uuid).root == s.root
  {
    var s1, s' := RemoveFromCache(s, r), Reassigned(s, r, uuid);
    RemoveKeepsSound(s, r);
    RemovedIsInNoTable(s, r);
    RenamingStaysKeyed(s.objects, s1.cache, r, s'.objects[r]);
    RenamingStaysKeyed(s.objects, s1.preCache, r, s'.objects[r]);
    RenamingStaysKeyed(s.objects, s1.toCommit, r, s'.objects[r]);
  }

  // ---------- One turn of a commit ----------

  lemma VisitRegisters(s: Db, c: Ref, oid: Oid)
    requires c < |s.objects| && Visit(s, c).Done?
    ensures var s' := Visit(s, c).value;
            var registered := NeedsStore(s.objects[c]) && KeyOf(s.objects[c]) == oid;
            && (oid in s'.toCommit <==> registered || oid in s.toCommit)
            && (oid in s'.toCommit ==> s'.toCommit[oid] == if registered then c else s.toCommit[oid])
  {
  }

  /** The worklist after objects were met: the last one registered under an oid is what waits there. */
  lemma {:induction false} VisitAllRegisters(s: Db, refs: seq<Ref>, oid: Oid)
    requires (forall c :: c in refs ==> c < |s.objects|) && VisitAll(s, refs).Done?
    ensures var s' := VisitAll(s, refs).value.0;
            var last := LastRegistered(s.objects, refs, oid);
            && (oid in s'.toCommit <==> last.Some? || oid in s.toCommit)
            && (oid in s'.toCommit ==> s'.toCommit[oid] == if last.Some? then last.value else s.toCommit[oid])
    decreases |refs|
  {
    if refs != [] {
      assert refs[0] in refs && forall c :: c in refs[1..] ==> c in refs;
      var s1 := Visit(s, refs[0]).value;
      VisitEffect(s, refs[0]);
      VisitRegisters(s, refs[0], oid);
      SameLastRegistered(s, s1, refs[1..], oid);
      VisitAllRegisters(s1, refs[1..], oid);
    }
  }

  lemma {:induction false} SameLastRegistered(s: Db, s1: Db, refs: seq<Ref>, oid: Oid)
    requires SameIdentities(s, s1) && forall c :: c in refs ==> c < |s.objects|
    requires forall r :: 0 <= r < |s.objects| ==> s1.objects[r].status == s.objects[r].status && s1.objects[r].isNew == s.objects[r].isNew
    ensures LastRegistered(s1.objects, refs, oid) == LastRegistered(s.objects, refs, oid)
    decreases |refs|
  {
    if refs != [] {
      assert refs[0] in refs && forall c :: c in refs[1..] ==> c in refs;
      SameLastRegistered(s, s1, refs[1..], oid);
    }
  }

  /** After the record is written, the object is cached, and the worklist holds what was met. */
  lemma StoreTables(s: Db, r: Ref, oid: Oid)
    requires r < |s.objects| && (forall c :: c in s.objects[r].state.refs ==> c < |s.objects|) && Store(s, r).Done?
    requires s.objects[r].oid == Some(oid)
    ensures var s1, s' := VisitAll(s, s.objects[r].state.refs).value.0, Store(s, r).value;
            && VisitAll(s, s.objects[r].state.refs).Done?
            && s'.cache == s.cache[oid := r] && s'.preCache == s.preCache && s'.toCommit == s1.toCommit && s'.root == s.root
    ensures oid in s.cache ==> s.cache[oid] == r
  {
    VisitAllEffect(s, s.objects[r].state.refs);
  }

  lemma CleanTurnDisplacesIff(s: Db, taken: Oid, oid: Oid)
    requires Possible(s, CommitOne(taken)) && GetCached(s, oid).Some?
    requires !s.objects[s.toCommit[taken]].status.Changed? && !s.objects[s.toCommit[taken]].isNew
    ensures GetCached(CommitStep(s, taken).value, oid) != GetCached(s, oid) <==> TurnDisplaces(s, taken, oid)
  {
  }

  lemma DirtyTurnDisplacesIff(s: Db, taken: Oid, oid: Oid)
    requires Sound(s) && Possible(s, CommitOne(taken)) && GetCached(s, oid).Some?
    requires s.objects[s.toCommit[taken]].status.Changed? || s.objects[s.toCommit[taken]].isNew
    ensures GetCached(CommitStep(s, taken).value, oid) != GetCached(s, oid) <==> TurnDisplaces(s, taken, oid)
  {
    var r := s.toCommit[taken];
    var s1 := s.(toCommit := s.toCommit - {taken});
    assert CommitStep(s, taken) == Store(s1, r);
    StoreTables(s1, r, taken);
    VisitAllRegisters(s1, s.objects[r].state.refs, oid);
  }

  lemma TurnKeepsSound(s: Db, taken: Oid)
    requires Sound(s) && Possible(s, CommitOne(taken))
    ensures Sound(CommitStep(s, taken).value) && CommitStep(s, taken).value.root == s.root
  {
    StepShrinks(s, taken);
    var r := s.toCommit[taken];
    if s.objects[r].status.Changed? || s.objects[r].isNew {
      StoreTables(s.(toCommit := s.toCommit - {taken}), r, taken);
    }
  }

  // ---------- Runs ----------

  lemma StepKeepsSound(s: Db, op: Op)
    requires Sound(s) && Possible(s, op)
    ensures Sound(Apply(s, op)) && Apply(s, op).root == s.root
  {
    match op
    case New(made) => AppendingKeepsSound(s, made);
    case Add(r) => RegisterKeepsSound(s, r);
    case Change(r, state) => ChangingKeepsSound(s, r, state);
    case Fetch(oid) => FetchKeepsSound(s, oid);
    case Refer(link) => ReferenceKeepsSound(s, link);
    case Load(r) => LoadKeepsSound(s, r);
    case CommitOne(oid) => TurnKeepsSound(s, oid);
    case Remove(r) => RemoveKeepsSound(s, r);
    case Reassign(r, uuid) => ReassignKeepsSound(s, r, uuid);
  }

  /** After any step, an oid that stood for an object still does exactly if the step does not displace it. */
  lemma StepKeepsIdentityIff(s: Db, op: Op, oid: Oid)
    requires Sound(s) && Possible(s, op) && GetCached(s, oid).Some?
    ensures GetCached(Apply(s, op), oid) == GetCached(s, oid) <==> !Displaces(s, op, oid)
  {
    match op
    case New(made) => TablesDecide(s, Apply(s, op));
    case Add(r) => if Register(s, r).Done? { RegisterDisplacesIff(s, r, oid); }
    case Change(r, state) => ChangingDisplacesIff(s, r, state, oid);
    case Fetch(o) => FetchKeepsSound(s, o);
    case Refer(link) => ReferenceKeepsSound(s, link);
    case Load(r) => LoadKeepsSound(s, r);
    case CommitOne(taken) =>
      if s.objects[s.toCommit[taken]].status.Changed? || s.objects[s.toCommit[taken]].isNew {
        DirtyTurnDisplacesIff(s, taken, oid);
      } else {
        CleanTurnDisplacesIff(s, taken, oid);
      }
    case Remove(r) => RemoveDisplacesIff(s, r, oid);
    case Reassign(r, uuid) =>
      RemoveDisplacesIff(s, r, oid);
      TablesDecide(RemoveFromCache(s, r), Apply(s, op));
  }

  predicate PossibleRun(s: Db, ops: seq<Op>)
    decreases |ops|
  {
    ops == [] || (Possible(s, ops[0]) && PossibleRun(Apply(s, ops[0]), ops[1..]))
  }

  function Run(s: Db, ops: seq<Op>): Db
    requires PossibleRun(s, ops)
    decreases |ops|
  {
    if ops == [] then s else Run(Apply(s, ops[0]), ops[1..])
  }

  /** No step of the run displaces what the oid stands for. */
  predicate NeverDisplaced(s: Db, ops: seq<Op>, oid: Oid)
    requires PossibleRun(s, ops)
    decreases |ops|
  {
    ops == [] || (!Displaces(s, ops[0], oid) && NeverDisplaced(Apply(s, ops[0]), ops[1..], oid))
  }

  /** At every point of the run the oid stands for this object. */
  ghost predicate StandsFor(s: Db, ops: seq<Op>, oid: Oid, r: Ref)
    requires PossibleRun(s, ops)
    decreases |ops|
  {
    GetCached(s, oid) == Some(r) && (ops == [] || StandsFor(Apply(s, ops[0]), ops[1..], oid, r))
  }

  /** Every run keeps all tables keyed by oids, whatever clients register or change. */
  lemma {:induction false} RunKeepsSound(s: Db, ops: seq<Op>)
    requires Sound(s) && PossibleRun(s, ops)
    ensures Sound(Run(s, ops)) && Run(s, ops).root == s.root
    decreases |ops|
  {
    if ops != [] {
      StepKeepsSound(s, ops[0]);
      RunKeepsSound(Apply(s, ops[0]), ops[1..]);
    }
  }

  /** An oid stands for one object all through a run exactly if no step displaces it. */
  lemma {:induction false} RunKeepsIdentityIff(s: Db, ops: seq<Op>, oid: Oid, r: Ref)
    requires Sound(s) && PossibleRun(s, ops) && GetCached(s, oid) == Some(r)
    ensures StandsFor(s, ops, oid, r) <==> NeverDisplaced(s, ops, oid)
    decreases |ops|
  {
    if ops != [] {
      StepKeepsSound(s, ops[0]);
      StepKeepsIdentityIff(s, ops[0], oid);
      if GetCached(Apply(s, ops[0]), oid) == Some(r) {
        RunKeepsIdentityIff(Apply(s, ops[0]), ops[1..], oid, r);
      } else {
        assert !StandsFor(Apply(s, ops[0]), ops[1..], oid, r);
      }
    }
  }

  lemma {:induction false} StandsForAtEnd(s: Db, ops: seq<Op>, oid: Oid, r: Ref)
    requires PossibleRun(s, ops) && StandsFor(s, ops, oid, r)
    ensures GetCached(Run(s, ops), oid) == Some(r)
    decreases |ops|
  {
    if ops != [] {
      StandsForAtEnd(Apply(s, ops[0]), ops[1..], oid, r);
    }
  }

  // ---------- Resolving an oid twice ----------

  /** The object that resolving an oid gives, by `get` or by a reference in a record. */
  function Resolution(s: Db, op: Op): Option<Ref>
    requires op.Fetch? || op.Refer?
  {
    if op.Fetch? then Get(s, op.oid).found else Some(Reference(s, op.link).1)
  }

  function ResolvedOid(op: Op): Oid
    requires op.Fetch? || op.Refer?
  {
    if op.Fetch? then op.oid else op.link.oid
  }

  lemma ResolutionIsRemembered(s: Db, op: Op)
    requires Sound(s) && (op.Fetch? || op.Refer?) && Resolution(s, op).Some?
    requires op.Fetch? ==> op.oid !in s.root
    ensures GetCached(Apply(s, op), ResolvedOid(op)) == Resolution(s, op)
  {
    if op.Refer? {
      ReferenceKeepsSound(s, op.link);
    }
  }

  /**
   Two resolutions of one oid, however they come about, give the same object if no step in between
   displaces it. Only an oid that is also a key of the root, looked up by `get`, has to be left out.
   */
  lemma OneOidOneObject(s: Db, first: Op, between: seq<Op>, second: Op)
    requires Sound(s)
    requires (first.Fetch? || first.Refer?) && (second.Fetch? || second.Refer?)
    requires ResolvedOid(first) == ResolvedOid(second)
    requires (first.Fetch? || second.Fetch?) ==> ResolvedOid(first) !in s.root
    requires Resolution(s, first).Some?
    requires PossibleRun(Apply(s, first), between) && NeverDisplaced(Apply(s, first), between, ResolvedOid(first))
    ensures Resolution(Run(Apply(s, first), between), second) == Resolution(s, first)
  {
    var oid := ResolvedOid(first);
    var s1 := Apply(s, first);
    var r := Resolution(s, first).value;
    ResolutionIsRemembered(s, first);
    StepKeepsSound(s, first);
    RunKeepsIdentityIff(s1, between, oid, r);
    StandsForAtEnd(s1, between, oid, r);
    RunKeepsSound(s1, between);
  }

  /** `get` fails exactly when there is nothing to be found, or the record to load refers to itself. */
  lemma FetchFailsIff(s: Db, oid: Oid)
    requires Sound(s)
    ensures Get(s, oid).found.None? <==>
            && (oid == ROOT || oid !in s.root) && GetCached(s, oid).None?
            && (oid !in s.storage || exists l :: l in s.storage[oid].links && l.oid == oid)
  {
    if oid in s.storage {
      var links := s.storage[oid].links;
      ReferenceAllKeepsSound(s, links);
      ReferenceAllCaches(s, links);
    }
  }

  /** For a key of the root, `get` gives the root's entry and a reference what is cached; a run that does not displace that changes neither. */
  lemma RootKeysStayAgreed(s: Db, ops: seq<Op>, link: Link, r: Ref)
    requires Sound(s) && PossibleRun(s, ops) && NeverDisplaced(s, ops, link.oid)
    requires link.oid in s.root && GetCached(s, link.oid) == Some(r)
    ensures Resolution(Run(s, ops), Fetch(link.oid)) == Resolution(Run(s, ops), Refer(link)) <==> s.root[link.oid] == r
  {
    RunKeepsIdentityIff(s, ops, link.oid, r);
    StandsForAtEnd(s, ops, link.oid, r);
    RunKeepsSound(s, ops);
  }

  // ---------- A turn that forgets an object ----------

  /** A turn on a clean entry keeps every identity exactly if the entry's oid is cached. */
  lemma CleanTurnKeepsIff(s: Db, oid: Oid)
    requires Sound(s) && oid in s.toCommit && !NeedsStore(s.objects[s.toCommit[oid]])
    ensures CommitStep(s, oid).Done?
    ensures KeepsIdentities(s, CommitStep(s, oid).value) <==> oid in s.cache || oid in s.preCache
  {
    var s' := CommitStep(s, oid).value;
    if oid !in s.cache && oid !in s.preCache {
      assert GetCached(s, oid).Some? && GetCached(s', oid).None?;
    }
  }

  /** If it is not, the next `get` loads a second object for the oid, though nothing was removed. */
  lemma CleanUncachedIsLoadedTwice(s: Db, oid: Oid)
    requires Sound(s) && oid in s.toCommit && !NeedsStore(s.objects[s.toCommit[oid]])
    requires oid !in s.root && oid !in s.cache && oid !in s.preCache
    requires oid in s.storage && forall l :: l in s.storage[oid].links ==> l.oid != oid
    ensures Possible(s, CommitOne(oid))
    ensures Get(s, oid) == Got(s, Some(s.toCommit[oid]))
    ensures var again := Get(Apply(s, CommitOne(oid)), oid).found;
            again.Some? && again.value >= |s.objects| > s.toCommit[oid]
  {
    var s' := Apply(s, CommitOne(oid));
    TurnKeepsSound(s, oid);
    FetchFailsIff(s', oid);
    ReferenceAllGrows(s', s'.storage[oid].links);
  }

  const STORED_OID := Hash("a")
  const STORED_RECORD := Record(Class("Plan", true), "a", 0, [])

  /** An object that was loaded, dropped from the caches, and then registered again without a change. */
  const READDED :=
    Db([PObject(Class("Plan", true), 0, Some(STORED_OID), true, UpToDate, false, State("a", 0, []))],
       map[STORED_OID := STORED_RECORD], map[], map[], map[], map[STORED_OID := 0])

  lemma ReaddedIsLoadedTwice()
    ensures Sound(READDED) && PossibleRun(READDED, [CommitOne(STORED_OID)])
    ensures Resolution(READDED, Fetch(STORED_OID)) == Some(0)
    ensures Resolution(Run(READDED, [CommitOne(STORED_OID)]), Fetch(STORED_OID)) == Some(1)
  {
    var ops := [CommitOne(STORED_OID)];
    CleanUncachedIsLoadedTwice(READDED, STORED_OID);
    assert ops[1..] == [];
    assert Run(READDED, ops) == READDED.(toCommit := map[]);
  }

  /** The store alone: nothing is loaded yet. */
  const STORED := Db([], map[STORED_OID := STORED_RECORD], map[], map[], map[], map[])

  /** It is reached by loading the object, dropping it from the caches, and registering it again. */
  lemma ReaddedIsReached(ops: seq<Op>)
    requires ops == [Fetch(STORED_OID), Remove(0), Add(0)]
    ensures PossibleRun(STORED, ops) && Run(STORED, ops) == READDED
  {
    var loaded := STORED.(objects := READDED.objects, cache := map[STORED_OID := 0]);
    var dropped := STORED.(objects := READDED.objects);
    assert ReferenceAll(STORED, []) == (STORED, []);
    assert [] + READDED.objects == READDED.objects;
    assert Get(STORED, STORED_OID) == Got(loaded, Some(0));
    assert loaded.cache - {STORED_OID} == map[];
    assert Apply(loaded, Remove(0)) == dropped;
    assert dropped.objects[0 := READDED.objects[0]] == READDED.objects;
    assert Apply(dropped, Add(0)) == READDED;
    RunOne(dropped, Add(0));
    RunNext(loaded, Remove(0), [Add(0)]);
    RunNext(STORED, Fetch(STORED_OID), [Remove(0), Add(0)]);
    assert [Remove(0)] + [Add(0)] == [Remove(0), Add(0)];
    assert [Fetch(STORED_OID)] + [Remove(0), Add(0)] == ops;
  }

  lemma RunOne(s: Db, op: Op)
    requires Possible(s, op)
    ensures PossibleRun(s, [op]) && Run(s, [op]) == Apply(s, op)
  {
    assert [op][1..] == [];
  }

  lemma RunNext(s: Db, op: Op, ops: seq<Op>)
    requires Possible(s, op) && PossibleRun(Apply(s, op), ops)
    ensures PossibleRun(s, [op] + ops) && Run(s, [op] + ops) == Run(Apply(s, op), ops)
  {
    assert ([op] + ops)[1..] == ops;
  }
}
