/** A rule for clients under which no oid ever stops standing for its object, other than by being removed. */
module Discipline {
  import opened Common
  import opened ObjectStore
  import opened Commit
  import opened IdentityMap

  /** The oid the object has or will get stands for nothing else. */
  predicate Claims(s: Db, r: Ref)
    requires r < |s.objects|
  {
    var known := GetCached(s, KeyOf(s.objects[r]));
    known.None? || known == Some(r)
  }

  /**
   An object is registered only under an oid that stands for nothing else, and only if it has to be
   stored or is cached already; and what a commit meets claims its oid.
   */
  predicate Disciplined(s: Db, op: Op)
    requires Possible(s, op)
  {
    match op
    case Add(r) => Claims(s, r) && (NeedsStore(s.objects[r]) || KeyOf(s.objects[r]) in s.cache)
    case Change(r, _) => Registers(s.objects[r]) ==> Claims(s, r)
    case CommitOne(oid) => forall c :: c in s.objects[s.toCommit[oid]].state.refs && NeedsStore(s.objects[c]) ==> Claims(s, c)
    case _ => true
  }

  /** The three tables do not contradict each other, and what waits has to be stored or is cached. */
  ghost predicate Agreeing(s: Db) {
    && (forall o :: o in s.toCommit ==> s.toCommit[o] < |s.objects| && GetCached(s, o) == Some(s.toCommit[o]))
    && (forall o :: o in s.toCommit ==> NeedsStore(s.objects[s.toCommit[o]]) || o in s.cache)
  }

  lemma {:induction false} LastRegisteredIsMet(objects: seq<PObject>, refs: seq<Ref>, oid: Oid)
    requires forall c :: c in refs ==> c < |objects|
    ensures var last := LastRegistered(objects, refs, oid);
            last.Some? ==> last.value in refs && NeedsStore(objects[last.value]) && KeyOf(objects[last.value]) == oid
    decreases |refs|
  {
    if refs != [] {
      assert refs[0] in refs && forall c :: c in refs[1..] ==> c in refs;
      LastRegisteredIsMet(objects, refs[1..], oid);
    }
  }

  predicate IsRemoval(op: Op) {
    op.Remove? || op.Reassign?
  }

  /** A disciplined step other than a removal displaces nothing. */
  lemma DisciplineDisplacesNothing(s: Db, op: Op, oid: Oid)
    requires Sound(s) && Agreeing(s) && Possible(s, op) && Disciplined(s, op) && !IsRemoval(op)
    ensures !Displaces(s, op, oid)
  {
    if op.CommitOne? {
      LastRegisteredIsMet(s.objects, s.objects[s.toCommit[op.oid]].state.refs, oid);
    }
  }

  // ---------- The tables stay in agreement ----------

  /** What waits is what waited, with the same status. */
  lemma SameWorklistAgrees(s: Db, s': Db)
    requires Agreeing(s) && KeepsIdentities(s, s') && s'.toCommit == s.toCommit && |s.objects| <= |s'.objects|
    requires forall o :: o in s.toCommit ==>
               var r := s.toCommit[o]; s'.objects[r].status == s.objects[r].status && s'.objects[r].isNew == s.objects[r].isNew
    requires forall o :: o in s.cache ==> o in s'.cache
    ensures Agreeing(s')
  {
  }

  lemma FetchGrows(s: Db, oid: Oid)
    ensures var s' := Get(s, oid).db;
            s.objects <= s'.objects && s'.toCommit == s.toCommit && forall o :: o in s.cache ==> o in s'.cache
  {
    if oid in s.storage {
      ReferenceAllCaches(s, s.storage[oid].links);
      ReferenceAllGrows(s, s.storage[oid].links);
    }
  }

  lemma FetchAgrees(s: Db, oid: Oid)
    requires Sound(s) && Agreeing(s)
    ensures Agreeing(Get(s, oid).db)
  {
    FetchKeepsSound(s, oid);
    FetchGrows(s, oid);
    SameWorklistAgrees(s, Get(s, oid).db);
  }

  lemma LoadAgrees(s: Db, r: Ref)
    requires Sound(s) && Agreeing(s) && r < |s.objects| && s.objects[r].status.Ghost? && Activate(s, r).Done?
    ensures Agreeing(Activate(s, r).value)
  {
    LoadKeepsSound(s, r);
    var links := s.storage[s.objects[r].oid.value].links;
    ReferenceAllCaches(s, links);
    ReferenceAllGrows(s, links);
    SameWorklistAgrees(s, Activate(s, r).value);
  }

  /** Like `Agreeing`, but the object that was just registered need not have to be stored. */
  ghost predicate AgreeingBut(s: Db, r: Ref) {
    && (forall o :: o in s.toCommit ==> s.toCommit[o] < |s.objects| && GetCached(s, o) == Some(s.toCommit[o]))
    && (forall o :: o in s.toCommit && s.toCommit[o] != r ==> NeedsStore(s.objects[s.toCommit[o]]) || o in s.cache)
  }

  lemma RegisterAgrees(s: Db, r: Ref)
    requires WellFormed(s) && Agreeing(s) && r < |s.objects| && Register(s, r).Done? && Claims(s, r)
    ensures AgreeingBut(Register(s, r).value, r)
    ensures NeedsStore(s.objects[r]) || KeyOf(s.objects[r]) in s.cache ==> Agreeing(Register(s, r).value)
  {
  }

  lemma TurningChangedAgrees(s: Db, r: Ref, o: PObject)
    requires AgreeingBut(s, r) && r < |s.objects| && NeedsStore(o)
    ensures Agreeing(s.(objects := s.objects[r := o]))
  {
    TablesDecide(s, s.(objects := s.objects[r := o]));
  }

  lemma SameStatusAgrees(s: Db, r: Ref, state: State)
    requires Agreeing(s) && r < |s.objects|
    ensures Agreeing(s.(objects := s.objects[r := s.objects[r].(state := state)]))
  {
    var s' := s.(objects := s.objects[r := s.objects[r].(state := state)]);
    TablesDecide(s, s');
    SameWorklistAgrees(s, s');
  }

  lemma ChangingAgrees(s: Db, r: Ref, state: State)
    requires Sound(s) && Agreeing(s) && Possible(s, Change(r, state)) && Disciplined(s, Change(r, state))
    ensures Agreeing(Changing(s, r, state))
  {
    if !Registers(s.objects[r]) {
      SameStatusAgrees(s, r, state);
    } else if Register(s, r).Done? {
      RegisterAgrees(s, r);
      var s1 := Register(s, r).value;
      TurningChangedAgrees(s1, r, s1.objects[r].(status := Changed, state := state));
    }
  }

  lemma EntryAfterRemoving(s: Db, r: Ref, o: Oid)
    requires Agreeing(s) && r < |s.objects| && o in RemoveFromCache(s, r).toCommit
    ensures var s' := RemoveFromCache(s, r);
            && o in s.toCommit && s'.toCommit[o] == s.toCommit[o] && GetCached(s', o) == Some(s'.toCommit[o])
            && (o in s.cache ==> o in s'.cache)
  {
    RemoveDisplacesIff(s, r, o);
  }

  lemma RemoveAgrees(s: Db, r: Ref)
    requires Agreeing(s) && r < |s.objects|
    ensures Agreeing(RemoveFromCache(s, r))
  {
    forall o | o in RemoveFromCache(s, r).toCommit
      ensures var s' := RemoveFromCache(s, r);
              && o in s.toCommit && s'.toCommit[o] == s.toCommit[o] && GetCached(s', o) == Some(s'.toCommit[o])
              && (o in s.cache ==> o in s'.cache)
    {
      EntryAfterRemoving(s, r, o);
    }
  }

  lemma ReassignAgrees(s: Db, r: Ref, uuid: nat)
    requires Sound(s) && Agreeing(s) && r < |s.objects|
    ensures Agreeing(Reassigned(s, r, uuid))
  {
    RemoveAgrees(s, r);
    RemovedIsInNoTable(s, r);
    TablesDecide(RemoveFromCache(s, r), Reassigned(s, r, uuid));
  }

  /** What waits after a dirty entry was stored was met, or waited before. */
  lemma WaitsAfterStoring(s: Db, taken: Oid, o: Oid)
    requires Sound(s) && Possible(s, CommitOne(taken)) && NeedsStore(s.objects[s.toCommit[taken]])
    requires o in CommitStep(s, taken).value.toCommit
    ensures var s' := CommitStep(s, taken).value;
            var r := s.toCommit[taken];
            var c := s'.toCommit[o];
            && s'.cache == s.cache[taken := r] && s'.preCache == s.preCache
            && (|| (o != taken && o in s.toCommit && c == s.toCommit[o])
                || (c in s.objects[r].state.refs && NeedsStore(s.objects[c]) && KeyOf(s.objects[c]) == o))
  {
    var r := s.toCommit[taken];
    var s1 := s.(toCommit := s.toCommit - {taken});
    assert CommitStep(s, taken) == Store(s1, r);
    StoreTables(s1, r, taken);
    VisitAllRegisters(s1, s.objects[r].state.refs, o);
    LastRegisteredIsMet(s.objects, s.objects[r].state.refs, o);
  }

  /** Storing an object leaves the status of every other one. */
  lemma OthersAfterStoring(s: Db, taken: Oid, c: Ref)
    requires Sound(s) && Possible(s, CommitOne(taken)) && NeedsStore(s.objects[s.toCommit[taken]])
    requires c < |s.objects| && c != s.toCommit[taken] && NeedsStore(s.objects[c])
    ensures c < |CommitStep(s, taken).value.objects| && NeedsStore(CommitStep(s, taken).value.objects[c])
  {
    var r := s.toCommit[taken];
    var s1 := s.(toCommit := s.toCommit - {taken});
    assert CommitStep(s, taken) == Store(s1, r);
    VisitAllEffect(s1, s.objects[r].state.refs);
  }

  lemma EntryAfterStoring(s: Db, taken: Oid, o: Oid)
    requires Sound(s) && Agreeing(s) && Possible(s, CommitOne(taken)) && Disciplined(s, CommitOne(taken))
    requires NeedsStore(s.objects[s.toCommit[taken]])
    requires o in CommitStep(s, taken).value.toCommit
    ensures var s' := CommitStep(s, taken).value;
            && s'.toCommit[o] < |s'.objects| && GetCached(s', o) == Some(s'.toCommit[o])
            && (NeedsStore(s'.objects[s'.toCommit[o]]) || o in s'.cache)
  {
    WaitsAfterStoring(s, taken, o);
    TurnKeepsSound(s, taken);
    var c := CommitStep(s, taken).value.toCommit[o];
    if GetCached(s, o).Some? {
      DisciplineDisplacesNothing(s, CommitOne(taken), o);
      StepKeepsIdentityIff(s, CommitOne(taken), o);
    }
    if o != taken && NeedsStore(s.objects[c]) {
      OthersAfterStoring(s, taken, c);
    }
  }

  lemma TurnAgrees(s: Db, taken: Oid)
    requires Sound(s) && Agreeing(s) && Possible(s, CommitOne(taken)) && Disciplined(s, CommitOne(taken))
    ensures Agreeing(CommitStep(s, taken).value)
  {
    var s' := CommitStep(s, taken).value;
    if NeedsStore(s.objects[s.toCommit[taken]]) {
      forall o | o in s'.toCommit
        ensures s'.toCommit[o] < |s'.objects| && GetCached(s', o) == Some(s'.toCommit[o])
        ensures NeedsStore(s'.objects[s'.toCommit[o]]) || o in s'.cache
      {
        EntryAfterStoring(s, taken, o);
      }
    }
  }

  lemma MakingAgrees(s: Db, made: PObject)
    requires Agreeing(s)
    ensures Agreeing(s.(objects := s.objects + [made]))
  {
    TablesDecide(s, s.(objects := s.objects + [made]));
  }

  lemma ReferringAgrees(s: Db, link: Link)
    requires Sound(s) && Agreeing(s)
    ensures Agreeing(Reference(s, link).0)
  {
    ReferenceKeepsSound(s, link);
    ReferenceGrows(s, link);
    SameWorklistAgrees(s, Reference(s, link).0);
  }

  lemma AddingAgrees(s: Db, r: Ref)
    requires Sound(s) && Agreeing(s) && Possible(s, Add(r)) && Disciplined(s, Add(r))
    ensures Agreeing(Apply(s, Add(r)))
  {
    if Register(s, r).Done? {
      RegisterAgrees(s, r);
    }
  }

  lemma StepKeepsAgreement(s: Db, op: Op)
    requires Sound(s) && Agreeing(s) && Possible(s, op) && Disciplined(s, op)
    ensures Agreeing(Apply(s, op))
  {
    match op
    case New(made) => MakingAgrees(s, made);
    case Add(r) => AddingAgrees(s, r);
    case Change(r, state) => ChangingAgrees(s, r, state);
    case Fetch(oid) => FetchAgrees(s, oid);
    case Refer(link) => ReferringAgrees(s, link);
    case Load(r) => if Activate(s, r).Done? { LoadAgrees(s, r); }
    case CommitOne(oid) => TurnAgrees(s, oid);
    case Remove(r) => RemoveAgrees(s, r);
    case Reassign(r, uuid) => ReassignAgrees(s, r, uuid);
  }

  // ---------- Runs ----------

  predicate DisciplinedRun(s: Db, ops: seq<Op>)
    requires PossibleRun(s, ops)
    decreases |ops|
  {
    ops == [] || (Disciplined(s, ops[0]) && DisciplinedRun(Apply(s, ops[0]), ops[1..]))
  }

  /** The oid is not taken out of the caches at any point of the run. */
  predicate NeverRemoved(s: Db, ops: seq<Op>, oid: Oid)
    requires PossibleRun(s, ops)
    decreases |ops|
  {
    ops == [] ||
    (&& (IsRemoval(ops[0]) ==> s.objects[ops[0].r].oid != Some(oid))
     && NeverRemoved(Apply(s, ops[0]), ops[1..], oid))
  }

  /** In a disciplined run, only removing an oid displaces it. */
  lemma {:induction false} DisciplinedRunDisplacesNothing(s: Db, ops: seq<Op>, oid: Oid)
    requires Sound(s) && Agreeing(s) && PossibleRun(s, ops) && DisciplinedRun(s, ops) && NeverRemoved(s, ops, oid)
    ensures NeverDisplaced(s, ops, oid)
    ensures Agreeing(Run(s, ops))
    decreases |ops|
  {
    if ops != [] {
      if !IsRemoval(ops[0]) {
        DisciplineDisplacesNothing(s, ops[0], oid);
      }
      StepKeepsSound(s, ops[0]);
      StepKeepsAgreement(s, ops[0]);
      DisciplinedRunDisplacesNothing(Apply(s, ops[0]), ops[1..], oid);
    }
  }
}
