/** What a commit that completes achieves: a closed store always, and every update stored exactly if no oid is contested. */
module CompletedCommits {
  import opened Common
  import opened ObjectStore
  import opened Commit

  // ---------- Dirty paths ----------

  /** A chain of dirty or new objects, each referring to the next, that starts on the worklist. */
  ghost predicate DirtyPath(s: Db, path: seq<Ref>) {
    && path != []
    && (forall i :: 0 <= i < |path| ==> path[i] < |s.objects| && NeedsStore(s.objects[path[i]]))
    && (exists o :: o in s.toCommit && s.toCommit[o] == path[0])
    && (forall i :: 0 < i < |path| ==> path[i] in s.objects[path[i - 1]].state.refs)
  }

  ghost predicate OnDirtyPath(s: Db, r: Ref) {
    exists path :: DirtyPath(s, path) && path[|path| - 1] == r
  }

  ghost predicate ReferredToFrom(s: Db, c: Ref) {
    exists r: Ref :: r < |s.objects| && OnDirtyPath(s, r) && c in s.objects[r].state.refs
  }

  /** All that a commit may touch: what is on a dirty path, what that refers to, and the worklist. */
  ghost function Touchable(s: Db): set<Ref> {
    set c: Ref | c < |s.objects| && (OnDirtyPath(s, c) || ReferredToFrom(s, c) || c in s.toCommit.Values)
  }

  lemma WaitingIsOnPath(s: Db, r: Ref)
    requires r in s.toCommit.Values && r < |s.objects| && NeedsStore(s.objects[r])
    ensures OnDirtyPath(s, r)
  {
    var o :| o in s.toCommit && s.toCommit[o] == r;
    assert DirtyPath(s, [r]);
  }

  lemma ReferredToIsOnPath(s: Db, r: Ref, c: Ref)
    requires r < |s.objects| && OnDirtyPath(s, r) && c in s.objects[r].state.refs && c < |s.objects| && NeedsStore(s.objects[c])
    ensures OnDirtyPath(s, c)
  {
    var path :| DirtyPath(s, path) && path[|path| - 1] == r;
    var longer := path + [c];
    assert DirtyPath(s, longer) && longer[|longer| - 1] == c;
  }

  lemma DirtyIsOnPath(s: Db, r: Ref)
    requires WellFormed(s) && r in Touchable(s) && NeedsStore(s.objects[r])
    ensures OnDirtyPath(s, r)
  {
    if r in s.toCommit.Values {
      WaitingIsOnPath(s, r);
    } else if ReferredToFrom(s, r) {
      var q: Ref :| q < |s.objects| && OnDirtyPath(s, q) && r in s.objects[q].state.refs;
      ReferredToIsOnPath(s, q, r);
    }
  }

  lemma OnPathIsDirty(s: Db, r: Ref)
    requires OnDirtyPath(s, r)
    ensures r < |s.objects| && NeedsStore(s.objects[r]) && r in Touchable(s)
  {
  }

  lemma TouchableIsRegion(s: Db)
    requires WellFormed(s)
    ensures Region(s, Touchable(s))
  {
    forall r, c | r in Touchable(s) && NeedsStore(s.objects[r]) && c in s.objects[r].state.refs ensures c in Touchable(s) {
      DirtyIsOnPath(s, r);
      assert ReferredToFrom(s, c);
    }
  }

  // ---------- Conditions on the database before the commit ----------

  /** No two objects on dirty paths claim one oid. */
  ghost predicate Uncontested(s: Db) {
    forall r: Ref, q: Ref :: OnDirtyPath(s, r) && OnDirtyPath(s, q) && r < |s.objects| && q < |s.objects| && r != q ==>
      KeyOf(s.objects[r]) != KeyOf(s.objects[q])
  }

  /** The cache holds nothing else under the oid of an object on a dirty path. */
  ghost predicate CacheIsFree(s: Db) {
    forall r: Ref :: OnDirtyPath(s, r) && r < |s.objects| && KeyOf(s.objects[r]) in s.cache ==> s.cache[KeyOf(s.objects[r])] == r
  }

  /** What objects on dirty paths refer to passes the check of its oid if it has to be stored. */
  ghost predicate OidsMatch(s: Db) {
    forall r: Ref, c: Ref ::
      OnDirtyPath(s, r) && r < |s.objects| && c in s.objects[r].state.refs && c < |s.objects| && NeedsStore(s.objects[c])
      ==> (s.objects[c].cls.renku ==> KeyOf(s.objects[c]) == Hash(s.objects[c].state.id))
  }

  /** What objects on dirty paths refer to has to be stored itself, or has a record. */
  ghost predicate OthersHaveRecords(s: Db) {
    forall r: Ref, c: Ref ::
      OnDirtyPath(s, r) && r < |s.objects| && c in s.objects[r].state.refs && c < |s.objects| && !NeedsStore(s.objects[c])
      ==> KeyOf(s.objects[c]) in s.storage
  }

  lemma UncontestedMeansApart(s: Db)
    requires WellFormed(s)
    ensures Uncontested(s) ==> KeysApart(s, Touchable(s))
    ensures CacheIsFree(s) ==> CacheFits(s, Touchable(s))
  {
    forall r | r in Touchable(s) && NeedsStore(s.objects[r]) ensures OnDirtyPath(s, r) {
      DirtyIsOnPath(s, r);
    }
  }

  lemma OidsMatchMeansMet(s: Db)
    requires WellFormed(s) && OidsMatch(s)
    ensures MetOidsMatch(s, Touchable(s))
  {
    forall r | r in Touchable(s) && NeedsStore(s.objects[r]) ensures RenkuOidsMatch(s, s.objects[r].state.refs) {
      DirtyIsOnPath(s, r);
    }
  }

  lemma RecordsMeanCleanOnesAreStored(s: Db)
    requires WellFormed(s) && OthersHaveRecords(s)
    ensures CleanOnesAreStored(s, Touchable(s))
  {
    TouchableIsRegion(s);
    forall r | r in Touchable(s) && NeedsStore(s.objects[r]) ensures OnDirtyPath(s, r) {
      DirtyIsOnPath(s, r);
    }
  }

  // ---------- Runs of turns ----------

  /** The database after these entries were taken, one turn each; fails if one is not there or its turn raises. */
  ghost function Turns(s: Db, taken: seq<Oid>): Outcome<Db>
    requires WellFormed(s)
    decreases |taken|
  {
    if taken == [] then Done(s) else
      var before :- Turns(s, taken[..|taken| - 1]);
      var oid := taken[|taken| - 1];
      if oid in before.toCommit && WellFormed(before) then CommitStep(before, oid) else Raised
  }

  lemma TurnsNext(s: Db, taken: seq<Oid>, oid: Oid)
    requires WellFormed(s) && Turns(s, taken).Done? && oid in Turns(s, taken).value.toCommit && WellFormed(Turns(s, taken).value)
    ensures Turns(s, taken + [oid]) == CommitStep(Turns(s, taken).value, oid)
  {
    assert (taken + [oid])[..|taken|] == taken;
  }

  /** What every run of turns keeps, contested or not. */
  lemma {:induction false} TurnsKeep(s0: Db, taken: seq<Oid>)
    requires WellFormed(s0) && NoGhostWaits(s0) && Turns(s0, taken).Done?
    ensures var s := Turns(s0, taken).value;
            WellFormed(s) && NoGhostWaits(s) && Underway(s0, s, Touchable(s0))
    decreases |taken|
  {
    if taken == [] {
      TouchableIsRegion(s0);
      KeptAtStart(s0, Touchable(s0));
    } else {
      var front, oid := taken[..|taken| - 1], taken[|taken| - 1];
      TurnsKeep(s0, front);
      StepShrinks(Turns(s0, front).value, oid);
      TurnKeeps(s0, Turns(s0, front).value, Touchable(s0), oid);
    }
  }

  lemma {:induction false} TurnsKeepLinksLeading(s0: Db, taken: seq<Oid>)
    requires WellFormed(s0) && NoGhostWaits(s0) && Turns(s0, taken).Done?
    requires OthersHaveRecords(s0) && StoreIsClosed(s0.storage)
    ensures LinksLead(Turns(s0, taken).value)
    decreases |taken|
  {
    if taken != [] {
      var front, oid := taken[..|taken| - 1], taken[|taken| - 1];
      TurnsKeep(s0, front);
      TurnsKeepLinksLeading(s0, front);
      RecordsMeanCleanOnesAreStored(s0);
      TurnKeepsLinksLeading(s0, Turns(s0, front).value, Touchable(s0), oid);
    }
  }

  lemma {:induction false} TurnsMakeProgress(s0: Db, taken: seq<Oid>)
    requires WellFormed(s0) && NoGhostWaits(s0) && Turns(s0, taken).Done? && Uncontested(s0)
    ensures Progress(s0, Turns(s0, taken).value, Touchable(s0))
    decreases |taken|
  {
    if taken == [] {
      TouchableIsRegion(s0);
      ProgressAtStart(s0, Touchable(s0));
    } else {
      var front, oid := taken[..|taken| - 1], taken[|taken| - 1];
      TurnsMakeProgress(s0, front);
      UncontestedMeansApart(s0);
      StepMakesProgress(s0, Turns(s0, front).value, Touchable(s0), oid);
    }
  }

  // ---------- Commits that complete ----------

  /** Turns that empty the worklist. */
  ghost predicate Completes(s0: Db, taken: seq<Oid>, s: Db) {
    WellFormed(s0) && NoGhostWaits(s0) && Turns(s0, taken) == Done(s) && s.toCommit == map[]
  }

  /** After a commit that completes, every reference in every record leads to a record, whatever oids are claimed. */
  lemma CommitClosesTheStore(s0: Db, taken: seq<Oid>, s: Db)
    requires Completes(s0, taken, s) && OthersHaveRecords(s0) && StoreIsClosed(s0.storage)
    ensures StoreIsClosed(s.storage)
  {
    TurnsKeepLinksLeading(s0, taken);
    forall o, link | o in s.storage && link in s.storage[o].links ensures link.oid in s.storage {
      assert Leads(s, link.oid);
    }
  }

  /** The object is clean, and its record is its own. */
  ghost predicate IsStored(s0: Db, s: Db, r: Ref) {
    && r < |s0.objects| && r < |s.objects| && !NeedsStore(s.objects[r])
    && KeyOf(s0.objects[r]) in s.storage && s.storage[KeyOf(s0.objects[r])] == RecordOf(s0, r)
  }

  ghost predicate AllStored(s0: Db, s: Db) {
    forall r: Ref :: OnDirtyPath(s0, r) ==> IsStored(s0, s, r)
  }

  lemma NothingIsDue(s0: Db, s: Db, region: set<Ref>, q: Ref)
    requires Progress(s0, s, region) && s.toCommit == map[]
    ensures !Due(s0, s, q)
  {
    assert !Waiting(s, q);
  }

  /** With uncontested oids, everything on a dirty path is stored with the state it had, and is clean. */
  lemma {:induction false} DirtyPathsAreStored(s0: Db, s: Db, region: set<Ref>, path: seq<Ref>)
    requires Progress(s0, s, region) && s.toCommit == map[] && DirtyPath(s0, path)
    ensures Cleaned(s0, s, path[|path| - 1]) && IsStored(s0, s, path[|path| - 1])
    decreases |path|
  {
    var r := path[|path| - 1];
    if |path| > 1 {
      DirtyPathsAreStored(s0, s, region, path[..|path| - 1]);
      assert Cleaned(s0, s, path[|path| - 2]);
    }
    NothingIsDue(s0, s, region, r);
    assert Cleaned(s0, s, r);
  }

  /** What was stored stays in the cache, so nothing else was stored under its oid. */
  lemma StoredAreApart(s0: Db, s: Db, region: set<Ref>, r: Ref, q: Ref)
    requires Underway(s0, s, region) && Cleaned(s0, s, r) && Cleaned(s0, s, q) && r != q
    ensures KeyOf(s0.objects[r]) != KeyOf(s0.objects[q])
  {
  }

  /**
   A commit that completes has stored every object on a dirty path with its own state exactly if no two of
   them claim one oid. If two do, an update is lost although nothing was raised.
   */
  lemma CommitStoresAllIff(s0: Db, taken: seq<Oid>, s: Db)
    requires Completes(s0, taken, s)
    ensures AllStored(s0, s) <==> Uncontested(s0)
    ensures AllStored(s0, s) ==> CacheIsFree(s0)
    ensures !Uncontested(s0) ==> exists r: Ref :: OnDirtyPath(s0, r) && r < |s.objects| && NeedsStore(s.objects[r])
  {
    TurnsKeep(s0, taken);
    if Uncontested(s0) {
      UncontestedAreStored(s0, taken, s);
    }
    if AllClean(s0, s) {
      AllCleanIsUncontested(s0, s);
    }
    assert AllStored(s0, s) ==> AllClean(s0, s);
  }

  ghost predicate AllClean(s0: Db, s: Db) {
    forall r: Ref :: OnDirtyPath(s0, r) && r < |s.objects| ==> !NeedsStore(s.objects[r])
  }

  lemma UncontestedAreStored(s0: Db, taken: seq<Oid>, s: Db)
    requires Completes(s0, taken, s) && Uncontested(s0)
    ensures AllStored(s0, s)
  {
    TurnsMakeProgress(s0, taken);
    forall r: Ref | OnDirtyPath(s0, r) ensures IsStored(s0, s, r) {
      var path :| DirtyPath(s0, path) && path[|path| - 1] == r;
      DirtyPathsAreStored(s0, s, Touchable(s0), path);
    }
  }

  lemma AllCleanIsUncontested(s0: Db, s: Db)
    requires Underway(s0, s, Touchable(s0))
    requires AllClean(s0, s)
    ensures Uncontested(s0) && CacheIsFree(s0)
  {
    forall r: Ref | OnDirtyPath(s0, r) ensures r < |s0.objects| && Cleaned(s0, s, r) {
      OnPathIsDirty(s0, r);
    }
    forall r: Ref, q: Ref | OnDirtyPath(s0, r) && OnDirtyPath(s0, q) && r != q
      ensures KeyOf(s0.objects[r]) != KeyOf(s0.objects[q])
    {
      StoredAreApart(s0, s, Touchable(s0), r, q);
    }
  }

  /** Whatever happens, an object on a dirty path is still dirty, or is clean and has its own record. */
  lemma DirtyOrStored(s0: Db, taken: seq<Oid>, s: Db, r: Ref)
    requires Completes(s0, taken, s) && OnDirtyPath(s0, r)
    ensures r < |s.objects| && (NeedsStore(s.objects[r]) || IsStored(s0, s, r))
  {
    TurnsKeep(s0, taken);
    OnPathIsDirty(s0, r);
    if !NeedsStore(s.objects[r]) {
      assert Cleaned(s0, s, r);
    }
  }

  /** If no oid is contested, those that are met match, and the cache holds nothing else under them, no turn raises. */
  lemma UncontestedTurnCompletes(s0: Db, taken: seq<Oid>, oid: Oid)
    requires WellFormed(s0) && NoGhostWaits(s0) && Uncontested(s0) && OidsMatch(s0) && CacheIsFree(s0)
    requires Turns(s0, taken).Done? && oid in Turns(s0, taken).value.toCommit
    ensures Turns(s0, taken + [oid]).Done?
  {
    TurnsKeep(s0, taken);
    UncontestedMeansApart(s0);
    OidsMatchMeansMet(s0);
    StepCompletes(s0, Turns(s0, taken).value, Touchable(s0), oid);
    TurnsNext(s0, taken, oid);
  }

  /** A commit that completes changes no state, and nothing at all of objects it has no business with. */
  lemma CommitTouchesOnlyDirtyPaths(s0: Db, taken: seq<Oid>, s: Db, r: Ref)
    requires Completes(s0, taken, s) && r < |s0.objects|
    ensures r < |s.objects| && s.objects[r].state == s0.objects[r].state && KeyOf(s.objects[r]) == KeyOf(s0.objects[r])
    ensures r !in Touchable(s0) ==> s.objects[r] == s0.objects[r]
    ensures !OnDirtyPath(s0, r) ==> s.objects[r].status == s0.objects[r].status && s.objects[r].isNew == s0.objects[r].isNew
  {
    TurnsKeep(s0, taken);
    if !OnDirtyPath(s0, r) && Cleaned(s0, s, r) {
      DirtyIsOnPath(s0, r);
    }
  }

  /** Every record that a commit wrote is that of an object on a dirty path. */
  lemma CommitWritesOnlyDirtyPaths(s0: Db, taken: seq<Oid>, s: Db, oid: Oid)
    requires Completes(s0, taken, s) && oid in s.storage && !(oid in s0.storage && s.storage[oid] == s0.storage[oid])
    ensures exists r: Ref :: OnDirtyPath(s0, r) && IsStored(s0, s, r) && KeyOf(s0.objects[r]) == oid
  {
    TurnsKeep(s0, taken);
    var r: Ref :| Cleaned(s0, s, r) && KeyOf(s.objects[r]) == oid;
    DirtyIsOnPath(s0, r);
    assert IsStored(s0, s, r);
  }

  // ---------- A commit that loses an update ----------

  const PLAN := Class("Plan", true)
  const CONTESTED := Hash("a")

  /** The third object and the second have one id; the first refers to the second; the first and the third wait. */
  const PARENT := PObject(PLAN, 0, Some(Hash("p")), true, Changed, false, State("p", 0, [1]))
  const MET := PObject(PLAN, 0, Some(CONTESTED), true, Changed, false, State("a", 1, []))
  const DISPLACED := PObject(PLAN, 0, Some(CONTESTED), true, Changed, false, State("a", 2, []))
  const CONTEST := Db([PARENT, MET, DISPLACED], map[], map[], map[], map[], map[Hash("p") := 0, CONTESTED := 2])

  /** After the turn of the first object, and after that of the second. */
  const FIRST_STORED :=
    Db([PARENT.(status := UpToDate), MET, DISPLACED], map[Hash("p") := Record(PLAN, "p", 0, [Link(CONTESTED, PLAN)])],
       map[], map[Hash("p") := 0], map[], map[CONTESTED := 1])
  const SECOND_STORED :=
    Db([PARENT.(status := UpToDate), MET.(status := UpToDate), DISPLACED],
       map[Hash("p") := Record(PLAN, "p", 0, [Link(CONTESTED, PLAN)]), CONTESTED := Record(PLAN, "a", 1, [])],
       map[], map[Hash("p") := 0, CONTESTED := 1], map[], map[])

  lemma ContestIsWellFormed()
    ensures WellFormed(CONTEST) && NoGhostWaits(CONTEST) && WellFormed(FIRST_STORED)
  {
  }

  /** Meeting the second object puts it on the worklist in place of the third. */
  lemma MeetingDisplaces(s: Db)
    requires s == CONTEST.(toCommit := map[CONTESTED := 2])
    ensures VisitAll(s, [1]) == Done((s.(toCommit := map[CONTESTED := 1]), [Link(CONTESTED, PLAN)]))
  {
    var refs: seq<Ref> := [1];
    assert refs[1..] == [];
    assert s.objects[1 := MET] == s.objects && s.objects[1] == MET;
    assert map[CONTESTED := 2][CONTESTED := 1] == map[CONTESTED := 1];
    assert Visit(s, 1) == Done(s.(toCommit := map[CONTESTED := 1]));
    assert VisitAll(s.(toCommit := map[CONTESTED := 1]), refs[1..]) == Done((s.(toCommit := map[CONTESTED := 1]), []));
    assert [Link(CONTESTED, PLAN)] + [] == [Link(CONTESTED, PLAN)];
    assert VisitAll(s, refs) == Done((s.(toCommit := map[CONTESTED := 1]), [Link(CONTESTED, PLAN)] + []));
  }

  lemma FirstTurn()
    requires WellFormed(CONTEST)
    ensures CommitStep(CONTEST, Hash("p")) == Done(FIRST_STORED)
  {
    var s1 := CONTEST.(toCommit := map[CONTESTED := 2]);
    assert CONTEST.toCommit - {Hash("p")} == s1.toCommit;
    MeetingDisplaces(s1);
    var s2 := s1.(toCommit := map[CONTESTED := 1]);
    assert s2.objects[0] == PARENT && s2.objects[0 := PARENT.(status := UpToDate)] == FIRST_STORED.objects;
    assert Store(s1, 0) == Done(FIRST_STORED);
  }

  lemma SecondTurn()
    requires WellFormed(FIRST_STORED)
    ensures CommitStep(FIRST_STORED, CONTESTED) == Done(SECOND_STORED)
  {
    var s1 := FIRST_STORED.(toCommit := map[]);
    assert FIRST_STORED.toCommit - {CONTESTED} == map[];
    assert VisitAll(s1, []) == Done((s1, []));
    assert s1.objects[1 := MET.(status := UpToDate)] == SECOND_STORED.objects;
    assert Store(s1, 1) == Done(SECOND_STORED);
  }

  /** The commit completes, and the third object is still changed; under its oid is the state of the second. */
  lemma ContestedUpdateIsLost(taken: seq<Oid>)
    requires taken == [Hash("p"), CONTESTED]
    ensures Completes(CONTEST, taken, SECOND_STORED)
    ensures OnDirtyPath(CONTEST, 2) && !Uncontested(CONTEST)
    ensures NeedsStore(SECOND_STORED.objects[2]) && !IsStored(CONTEST, SECOND_STORED, 2)
    ensures SECOND_STORED.storage[CONTESTED].payload != CONTEST.objects[2].state.payload
  {
    ContestIsWellFormed();
    FirstTurn();
    SecondTurn();
    TurnsNext(CONTEST, [], Hash("p"));
    assert [] + [Hash("p")] == [Hash("p")] && [Hash("p")] + [CONTESTED] == taken;
    TurnsNext(CONTEST, [Hash("p")], CONTESTED);
    WaitingIsOnPath(CONTEST, CONTEST.toCommit[CONTESTED]);
    CommitStoresAllIff(CONTEST, taken, SECOND_STORED);
  }
}
