/** Versions of datasets and plans, and the derivation chains that decide between them. */
module Derivations {
  import opened Common

  datatype Kind = DatasetKind | PlanKind

  /** A derivation source: what it is looked up by, and the url id a dataset compares itself with. */
  datatype Source = Source(value: string, urlId: Option<string>)

  datatype Version = Version(kind: Kind, id: string, derivedFrom: Option<Source>, sameAs: bool)

  /** The objects of one branch by id; an id that is missing raises when looked up. */
  type Database = map<string, Version>

  /** `Dataset.is_derivation` and `Plan.is_derivation`. */
  predicate IsDerivation(v: Version) {
    match v.kind
    case DatasetKind => v.derivedFrom.Some? && !v.sameAs && v.derivedFrom.value.urlId != Some(v.id)
    case PlanKind => v.derivedFrom.Some? && v.derivedFrom.value.value != v.id
  }

  /** Objects are found under their own ids. */
  ghost predicate KeyedById(db: Database) {
    forall id :: id in db ==> db[id].id == id
  }

  /** Derivations go down in rank, so no version derives from itself. */
  ghost predicate Acyclic(db: Database, rank: Version -> nat) {
    forall v: Version {:trigger IsDerivation(v)} :: IsDerivation(v) && v.derivedFrom.value.value in db ==> rank(db[v.derivedFrom.value.value]) < rank(v)
  }

  /** Whether following derivations from `v` meets the id; raises when a lookup fails on the way. */
  ghost function DerivesFrom(db: Database, rank: Version -> nat, v: Version, id: string): Outcome<bool>
    requires Acyclic(db, rank)
    decreases rank(v)
  {
    if !IsDerivation(v) then Done(false)
    else if v.derivedFrom.value.value !in db then Raised
    else
      var parent := db[v.derivedFrom.value.value];
      if parent.id == id then Done(true) else DerivesFrom(db, rank, parent, id)
  }

  /** `_is_dataset_derived_from` and `_is_plan_derived_from`. */
  method IsDerivedFrom(child: Version, parentId: string, db: Database, ghost rank: Version -> nat) returns (r: Outcome<bool>)
    requires Acyclic(db, rank)
    ensures r == DerivesFrom(db, rank, child, parentId)
  {
    var parent := child;
    while IsDerivation(parent)
      invariant DerivesFrom(db, rank, parent, parentId) == DerivesFrom(db, rank, child, parentId)
      decreases rank(parent)
    {
      if parent.derivedFrom.value.value !in db {
        return Raised;
      }
      parent := db[parent.derivedFrom.value.value];
      if parent.id == parentId {
        return Done(true);
      }
    }
    return Done(false);
  }

  // ---------- Chains ----------

  /** `path` leads from its first version to its last, each derived from the one before it. */
  ghost predicate DerivationPath(db: Database, path: seq<Version>) {
    && path != []
    && forall i :: 0 < i < |path| ==>
         IsDerivation(path[i]) && path[i].derivedFrom.value.value in db && db[path[i].derivedFrom.value.value] == path[i - 1]
  }

  /** Every version that `v` derives from can be looked up. */
  ghost predicate HasAncestors(db: Database, rank: Version -> nat, v: Version)
    requires Acyclic(db, rank)
    decreases rank(v)
  {
    IsDerivation(v) ==>
      v.derivedFrom.value.value in db && HasAncestors(db, rank, db[v.derivedFrom.value.value])
  }

  /** The walk meets exactly the ids of the versions on derivation paths to `v`. */
  lemma {:induction false} DerivesFromMeansPath(db: Database, rank: Version -> nat, v: Version, id: string)
    requires Acyclic(db, rank)
    ensures DerivesFrom(db, rank, v, id) == Done(true) <==>
            exists path: seq<Version> :: DerivationPath(db, path) && |path| > 1 && path[|path| - 1] == v && path[0].id == id
    decreases rank(v)
  {
    if IsDerivation(v) && v.derivedFrom.value.value in db {
      var parent := db[v.derivedFrom.value.value];
      DerivesFromMeansPath(db, rank, parent, id);
      if parent.id == id {
        assert DerivationPath(db, [parent, v]);
      } else if DerivesFrom(db, rank, parent, id) == Done(true) {
        var path: seq<Version> :| DerivationPath(db, path) && |path| > 1 && path[|path| - 1] == parent && path[0].id == id;
        assert DerivationPath(db, path + [v]);
      }
      forall path: seq<Version> | DerivationPath(db, path) && |path| > 1 && path[|path| - 1] == v && path[0].id == id
        ensures DerivesFrom(db, rank, v, id) == Done(true)
      {
        var shorter := path[..|path| - 1];
        assert shorter[|shorter| - 1] == parent;
        if |shorter| > 1 {
          assert DerivationPath(db, shorter) && shorter[0] == path[0];
        }
      }
    } else {
      forall path: seq<Version> | DerivationPath(db, path) && |path| > 1 ensures path[|path| - 1] != v {
        assert IsDerivation(path[|path| - 1]);
      }
    }
  }

  /** The walk completes, whatever it looks for, exactly when it finds it or all ancestors are there. */
  lemma {:induction false} WalkCompletesIff(db: Database, rank: Version -> nat, v: Version, id: string)
    requires Acyclic(db, rank)
    ensures DerivesFrom(db, rank, v, id).Done? <==> DerivesFrom(db, rank, v, id) == Done(true) || HasAncestors(db, rank, v)
    decreases rank(v)
  {
    if IsDerivation(v) && v.derivedFrom.value.value in db {
      WalkCompletesIff(db, rank, db[v.derivedFrom.value.value], id);
    }
  }

  /** What is met has lower rank. */
  lemma {:induction false} DerivesFromLower(db: Database, rank: Version -> nat, v: Version, w: Version)
    requires Acyclic(db, rank) && KeyedById(db) && w.id in db && db[w.id] == w
    requires DerivesFrom(db, rank, v, w.id) == Done(true)
    ensures rank(w) < rank(v)
    decreases rank(v)
  {
    var parent := db[v.derivedFrom.value.value];
    if parent.id == w.id {
      assert parent == w;
    } else {
      DerivesFromLower(db, rank, parent, w);
    }
  }
}
