/** `GitMerger`: merging keyed records of several branches into the local one. */
module Merge {
  import opened Common
  import opened Derivations

  /** What stands under a key: a versioned object, or a list (a persistent one has an oid of its own). */
  datatype Entry = Object(version: Version) | Items(oid: Option<string>, items: seq<string>)

  type Tree = map<string, Entry>

  /** `NotFound` is caught by the merge loop; the others end the merge. */
  datatype Failure = NotFound | Aborted | Crashed

  datatype Result<+T> = Ok(value: T) | Err(failure: Failure) {
    predicate IsFailure() {
      Err?
    }

    function PropagateFailure<U>(): Result<U>
      requires Err?
    {
      Err(failure)
    }

    function Extract(): T
      requires Ok?
    {
      value
    }
  }

  /** A branch to be merged: its record, if it has one, its objects, and what the user answers per conflict. */
  datatype Branch = Branch(tree: Option<Tree>, database: Database, answers: map<string, string>)

  // ---------- Deciding between two entries ----------

  datatype EntryOid = HashOf(id: string) | OwnOid(oid: string)

  function OidOf(e: Entry): Option<EntryOid> {
    match e
    case Object(v) => Some(HashOf(v.id))
    case Items(oid, _) => if oid.Some? then Some(OwnOid(oid.value)) else None
  }

  /** Objects are equal when their ids are, lists when their items are. */
  predicate SameEntry(l: Entry, r: Entry) {
    match l
    case Object(v) => r.Object? && r.version.id == v.id
    case Items(_, items) => r.Items? && r.items == items
  }

  /** Whether `child` is a derivation, of the given kind, of the other entry. */
  ghost function Supersedes(child: Entry, other: Entry, kind: Kind, db: Database, rank: Version -> nat): Result<bool>
    requires Acyclic(db, rank)
  {
    if !(child.Object? && child.version.kind == kind && IsDerivation(child.version)) then Ok(false)
    else if other.Items? then Err(if child.version.derivedFrom.value.value in db then Crashed else NotFound)
    else
      match DerivesFrom(db, rank, child.version, other.version.id)
      case Raised => Err(NotFound)
      case Done(b) => Ok(b)
  }

  /** `extend` with the remote items not in the list yet; each sees the ones added before it. */
  function Extended(l: seq<string>, r: seq<string>): seq<string>
    decreases |r|
  {
    if r == [] then l else Extended(if r[0] in l then l else l + [r[0]], r[1..])
  }

  /** `_compare_objects`: the entry to keep, or none if that is for the user to say. */
  ghost function Compare(l: Entry, r: Entry, localDb: Database, remoteDb: Database, rank: Version -> nat): Result<Option<Entry>>
    requires Acyclic(localDb, rank) && Acyclic(remoteDb, rank)
  {
    if SameEntry(l, r) then Ok(Some(l))
    else
      var localDataset :- Supersedes(l, r, DatasetKind, localDb, rank);
      if localDataset then Ok(Some(l)) else
      var remoteDataset :- Supersedes(r, l, DatasetKind, remoteDb, rank);
      if remoteDataset then Ok(Some(r)) else
      var localPlan :- Supersedes(l, r, PlanKind, localDb, rank);
      if localPlan then Ok(Some(l)) else
      var remotePlan :- Supersedes(r, l, PlanKind, remoteDb, rank);
      if remotePlan then Ok(Some(r)) else
      if l.Items? && r.Items? && (l.oid.None? <==> r.oid.None?) then Ok(Some(Items(l.oid, Extended(l.items, r.items))))
      else Ok(None)
  }

  /** The entry that a conflict is settled with. */
  ghost function Settle(l: Entry, r: Entry, answer: string, localDb: Database, remoteDb: Database, rank: Version -> nat): Result<Entry>
    requires Acyclic(localDb, rank) && Acyclic(remoteDb, rank)
  {
    var kept :- Compare(l, r, localDb, remoteDb, rank);
    if kept.Some? then Ok(kept.value)
    else if answer == "l" then Ok(l)
    else if answer == "r" then Ok(r)
    else Err(Aborted)
  }

  // ---------- Merging one branch ----------

  function Copied(local: Tree, remote: Tree): Tree {
    map k | k in local.Keys + remote.Keys :: if k in local then local[k] else remote[k]
  }

  function Conflicts(local: Tree, remote: Tree): set<string> {
    set k | k in local && k in remote && OidOf(remote[k]) != OidOf(local[k])
  }

  function Answer(b: Branch, key: string): string {
    if key in b.answers then b.answers[key] else "a"
  }

  /** What one branch made of the local record, and the failure that stopped it. */
  datatype Merged = Merged(tree: Tree, failure: Option<Failure>)

  ghost function SettleAll(acc: Tree, remote: Tree, keys: seq<string>, b: Branch, localDb: Database, rank: Version -> nat): Merged
    requires Acyclic(localDb, rank) && Acyclic(b.database, rank)
    requires forall k :: k in keys ==> k in acc && k in remote
    decreases |keys|
  {
    if keys == [] then Merged(acc, None)
    else
      match Settle(acc[keys[0]], remote[keys[0]], Answer(b, keys[0]), localDb, b.database, rank)
      case Err(f) => Merged(acc, Some(f))
      case Ok(e) => SettleAll(acc[keys[0] := e], remote, keys[1..], b, localDb, rank)
  }

  /** `merge_btrees`. */
  ghost function MergeTree(local: Tree, remote: Tree, b: Branch, localDb: Database, rank: Version -> nat): Merged
    requires Acyclic(localDb, rank) && Acyclic(b.database, rank)
  {
    SettleAll(Copied(local, remote), remote, Sorted(Conflicts(local, remote)), b, localDb, rank)
  }

  // ---------- Merging all branches ----------

  /** The record after some branches; `merged` tells whether any of them could be merged. */
  datatype Octopus = Octopus(tree: Tree, merged: bool, failure: Option<Failure>)

  ghost predicate BranchesAcyclic(branches: seq<Branch>, rank: Version -> nat) {
    forall b :: b in branches ==> Acyclic(b.database, rank)
  }

  /** One turn of the loop in `merge`: a branch where something is not found is passed over. */
  ghost function Next(o: Octopus, b: Branch, localDb: Database, rank: Version -> nat): Octopus
    requires Acyclic(localDb, rank) && Acyclic(b.database, rank)
  {
    if o.failure.Some? || b.tree.None? then o else After(o, MergeTree(o.tree, b.tree.value, b, localDb, rank))
  }

  function After(o: Octopus, m: Merged): Octopus {
    if m.failure == None then Octopus(m.tree, true, None)
    else if m.failure == Some(NotFound) then Octopus(m.tree, o.merged, None)
    else Octopus(m.tree, o.merged, m.failure)
  }

  ghost function MergeBranches(o: Octopus, branches: seq<Branch>, localDb: Database, rank: Version -> nat): Octopus
    requires Acyclic(localDb, rank) && BranchesAcyclic(branches, rank)
    decreases |branches|
  {
    if branches == [] then o else
      assert branches[0] in branches && forall b :: b in branches[1..] ==> b in branches;
      MergeBranches(Next(o, branches[0], localDb, rank), branches[1..], localDb, rank)
  }

  // ---------- The merge as it runs ----------

  method CompareEntries(l: Entry, r: Entry, localDb: Database, remoteDb: Database, ghost rank: Version -> nat)
    returns (result: Result<Option<Entry>>)
    requires Acyclic(localDb, rank) && Acyclic(remoteDb, rank)
    ensures result == Compare(l, r, localDb, remoteDb, rank)
  {
    if SameEntry(l, r) {
      return Ok(Some(l));
    }
    var newer := IsSuperseding(l, r, DatasetKind, localDb, rank);
    if newer.Err? {
      return Err(newer.failure);
    } else if newer.value {
      return Ok(Some(l));
    }
    newer := IsSuperseding(r, l, DatasetKind, remoteDb, rank);
    if newer.Err? {
      return Err(newer.failure);
    } else if newer.value {
      return Ok(Some(r));
    }
    newer := IsSuperseding(l, r, PlanKind, localDb, rank);
    if newer.Err? {
      return Err(newer.failure);
    } else if newer.value {
      return Ok(Some(l));
    }
    newer := IsSuperseding(r, l, PlanKind, remoteDb, rank);
    if newer.Err? {
      return Err(newer.failure);
    } else if newer.value {
      return Ok(Some(r));
    }
    if l.Items? && r.Items? && (l.oid.None? <==> r.oid.None?) {
      return Ok(Some(Items(l.oid, Extended(l.items, r.items))));
    }
    return Ok(None);
  }

  method IsSuperseding(child: Entry, other: Entry, kind: Kind, db: Database, ghost rank: Version -> nat) returns (r: Result<bool>)
    requires Acyclic(db, rank)
    ensures r == Supersedes(child, other, kind, db, rank)
  {
    if !(child.Object? && child.version.kind == kind && IsDerivation(child.version)) {
      return Ok(false);
    }
    if other.Items? {
      return Err(if child.version.derivedFrom.value.value in db then Crashed else NotFound);
    }
    var derived := IsDerivedFrom(child.version, other.version.id, db, rank);
    return if derived.Done? then Ok(derived.value) else Err(NotFound);
  }

  method SettleEntry(l: Entry, r: Entry, action: string, localDb: Database, remoteDb: Database, ghost rank: Version -> nat)
    returns (result: Result<Entry>)
    requires Acyclic(localDb, rank) && Acyclic(remoteDb, rank)
    ensures result == Settle(l, r, action, localDb, remoteDb, rank)
  {
    var kept := CompareEntries(l, r, localDb, remoteDb, rank);
    if kept.Err? {
      return Err(kept.failure);
    }
    if kept.value.Some? {
      return Ok(kept.value.value);
    }
    if action == "r" {
      return Ok(r);
    }
    return if action == "l" then Ok(l) else Err(Aborted);
  }

  /** A record of the local branch, changed in place. */
  class LocalTree {
    var entries: Tree

    constructor (entries: Tree)
      ensures this.entries == entries
    {
      this.entries := entries;
    }

    method MergeTreeFrom(remote: Tree, b: Branch, localDb: Database, ghost rank: Version -> nat) returns (failure: Option<Failure>)
      requires Acyclic(localDb, rank) && Acyclic(b.database, rank)
      modifies this
      ensures Merged(entries, failure) == MergeTree(old(entries), remote, b, localDb, rank)
    {
      var conflicts := Sorted(Conflicts(entries, remote));
      entries := Copied(entries, remote);
      ghost var copied := entries;
      assert conflicts[0..] == conflicts;
      for i := 0 to |conflicts|
        invariant forall k :: k in conflicts ==> k in entries && k in copied && k in remote
        invariant forall k :: k in conflicts[i..] ==> k in conflicts
        invariant SettleAll(copied, remote, conflicts, b, localDb, rank) == SettleAll(entries, remote, conflicts[i..], b, localDb, rank)
      {
        var key := conflicts[i];
        assert conflicts[i..][0] == key && conflicts[i..][1..] == conflicts[i + 1..];
        var kept := SettleEntry(entries[key], remote[key], Answer(b, key), localDb, b.database, rank);
        if kept.Err? {
          return Some(kept.failure);
        }
        entries := entries[key := kept.value];
      }
      return None;
    }

    /** `merge`, up to writing the result: fails when aborted, or when no branch could be merged. */
    method MergeAll(branches: seq<Branch>, localDb: Database, ghost rank: Version -> nat) returns (ok: bool)
      requires Acyclic(localDb, rank) && BranchesAcyclic(branches, rank)
      modifies this
      ensures var o := MergeBranches(Octopus(old(entries), false, None), branches, localDb, rank);
              entries == o.tree && (ok <==> o.merged && o.failure.None?)
    {
      var merged := false;
      ghost var start := Octopus(entries, false, None);
      for i := 0 to |branches|
        invariant forall b :: b in branches[i..] ==> b in branches
        invariant MergeBranches(start, branches, localDb, rank) ==
                  MergeBranches(Octopus(entries, merged, None), branches[i..], localDb, rank)
      {
        var b := branches[i];
        assert branches[i..][0] == b && branches[i..][1..] == branches[i + 1..];
        if b.tree.Some? {
          var failure := MergeTreeFrom(b.tree.value, b, localDb, rank);
          if failure.None? {
            merged := true;
          } else if failure != Some(NotFound) {
            FailureStays(Octopus(entries, merged, failure), branches[i + 1..], localDb, rank);
            return false;
          }
        }
      }
      return merged;
    }
  }

  lemma {:induction false} FailureStays(o: Octopus, branches: seq<Branch>, localDb: Database, rank: Version -> nat)
    requires Acyclic(localDb, rank) && BranchesAcyclic(branches, rank) && o.failure.Some?
    ensures MergeBranches(o, branches, localDb, rank) == o
    decreases |branches|
  {
    if branches != [] {
      assert branches[0] in branches && forall b :: b in branches[1..] ==> b in branches;
      FailureStays(o, branches[1..], localDb, rank);
    }
  }
}
