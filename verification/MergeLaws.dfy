/** What a merge of several branches amounts to: no key is lost, and which of two versions of a chain is kept. */
module MergeLaws {
  import opened Common
  import opened Derivations
  import opened Merge

  // ---------- Lists ----------

  /** Merging lists keeps the local one in front, gives the union, and adds nothing twice. */
  lemma {:induction false} ExtendedIsUnion(l: seq<string>, r: seq<string>)
    ensures l <= Extended(l, r)
    ensures forall x :: x in Extended(l, r) <==> x in l || x in r
    ensures NoDuplicates(l) ==> NoDuplicates(Extended(l, r))
    decreases |r|
  {
    if r != [] {
      var l' := if r[0] in l then l else l + [r[0]];
      ExtendedIsUnion(l', r[1..]);
      assert forall x :: x in r <==> x == r[0] || x in r[1..];
    }
  }

  // ---------- One branch ----------

  /** What stands under a key after a merge without failure. */
  ghost function MergedAt(local: Tree, remote: Tree, k: string, b: Branch, localDb: Database, rank: Version -> nat): Result<Entry>
    requires Acyclic(localDb, rank) && Acyclic(b.database, rank)
    requires k in local || k in remote
  {
    if k !in remote then Ok(local[k])
    else if k !in local then Ok(remote[k])
    else if OidOf(remote[k]) == OidOf(local[k]) then Ok(local[k])
    else Settle(local[k], remote[k], Answer(b, k), localDb, b.database, rank)
  }

  lemma {:induction false} SettleAllKeepsKeys(acc: Tree, remote: Tree, keys: seq<string>, b: Branch, localDb: Database, rank: Version -> nat)
    requires Acyclic(localDb, rank) && Acyclic(b.database, rank)
    requires forall k :: k in keys ==> k in acc && k in remote
    ensures var m := SettleAll(acc, remote, keys, b, localDb, rank);
            m.tree.Keys == acc.Keys && forall k :: k in acc && k !in keys ==> m.tree[k] == acc[k]
    decreases |keys|
  {
    if keys != [] {
      assert keys[0] in keys && forall k :: k in keys[1..] ==> k in keys;
      var settled := Settle(acc[keys[0]], remote[keys[0]], Answer(b, keys[0]), localDb, b.database, rank);
      if settled.Ok? {
        SettleAllKeepsKeys(acc[keys[0] := settled.value], remote, keys[1..], b, localDb, rank);
      }
    }
  }

  lemma {:induction false} SettleAllAt(acc: Tree, remote: Tree, keys: seq<string>, b: Branch, localDb: Database, rank: Version -> nat, k: string)
    requires Acyclic(localDb, rank) && Acyclic(b.database, rank)
    requires NoDuplicates(keys) && forall k :: k in keys ==> k in acc && k in remote
    requires k in keys
    requires SettleAll(acc, remote, keys, b, localDb, rank).failure.None?
    ensures var m := SettleAll(acc, remote, keys, b, localDb, rank);
            k in m.tree && Settle(acc[k], remote[k], Answer(b, k), localDb, b.database, rank) == Ok(m.tree[k])
    decreases |keys|
  {
    assert keys[0] in keys && forall j :: j in keys[1..] ==> j in keys;
    var settled := Settle(acc[keys[0]], remote[keys[0]], Answer(b, keys[0]), localDb, b.database, rank);
    var acc' := acc[keys[0] := settled.value];
    if k == keys[0] {
      SettleAllKeepsKeys(acc', remote, keys[1..], b, localDb, rank);
    } else {
      SettleAllAt(acc', remote, keys[1..], b, localDb, rank, k);
    }
  }

  /** A failure leaves no key out either: new entries are copied before conflicts are looked at. */
  lemma MergeTreeKeepsAllKeys(local: Tree, remote: Tree, b: Branch, localDb: Database, rank: Version -> nat)
    requires Acyclic(localDb, rank) && Acyclic(b.database, rank)
    ensures MergeTree(local, remote, b, localDb, rank).tree.Keys == local.Keys + remote.Keys
  {
    SettleAllKeepsKeys(Copied(local, remote), remote, Sorted(Conflicts(local, remote)), b, localDb, rank);
  }

  lemma MergeTreeHasKey(local: Tree, remote: Tree, b: Branch, localDb: Database, rank: Version -> nat, k: string)
    requires Acyclic(localDb, rank) && Acyclic(b.database, rank)
    ensures k in MergeTree(local, remote, b, localDb, rank).tree <==> k in local || k in remote
  {
    MergeTreeKeepsAllKeys(local, remote, b, localDb, rank);
    assert k in local.Keys + remote.Keys <==> k in local || k in remote;
  }

  lemma MergeTreeAt(local: Tree, remote: Tree, b: Branch, localDb: Database, rank: Version -> nat, k: string)
    requires Acyclic(localDb, rank) && Acyclic(b.database, rank)
    requires k in local || k in remote
    requires MergeTree(local, remote, b, localDb, rank).failure.None?
    ensures var tree := MergeTree(local, remote, b, localDb, rank).tree;
            k in tree && MergedAt(local, remote, k, b, localDb, rank) == Ok(tree[k])
  {
    var conflicts := Sorted(Conflicts(local, remote));
    SettleAllKeepsKeys(Copied(local, remote), remote, conflicts, b, localDb, rank);
    if k in conflicts {
      SettleAllAt(Copied(local, remote), remote, conflicts, b, localDb, rank, k);
    }
  }

  // ---------- All branches ----------

  ghost predicate SomeBranchHas(branches: seq<Branch>, k: string) {
    exists b :: b in branches && b.tree.Some? && k in b.tree.value
  }

  lemma {:induction false} NextUnitesKeys(o: Octopus, b: Branch, localDb: Database, rank: Version -> nat, k: string)
    requires Acyclic(localDb, rank) && Acyclic(b.database, rank) && o.failure.None?
    ensures k in Next(o, b, localDb, rank).tree <==> k in o.tree || (b.tree.Some? && k in b.tree.value)
  {
    if b.tree.Some? {
      MergeTreeHasKey(o.tree, b.tree.value, b, localDb, rank, k);
      AfterKeepsTree(o, MergeTree(o.tree, b.tree.value, b, localDb, rank));
    }
  }

  lemma AfterKeepsTree(o: Octopus, m: Merged)
    ensures After(o, m).tree == m.tree
  {
  }

  /** A merge that is not broken off has exactly the keys of all branches, passed over or not. */
  lemma {:induction false} OctopusUnitesKeys(o: Octopus, branches: seq<Branch>, localDb: Database, rank: Version -> nat, k: string)
    requires Acyclic(localDb, rank) && BranchesAcyclic(branches, rank)
    requires MergeBranches(o, branches, localDb, rank).failure.None?
    ensures k in MergeBranches(o, branches, localDb, rank).tree <==> k in o.tree || SomeBranchHas(branches, k)
    decreases |branches|
  {
    if branches != [] {
      var b := branches[0];
      assert b in branches && forall c :: c in branches[1..] ==> c in branches;
      var next := Next(o, b, localDb, rank);
      if o.failure.Some? || next.failure.Some? {
        FailureStays(next, branches[1..], localDb, rank);
      } else {
        NextUnitesKeys(o, b, localDb, rank, k);
        OctopusUnitesKeys(next, branches[1..], localDb, rank, k);
        FirstOrRest(branches, k);
      }
    }
  }

  lemma FirstOrRest(branches: seq<Branch>, k: string)
    requires branches != []
    ensures SomeBranchHas(branches, k) <==>
            (branches[0].tree.Some? && k in branches[0].tree.value) || SomeBranchHas(branches[1..], k)
  {
    assert forall b :: b in branches <==> b == branches[0] || b in branches[1..];
  }

  // ---------- Derivation chains ----------

  /** Versions of one thing, from the oldest to the newest, each derived from the one before. */
  ghost predicate IsChain(chain: seq<Version>) {
    && (forall i :: 0 < i < |chain| ==>
          IsDerivation(chain[i]) && chain[i].derivedFrom.value.value == chain[i - 1].id && chain[i].kind == chain[0].kind)
    && (forall i, j :: 0 <= i < j < |chain| ==> chain[i].id != chain[j].id)
  }

  /** The branch has every version of the chain under its id. */
  ghost predicate HasChain(db: Database, chain: seq<Version>) {
    forall i :: 0 <= i < |chain| ==> chain[i].id in db && db[chain[i].id] == chain[i]
  }

  lemma {:induction false} NewerDerivesFromOlder(db: Database, rank: Version -> nat, chain: seq<Version>, i: nat, j: nat)
    requires Acyclic(db, rank) && IsChain(chain) && HasChain(db, chain) && i < j < |chain|
    ensures DerivesFrom(db, rank, chain[j], chain[i].id) == Done(true)
    decreases j
  {
    assert chain[j].derivedFrom.value.value == chain[j - 1].id;
    if i < j - 1 {
      NewerDerivesFromOlder(db, rank, chain, i, j - 1);
    }
  }

  /** Ids on a chain go up in rank in any branch that has the chain. */
  lemma {:induction false} ChainGoesUp(db: Database, rank: Version -> nat, chain: seq<Version>, i: nat, j: nat)
    requires Acyclic(db, rank) && IsChain(chain) && HasChain(db, chain) && i < j < |chain|
    ensures rank(chain[i]) < rank(chain[j])
    decreases j
  {
    assert chain[j].derivedFrom.value.value == chain[j - 1].id;
    if i < j - 1 {
      ChainGoesUp(db, rank, chain, i, j - 1);
    }
  }

  lemma OlderDoesNotDeriveFromNewer(db: Database, remoteDb: Database, rank: Version -> nat, chain: seq<Version>, i: nat, j: nat)
    requires Acyclic(db, rank) && Acyclic(remoteDb, rank) && KeyedById(db) && IsChain(chain) && HasChain(remoteDb, chain)
    requires i < j < |chain| && (chain[j].id in db ==> db[chain[j].id] == chain[j])
    ensures DerivesFrom(db, rank, chain[i], chain[j].id) != Done(true)
  {
    if DerivesFrom(db, rank, chain[i], chain[j].id) == Done(true) {
      FoundIdsAreStored(db, rank, chain[i], chain[j].id);
      DerivesFromLower(db, rank, chain[i], chain[j]);
      ChainGoesUp(remoteDb, rank, chain, i, j);
    }
  }

  lemma {:induction false} FoundIdsAreStored(db: Database, rank: Version -> nat, v: Version, id: string)
    requires Acyclic(db, rank) && KeyedById(db) && DerivesFrom(db, rank, v, id) == Done(true)
    ensures id in db
    decreases rank(v)
  {
    var parent := db[v.derivedFrom.value.value];
    if parent.id != id {
      FoundIdsAreStored(db, rank, parent, id);
    }
  }

  /** The branch has, under the ids of the chain, nothing but the versions of the chain. */
  ghost predicate AgreesWith(db: Database, chain: seq<Version>) {
    KeyedById(db) && forall i :: 0 <= i < |chain| && chain[i].id in db ==> db[chain[i].id] == chain[i]
  }

  /** Walking down the chain either finds the older version or misses one in between. */
  lemma {:induction false} WalkDownChain(db: Database, rank: Version -> nat, chain: seq<Version>, i: nat, j: nat)
    requires Acyclic(db, rank) && IsChain(chain) && AgreesWith(db, chain) && j < i < |chain|
    ensures DerivesFrom(db, rank, chain[i], chain[j].id) ==
            if forall k :: j <= k < i ==> chain[k].id in db then Done(true) else Raised
    decreases i
  {
    assert chain[i].derivedFrom.value.value == chain[i - 1].id;
    if chain[i - 1].id in db && j < i - 1 {
      WalkDownChain(db, rank, chain, i - 1, j);
    }
  }

  /** A local version that is newer is kept exactly when every version in between can be looked up; otherwise one is not found. */
  lemma LocalNewerIsKeptIff(localDb: Database, remoteDb: Database, rank: Version -> nat, chain: seq<Version>, i: nat, j: nat)
    requires Acyclic(localDb, rank) && Acyclic(remoteDb, rank) && IsChain(chain) && AgreesWith(localDb, chain)
    requires j < i < |chain|
    ensures Compare(Object(chain[i]), Object(chain[j]), localDb, remoteDb, rank) ==
            if forall k :: j <= k < i ==> chain[k].id in localDb then Ok(Some(Object(chain[i]))) else Err(NotFound)
  {
    WalkDownChain(localDb, rank, chain, i, j);
    if chain[i].kind == PlanKind {
      assert chain[j].kind == PlanKind;
    }
  }

  /**
   A remote version that is newer is taken exactly when the local side can look up everything the local
   version derives from: the walk from the local version comes first, and otherwise does not find one.
   */
  lemma RemoteNewerIsTakenIff(localDb: Database, remoteDb: Database, rank: Version -> nat, chain: seq<Version>, i: nat, j: nat)
    requires Acyclic(localDb, rank) && Acyclic(remoteDb, rank) && IsChain(chain) && i < j < |chain|
    requires KeyedById(localDb) && (chain[j].id in localDb ==> localDb[chain[j].id] == chain[j])
    requires HasChain(remoteDb, chain[..j + 1])
    ensures Compare(Object(chain[i]), Object(chain[j]), localDb, remoteDb, rank) ==
            if HasAncestors(localDb, rank, chain[i]) then Ok(Some(Object(chain[j]))) else Err(NotFound)
  {
    var known := chain[..j + 1];
    assert IsChain(known) && known[i] == chain[i] && known[j] == chain[j];
    OlderDoesNotDeriveFromNewer(localDb, remoteDb, rank, known, i, j);
    WalkCompletesIff(localDb, rank, chain[i], chain[j].id);
    NewerDerivesFromOlder(remoteDb, rank, known, i, j);
    assert chain[i].kind == chain[j].kind;
  }
}
