/** Merging any number of branches, as seen from one key: when the newest version of a chain wins. */
module OctopusLaws {
  import opened Common
  import opened Derivations
  import opened Merge
  import opened MergeLaws

  // ---------- One branch, also when it is passed over half way ----------

  /** What the conflict under a key is settled with. */
  ghost function SettledAt(local: Tree, remote: Tree, b: Branch, localDb: Database, rank: Version -> nat, k: string): Result<Entry>
    requires Acyclic(localDb, rank) && Acyclic(b.database, rank) && k in local && k in remote
  {
    Settle(local[k], remote[k], Answer(b, k), localDb, b.database, rank)
  }

  /** Do the conflicts before this key get settled, so that its turn comes? */
  ghost predicate Reached(local: Tree, remote: Tree, b: Branch, localDb: Database, rank: Version -> nat, key: string)
    requires Acyclic(localDb, rank) && Acyclic(b.database, rank)
  {
    forall k :: k in Conflicts(local, remote) && k != key && StringLeq(k, key) ==> SettledAt(local, remote, b, localDb, rank, k).Ok?
  }

  ghost predicate AllSettle(local: Tree, remote: Tree, keys: seq<string>, b: Branch, localDb: Database, rank: Version -> nat)
    requires Acyclic(localDb, rank) && Acyclic(b.database, rank)
    requires forall k :: k in keys ==> k in local && k in remote
  {
    forall k :: k in keys ==> SettledAt(local, remote, b, localDb, rank, k).Ok?
  }

  lemma AllSettleFirst(acc: Tree, acc': Tree, remote: Tree, keys: seq<string>, b: Branch, localDb: Database, rank: Version -> nat)
    requires Acyclic(localDb, rank) && Acyclic(b.database, rank) && keys != []
    requires forall k :: k in keys ==> k in acc && k in remote
    requires forall k :: k in keys[1..] ==> k in acc' && acc'[k] == acc[k]
    ensures keys[0] in keys && forall k :: k in keys[1..] ==> k in keys
    ensures AllSettle(acc, remote, keys, b, localDb, rank) <==>
            SettledAt(acc, remote, b, localDb, rank, keys[0]).Ok? && AllSettle(acc', remote, keys[1..], b, localDb, rank)
  {
    assert forall k :: k in keys <==> k == keys[0] || k in keys[1..];
  }

  /** Settling in order changes a key exactly if it and everything before it is settled. */
  lemma {:induction false} SettleAllLeaves(acc: Tree, remote: Tree, before: seq<string>, key: string, after: seq<string>,
                                           b: Branch, localDb: Database, rank: Version -> nat)
    requires Acyclic(localDb, rank) && Acyclic(b.database, rank)
    requires key in acc && key in remote && NoDuplicates(before + [key] + after)
    requires (forall k :: k in before ==> k in acc && k in remote) && forall k :: k in after ==> k in acc && k in remote
    ensures forall k :: k in before + [key] + after ==> k in acc && k in remote
    ensures var settled := SettledAt(acc, remote, b, localDb, rank, key);
            var m := SettleAll(acc, remote, before + [key] + after, b, localDb, rank);
            && key in m.tree
            && m.tree[key] == (if settled.Ok? && AllSettle(acc, remote, before, b, localDb, rank) then settled.value else acc[key])
            && (settled.Err? && AllSettle(acc, remote, before, b, localDb, rank) ==> m.failure == Some(settled.failure))
    decreases |before|
  {
    var keys := before + [key] + after;
    assert keys[0] in keys && forall k :: k in keys[1..] ==> k in keys;
    var first := SettledAt(acc, remote, b, localDb, rank, keys[0]);
    if before == [] {
      assert keys[0] == key && keys[1..] == after;
      if first.Ok? {
        SettleAllKeepsKeys(acc[key := first.value], remote, after, b, localDb, rank);
      }
    } else {
      assert keys[0] == before[0] && keys[1..] == before[1..] + [key] + after;
      assert forall j :: 0 <= j < |before| ==> keys[j] == before[j];
      assert key == keys[|before|] && forall k :: k in before[1..] ==> k in before;
      AllSettleFirst(acc, acc[keys[0] := if first.Ok? then first.value else acc[keys[0]]], remote, before, b, localDb, rank);
      if first.Ok? {
        SettleAllLeaves(acc[keys[0] := first.value], remote, before[1..], key, after, b, localDb, rank);
      }
    }
  }

  /** In a sorted list, what comes before an element is what is smaller. */
  lemma SortedBefore(keys: seq<string>, i: nat, j: nat)
    requires NoDuplicates(keys) && (forall a, b :: 0 <= a < b < |keys| ==> StringLeq(keys[a], keys[b]))
    requires i < |keys| && j < |keys|
    ensures j < i <==> keys[j] != keys[i] && StringLeq(keys[j], keys[i])
  {
    StringLeqTotal(keys[i], keys[j]);
  }

  lemma SmallerComesBefore(keys: seq<string>, i: nat, k: string)
    requires NoDuplicates(keys) && (forall a, b :: 0 <= a < b < |keys| ==> StringLeq(keys[a], keys[b]))
    requires i < |keys|
    ensures k in keys[..i] <==> k in keys && k != keys[i] && StringLeq(k, keys[i])
  {
    if k in keys {
      var j :| 0 <= j < |keys| && keys[j] == k;
      SortedBefore(keys, i, j);
      assert j < i ==> keys[..i][j] == k;
    }
    assert forall j :: 0 <= j < i ==> keys[..i][j] == keys[j];
    if k in keys[..i] {
      var j :| 0 <= j < i && keys[j] == k;
      SortedBefore(keys, i, j);
    }
  }

  lemma ReachedIffAllBefore(local: Tree, remote: Tree, acc: Tree, keys: seq<string>, i: nat, b: Branch, localDb: Database, rank: Version -> nat)
    requires Acyclic(localDb, rank) && Acyclic(b.database, rank)
    requires NoDuplicates(keys) && (forall a, b :: 0 <= a < b < |keys| ==> StringLeq(keys[a], keys[b])) && i < |keys|
    requires forall k :: k in keys <==> k in Conflicts(local, remote)
    requires forall k :: k in local ==> k in acc && acc[k] == local[k]
    ensures forall k :: k in keys[..i] ==> k in keys
    ensures Reached(local, remote, b, localDb, rank, keys[i]) <==> AllSettle(acc, remote, keys[..i], b, localDb, rank)
  {
    forall k ensures k in keys[..i] <==> k in keys && k != keys[i] && StringLeq(k, keys[i]) {
      SmallerComesBefore(keys, i, k);
    }
    assert forall k :: k in keys ==> SettledAt(acc, remote, b, localDb, rank, k) == SettledAt(local, remote, b, localDb, rank, k);
  }

  lemma SplitAtKey(keys: seq<string>, key: string) returns (i: nat)
    requires key in keys
    ensures i < |keys| && keys[i] == key && keys == keys[..i] + [key] + keys[i + 1..]
    ensures forall k :: k in keys[..i] || k in keys[i + 1..] ==> k in keys
  {
    i :| 0 <= i < |keys| && keys[i] == key;
  }

  /** What stands under a key after one branch, whether or not the branch is passed over. */
  lemma SettlingLeaves(local: Tree, remote: Tree, keys: seq<string>, b: Branch, localDb: Database, rank: Version -> nat, key: string)
    requires Acyclic(localDb, rank) && Acyclic(b.database, rank)
    requires NoDuplicates(keys) && (forall a, b :: 0 <= a < b < |keys| ==> StringLeq(keys[a], keys[b]))
    requires key in keys && forall k :: k in keys <==> k in Conflicts(local, remote)
    ensures var settled := SettledAt(local, remote, b, localDb, rank, key);
            var m := SettleAll(Copied(local, remote), remote, keys, b, localDb, rank);
            && key in m.tree
            && m.tree[key] == (if settled.Ok? && Reached(local, remote, b, localDb, rank, key) then settled.value else local[key])
            && (settled.Err? && Reached(local, remote, b, localDb, rank, key) ==> m.failure == Some(settled.failure))
  {
    var i := SplitAtKey(keys, key);
    var acc := Copied(local, remote);
    SettleAllLeaves(acc, remote, keys[..i], key, keys[i + 1..], b, localDb, rank);
    ReachedIffAllBefore(local, remote, acc, keys, i, b, localDb, rank);
  }

  lemma MergeTreeLeaves(local: Tree, remote: Tree, b: Branch, localDb: Database, rank: Version -> nat, key: string)
    requires Acyclic(localDb, rank) && Acyclic(b.database, rank)
    requires key in Conflicts(local, remote)
    ensures var settled := SettledAt(local, remote, b, localDb, rank, key);
            var m := MergeTree(local, remote, b, localDb, rank);
            && key in m.tree
            && m.tree[key] == (if settled.Ok? && Reached(local, remote, b, localDb, rank, key) then settled.value else local[key])
            && (settled.Err? && Reached(local, remote, b, localDb, rank, key) ==> m.failure == Some(settled.failure))
  {
    SettlingLeaves(local, remote, Sorted(Conflicts(local, remote)), b, localDb, rank, key);
  }

  lemma MergeTreeCopies(local: Tree, remote: Tree, b: Branch, localDb: Database, rank: Version -> nat, key: string)
    requires Acyclic(localDb, rank) && Acyclic(b.database, rank)
    requires key !in Conflicts(local, remote)
    ensures var tree := MergeTree(local, remote, b, localDb, rank).tree;
            && (key in tree <==> key in local || key in remote)
            && (key in tree ==> tree[key] == if key in local then local[key] else remote[key])
  {
    SettleAllKeepsKeys(Copied(local, remote), remote, Sorted(Conflicts(local, remote)), b, localDb, rank);
  }

  // ---------- Positions on a chain ----------

  /** The record has the version at this position of the chain under the key, or nothing. */
  ghost predicate At(tree: Tree, key: string, chain: seq<Version>, position: Option<nat>) {
    match position
    case None => key !in tree
    case Some(i) => i < |chain| && key in tree && tree[key] == Object(chain[i])
  }

  function Later(a: Option<nat>, b: Option<nat>): Option<nat> {
    if a.None? then b else if b.None? then a else if a.value < b.value then b else a
  }

  function Newest(positions: seq<Option<nat>>): Option<nat> {
    if positions == [] then None else Later(positions[0], Newest(positions[1..]))
  }

  predicate IsNewer(q: Option<nat>, p: Option<nat>) {
    p.Some? && q.Some? && p.value < q.value
  }

  /** A branch has the version at a position under the key, and can look up what it derives from on the chain. */
  ghost predicate BranchAt(b: Branch, key: string, chain: seq<Version>, q: Option<nat>) {
    && (if b.tree.None? then q.None? else At(b.tree.value, key, chain, q))
    && (q.Some? ==> q.value < |chain| && HasChain(b.database, chain[..q.value + 1]))
  }

  /** Can the local side look up everything that the version at this position derives from? */
  ghost predicate KnowsHistory(localDb: Database, rank: Version -> nat, chain: seq<Version>, p: Option<nat>)
    requires Acyclic(localDb, rank)
  {
    p.Some? && p.value < |chain| && HasAncestors(localDb, rank, chain[p.value])
  }

  lemma DifferentVersions(chain: seq<Version>, i: nat, j: nat)
    requires IsChain(chain) && i < |chain| && j < |chain| && i != j
    ensures chain[i].id != chain[j].id && OidOf(Object(chain[i])) != OidOf(Object(chain[j]))
  {
  }

  /** The branch's version is newer, but the key's turn does not come or the local history is not known. */
  ghost predicate Overlooked(local: Tree, b: Branch, localDb: Database, rank: Version -> nat,
                             key: string, chain: seq<Version>, p: Option<nat>, q: Option<nat>)
    requires Acyclic(localDb, rank) && Acyclic(b.database, rank)
  {
    && IsNewer(q, p) && b.tree.Some?
    && !(Reached(local, b.tree.value, b, localDb, rank, key) && KnowsHistory(localDb, rank, chain, p))
  }

  /** What a conflict between two versions of the chain is settled with. */
  lemma ChainSettles(local: Tree, remote: Tree, b: Branch, localDb: Database, rank: Version -> nat,
                     key: string, chain: seq<Version>, p: nat, q: nat)
    requires Acyclic(localDb, rank) && Acyclic(b.database, rank) && IsChain(chain) && AgreesWith(localDb, chain)
    requires At(local, key, chain, Some(p)) && At(remote, key, chain, Some(q)) && p != q
    requires HasChain(b.database, chain[..q + 1])
    ensures key in Conflicts(local, remote)
    ensures var settled := SettledAt(local, remote, b, localDb, rank, key);
            && (p < q ==> settled == if HasAncestors(localDb, rank, chain[p]) then Ok(remote[key]) else Err(NotFound))
            && (q < p ==> settled == Ok(local[key]) || settled == Err(NotFound))
  {
    DifferentVersions(chain, p, q);
    if p < q {
      RemoteNewerIsTakenIff(localDb, b.database, rank, chain, p, q);
    } else {
      LocalNewerIsKeptIff(localDb, b.database, rank, chain, p, q);
    }
  }

  lemma MergeTreeMoves(local: Tree, remote: Tree, b: Branch, localDb: Database, rank: Version -> nat,
                       key: string, chain: seq<Version>, p: Option<nat>, q: Option<nat>)
    requires Acyclic(localDb, rank) && Acyclic(b.database, rank) && IsChain(chain) && AgreesWith(localDb, chain)
    requires At(local, key, chain, p) && At(remote, key, chain, q) && b.tree == Some(remote)
    requires q.Some? ==> HasChain(b.database, chain[..q.value + 1])
    ensures At(MergeTree(local, remote, b, localDb, rank).tree, key, chain,
               if Overlooked(local, b, localDb, rank, key, chain, p, q) then p else Later(p, q))
  {
    if p.Some? && q.Some? && p != q {
      ChainSettles(local, remote, b, localDb, rank, key, chain, p.value, q.value);
      MergeTreeLeaves(local, remote, b, localDb, rank, key);
    } else {
      MergeTreeCopies(local, remote, b, localDb, rank, key);
    }
  }

  /** One branch moves a key to the branch's version exactly if that is newer and is not overlooked. */
  lemma NextMoves(o: Octopus, b: Branch, localDb: Database, rank: Version -> nat,
                  key: string, chain: seq<Version>, p: Option<nat>, q: Option<nat>)
    requires Acyclic(localDb, rank) && Acyclic(b.database, rank) && IsChain(chain) && AgreesWith(localDb, chain)
    requires o.failure.None? && At(o.tree, key, chain, p) && BranchAt(b, key, chain, q)
    ensures At(Next(o, b, localDb, rank).tree, key, chain,
               if Overlooked(o.tree, b, localDb, rank, key, chain, p, q) then p else Later(p, q))
  {
    if b.tree.Some? {
      MergeTreeMoves(o.tree, b.tree.value, b, localDb, rank, key, chain, p, q);
      AfterKeepsTree(o, MergeTree(o.tree, b.tree.value, b, localDb, rank));
    }
  }

  // ---------- All branches ----------

  ghost predicate Arranged(branches: seq<Branch>, localDb: Database, key: string, chain: seq<Version>, positions: seq<Option<nat>>) {
    && IsChain(chain) && AgreesWith(localDb, chain)
    && |positions| == |branches| && forall i :: 0 <= i < |branches| ==> BranchAt(branches[i], key, chain, positions[i])
  }

  lemma ArrangedNext(branches: seq<Branch>, localDb: Database, rank: Version -> nat, key: string, chain: seq<Version>,
                     positions: seq<Option<nat>>)
    requires BranchesAcyclic(branches, rank) && |branches| == |positions| && branches != []
    ensures Acyclic(branches[0].database, rank) && BranchesAcyclic(branches[1..], rank)
    ensures Arranged(branches, localDb, key, chain, positions) ==>
              BranchAt(branches[0], key, chain, positions[0]) && Arranged(branches[1..], localDb, key, chain, positions[1..])
  {
    assert branches[0] in branches && forall b :: b in branches[1..] ==> b in branches;
  }

  /** The position under the key after all branches. */
  ghost function Position(o: Octopus, branches: seq<Branch>, localDb: Database, rank: Version -> nat,
                          key: string, chain: seq<Version>, p: Option<nat>, positions: seq<Option<nat>>): Option<nat>
    requires Acyclic(localDb, rank) && BranchesAcyclic(branches, rank) && |positions| == |branches|
    decreases |branches|
  {
    if branches == [] then p else
      ArrangedNext(branches, localDb, rank, key, chain, positions);
      var next := if Overlooked(o.tree, branches[0], localDb, rank, key, chain, p, positions[0]) then p else Later(p, positions[0]);
      Position(Next(o, branches[0], localDb, rank), branches[1..], localDb, rank, key, chain, next, positions[1..])
  }

  lemma {:induction false} MergeFollowsPosition(o: Octopus, branches: seq<Branch>, localDb: Database, rank: Version -> nat,
                                                key: string, chain: seq<Version>, p: Option<nat>, positions: seq<Option<nat>>)
    requires Acyclic(localDb, rank) && BranchesAcyclic(branches, rank) && Arranged(branches, localDb, key, chain, positions)
    requires o.failure.None? && At(o.tree, key, chain, p)
    requires MergeBranches(o, branches, localDb, rank).failure.None?
    ensures At(MergeBranches(o, branches, localDb, rank).tree, key, chain,
               Position(o, branches, localDb, rank, key, chain, p, positions))
    decreases |branches|
  {
    if branches != [] {
      var b := branches[0];
      ArrangedNext(branches, localDb, rank, key, chain, positions);
      var next := Next(o, b, localDb, rank);
      if next.failure.Some? {
        FailureStays(next, branches[1..], localDb, rank);
      } else {
        NextMoves(o, b, localDb, rank, key, chain, p, positions[0]);
        var moved := if Overlooked(o.tree, b, localDb, rank, key, chain, p, positions[0]) then p else Later(p, positions[0]);
        MergeFollowsPosition(next, branches[1..], localDb, rank, key, chain, moved, positions[1..]);
      }
    }
  }

  /**
   Whenever a branch brings a newer version, the history of the local one is known; and the branch is
   not passed over before the key's turn, unless a later branch brings a version that is as new.
   */
  ghost predicate NoneIsMissed(o: Octopus, branches: seq<Branch>, localDb: Database, rank: Version -> nat,
                               key: string, chain: seq<Version>, p: Option<nat>, positions: seq<Option<nat>>)
    requires Acyclic(localDb, rank) && BranchesAcyclic(branches, rank) && |positions| == |branches|
    decreases |branches|
  {
    branches == [] ||
    (ArrangedNext(branches, localDb, rank, key, chain, positions);
     var b, q, later := branches[0], positions[0], positions[1..];
     var next := Next(o, b, localDb, rank);
     if Overlooked(o.tree, b, localDb, rank, key, chain, p, q) then
       && KnowsHistory(localDb, rank, chain, p) && Later(q, Newest(later)) == Newest(later)
       && NoneIsMissed(next, branches[1..], localDb, rank, key, chain, p, later)
     else NoneIsMissed(next, branches[1..], localDb, rank, key, chain, Later(p, q), later))
  }

  /** Without its history, a version is never replaced. */
  lemma {:induction false} UnknownHistoryStays(o: Octopus, branches: seq<Branch>, localDb: Database, rank: Version -> nat,
                                               key: string, chain: seq<Version>, p: Option<nat>, positions: seq<Option<nat>>)
    requires Acyclic(localDb, rank) && BranchesAcyclic(branches, rank) && Arranged(branches, localDb, key, chain, positions)
    requires p.Some? && !KnowsHistory(localDb, rank, chain, p)
    ensures Position(o, branches, localDb, rank, key, chain, p, positions) == p
    decreases |branches|
  {
    if branches != [] {
      ArrangedNext(branches, localDb, rank, key, chain, positions);
      assert Overlooked(o.tree, branches[0], localDb, rank, key, chain, p, positions[0]) || Later(p, positions[0]) == p;
      UnknownHistoryStays(Next(o, branches[0], localDb, rank), branches[1..], localDb, rank, key, chain, p, positions[1..]);
    }
  }

  predicate NotAbove(a: Option<nat>, b: Option<nat>) {
    Later(a, b) == b
  }

  lemma {:induction false} PositionIsBounded(o: Octopus, branches: seq<Branch>, localDb: Database, rank: Version -> nat,
                                             key: string, chain: seq<Version>, p: Option<nat>, positions: seq<Option<nat>>)
    requires Acyclic(localDb, rank) && BranchesAcyclic(branches, rank) && |positions| == |branches|
    ensures NotAbove(Position(o, branches, localDb, rank, key, chain, p, positions), Later(p, Newest(positions)))
    decreases |branches|
  {
    if branches != [] {
      ArrangedNext(branches, localDb, rank, key, chain, positions);
      var next := if Overlooked(o.tree, branches[0], localDb, rank, key, chain, p, positions[0]) then p else Later(p, positions[0]);
      PositionIsBounded(Next(o, branches[0], localDb, rank), branches[1..], localDb, rank, key, chain, next, positions[1..]);
    }
  }

  lemma {:induction false} PositionIsNewestIff(o: Octopus, branches: seq<Branch>, localDb: Database, rank: Version -> nat,
                                               key: string, chain: seq<Version>, p: Option<nat>, positions: seq<Option<nat>>)
    requires Acyclic(localDb, rank) && BranchesAcyclic(branches, rank) && Arranged(branches, localDb, key, chain, positions)
    ensures Position(o, branches, localDb, rank, key, chain, p, positions) == Later(p, Newest(positions)) <==>
            NoneIsMissed(o, branches, localDb, rank, key, chain, p, positions)
    decreases |branches|
  {
    if branches != [] {
      var b, q, later := branches[0], positions[0], positions[1..];
      ArrangedNext(branches, localDb, rank, key, chain, positions);
      var next := Next(o, b, localDb, rank);
      if !Overlooked(o.tree, b, localDb, rank, key, chain, p, q) {
        PositionIsNewestIff(next, branches[1..], localDb, rank, key, chain, Later(p, q), later);
      } else if !KnowsHistory(localDb, rank, chain, p) {
        UnknownHistoryStays(o, branches, localDb, rank, key, chain, p, positions);
      } else {
        PositionIsNewestIff(next, branches[1..], localDb, rank, key, chain, p, later);
        PositionIsBounded(next, branches[1..], localDb, rank, key, chain, p, later);
      }
    }
  }

  lemma OnePosition(tree: Tree, key: string, chain: seq<Version>, a: Option<nat>, b: Option<nat>)
    requires IsChain(chain) && At(tree, key, chain, a) && At(tree, key, chain, b)
    ensures a == b
  {
    if a.Some? && b.Some? && a != b {
      DifferentVersions(chain, a.value, b.value);
    }
  }

  /** After a merge that is not broken off, the newest version stands under the key exactly if none is missed. */
  lemma NewestVersionWinsIff(o: Octopus, branches: seq<Branch>, localDb: Database, rank: Version -> nat,
                             key: string, chain: seq<Version>, p: Option<nat>, positions: seq<Option<nat>>)
    requires Acyclic(localDb, rank) && BranchesAcyclic(branches, rank) && Arranged(branches, localDb, key, chain, positions)
    requires o.failure.None? && At(o.tree, key, chain, p)
    requires MergeBranches(o, branches, localDb, rank).failure.None?
    ensures At(MergeBranches(o, branches, localDb, rank).tree, key, chain, Later(p, Newest(positions))) <==>
            NoneIsMissed(o, branches, localDb, rank, key, chain, p, positions)
  {
    MergeFollowsPosition(o, branches, localDb, rank, key, chain, p, positions);
    PositionIsNewestIff(o, branches, localDb, rank, key, chain, p, positions);
    var tree := MergeBranches(o, branches, localDb, rank).tree;
    if At(tree, key, chain, Later(p, Newest(positions))) {
      OnePosition(tree, key, chain, Later(p, Newest(positions)), Position(o, branches, localDb, rank, key, chain, p, positions));
    }
  }

  // ---------- When nothing else gets in the way ----------

  /** In no branch does a conflict before this key fail. */
  ghost predicate AlwaysReached(o: Octopus, branches: seq<Branch>, localDb: Database, rank: Version -> nat, key: string)
    requires Acyclic(localDb, rank) && BranchesAcyclic(branches, rank)
    decreases |branches|
  {
    branches == [] ||
    (assert branches[0] in branches && forall b :: b in branches[1..] ==> b in branches;
     var b := branches[0];
     && (b.tree.Some? ==> Reached(o.tree, b.tree.value, b, localDb, rank, key))
     && AlwaysReached(Next(o, b, localDb, rank), branches[1..], localDb, rank, key))
  }

  /** Each version that is to be replaced has a history that the local side knows. */
  ghost predicate HistoriesKnown(localDb: Database, rank: Version -> nat, chain: seq<Version>, p: Option<nat>, positions: seq<Option<nat>>)
    requires Acyclic(localDb, rank)
    decreases |positions|
  {
    positions == [] ||
    (&& (IsNewer(positions[0], p) ==> KnowsHistory(localDb, rank, chain, p))
     && HistoriesKnown(localDb, rank, chain, Later(p, positions[0]), positions[1..]))
  }

  lemma {:induction false} NoneIsMissedIffHistoriesKnown(o: Octopus, branches: seq<Branch>, localDb: Database, rank: Version -> nat,
                                                         key: string, chain: seq<Version>, p: Option<nat>, positions: seq<Option<nat>>)
    requires Acyclic(localDb, rank) && BranchesAcyclic(branches, rank) && Arranged(branches, localDb, key, chain, positions)
    requires AlwaysReached(o, branches, localDb, rank, key)
    ensures NoneIsMissed(o, branches, localDb, rank, key, chain, p, positions) <==>
            HistoriesKnown(localDb, rank, chain, p, positions)
    decreases |branches|
  {
    if branches != [] {
      ArrangedNext(branches, localDb, rank, key, chain, positions);
      if !Overlooked(o.tree, branches[0], localDb, rank, key, chain, p, positions[0]) {
        NoneIsMissedIffHistoriesKnown(Next(o, branches[0], localDb, rank), branches[1..], localDb, rank,
                                      key, chain, Later(p, positions[0]), positions[1..]);
      }
    }
  }

  /** If no other conflict fails, the newest version wins exactly if every history is known when it is asked for. */
  lemma NewestVersionWinsIffHistoriesKnown(o: Octopus, branches: seq<Branch>, localDb: Database, rank: Version -> nat,
                                           key: string, chain: seq<Version>, p: Option<nat>, positions: seq<Option<nat>>)
    requires Acyclic(localDb, rank) && BranchesAcyclic(branches, rank) && Arranged(branches, localDb, key, chain, positions)
    requires o.failure.None? && At(o.tree, key, chain, p) && AlwaysReached(o, branches, localDb, rank, key)
    requires MergeBranches(o, branches, localDb, rank).failure.None?
    ensures At(MergeBranches(o, branches, localDb, rank).tree, key, chain, Later(p, Newest(positions))) <==>
            HistoriesKnown(localDb, rank, chain, p, positions)
  {
    NewestVersionWinsIff(o, branches, localDb, rank, key, chain, p, positions);
    NoneIsMissedIffHistoriesKnown(o, branches, localDb, rank, key, chain, p, positions);
  }

  /** Below the key, the two trees have nothing but what stands for the same thing. */
  ghost predicate SameBelow(tree: Tree, other: Tree, key: string) {
    forall k :: k in tree && k in other && k != key && StringLeq(k, key) ==> OidOf(tree[k]) == OidOf(other[k])
  }

  /** No key below this one is in conflict between any two of the trees that are merged. */
  ghost predicate NoConflictBelow(tree: Tree, branches: seq<Branch>, key: string) {
    && (forall b :: b in branches && b.tree.Some? ==> SameBelow(tree, b.tree.value, key))
    && (forall b, c :: b in branches && c in branches && b.tree.Some? && c.tree.Some? ==> SameBelow(b.tree.value, c.tree.value, key))
  }

  lemma MergingStaysSameBelow(local: Tree, remote: Tree, other: Tree, b: Branch, localDb: Database, rank: Version -> nat, key: string)
    requires Acyclic(localDb, rank) && Acyclic(b.database, rank)
    requires SameBelow(local, remote, key) && SameBelow(local, other, key) && SameBelow(remote, other, key)
    ensures SameBelow(MergeTree(local, remote, b, localDb, rank).tree, other, key)
  {
    var tree := MergeTree(local, remote, b, localDb, rank).tree;
    forall k | k in tree && k in other && k != key && StringLeq(k, key) ensures OidOf(tree[k]) == OidOf(other[k]) {
      assert k !in Conflicts(local, remote);
      MergeTreeCopies(local, remote, b, localDb, rank, k);
    }
  }

  /** Read off the inputs: if no smaller key is in conflict anywhere, the key's turn always comes. */
  lemma {:induction false} NoConflictBelowReaches(o: Octopus, branches: seq<Branch>, localDb: Database, rank: Version -> nat, key: string)
    requires Acyclic(localDb, rank) && BranchesAcyclic(branches, rank) && NoConflictBelow(o.tree, branches, key)
    ensures AlwaysReached(o, branches, localDb, rank, key)
    decreases |branches|
  {
    if branches != [] {
      var b := branches[0];
      assert b in branches && forall c :: c in branches[1..] ==> c in branches;
      if b.tree.Some? {
        forall c | c in branches[1..] && c.tree.Some? ensures SameBelow(Next(o, b, localDb, rank).tree, c.tree.value, key) {
          MergingStaysSameBelow(o.tree, b.tree.value, c.tree.value, b, localDb, rank, key);
          AfterKeepsTree(o, MergeTree(o.tree, b.tree.value, b, localDb, rank));
        }
        assert Reached(o.tree, b.tree.value, b, localDb, rank, key);
      }
      NoConflictBelowReaches(Next(o, b, localDb, rank), branches[1..], localDb, rank, key);
    }
  }

  // ---------- The order of the branches ----------

  lemma {:induction false} NewestIsGreatest(positions: seq<Option<nat>>, i: nat)
    ensures Newest(positions) == Some(i) <==> Some(i) in positions && forall j :: Some(j) in positions ==> j <= i
    decreases |positions|
  {
    if positions != [] {
      assert forall q :: q in positions <==> q == positions[0] || q in positions[1..];
      NewestIsGreatest(positions[1..], i);
      var rest := Newest(positions[1..]);
      if rest.Some? {
        NewestIsGreatest(positions[1..], rest.value);
      } else {
        NoneIsNewest(positions[1..]);
      }
    }
  }

  lemma {:induction false} NoneIsNewest(positions: seq<Option<nat>>)
    ensures Newest(positions).None? <==> forall j :: Some(j) !in positions
    decreases |positions|
  {
    if positions != [] {
      assert forall q :: q in positions <==> q == positions[0] || q in positions[1..];
      NoneIsNewest(positions[1..]);
    }
  }

  lemma NewestDependsOnMembers(positions: seq<Option<nat>>, positions': seq<Option<nat>>)
    requires forall q :: q in positions <==> q in positions'
    ensures Newest(positions) == Newest(positions')
  {
    if Newest(positions).Some? {
      NewestIsGreatest(positions, Newest(positions).value);
      NewestIsGreatest(positions', Newest(positions).value);
    } else {
      NoneIsNewest(positions);
      NoneIsNewest(positions');
    }
  }

  /** Two orders of the same branches leave the same version, if neither of them misses one. */
  lemma OrderDoesNotMatter(o: Octopus, branches: seq<Branch>, branches': seq<Branch>, localDb: Database, rank: Version -> nat,
                           key: string, chain: seq<Version>, p: Option<nat>, positions: seq<Option<nat>>, positions': seq<Option<nat>>)
    requires Acyclic(localDb, rank) && BranchesAcyclic(branches, rank) && BranchesAcyclic(branches', rank)
    requires Arranged(branches, localDb, key, chain, positions) && Arranged(branches', localDb, key, chain, positions')
    requires o.failure.None? && At(o.tree, key, chain, p) && forall q :: q in positions <==> q in positions'
    requires MergeBranches(o, branches, localDb, rank).failure.None? && MergeBranches(o, branches', localDb, rank).failure.None?
    requires NoneIsMissed(o, branches, localDb, rank, key, chain, p, positions)
    ensures var tree, tree' := MergeBranches(o, branches, localDb, rank).tree, MergeBranches(o, branches', localDb, rank).tree;
            (key in tree <==> key in tree') && (key in tree ==> tree[key] == tree'[key]) <==>
              NoneIsMissed(o, branches', localDb, rank, key, chain, p, positions')
  {
    NewestDependsOnMembers(positions, positions');
    NewestVersionWinsIff(o, branches, localDb, rank, key, chain, p, positions);
    NewestVersionWinsIff(o, branches', localDb, rank, key, chain, p, positions');
  }

  // ---------- A record with one key ----------

  ghost predicate OneKeyEach(branches: seq<Branch>, key: string) {
    forall b :: b in branches && b.tree.Some? ==> b.tree.value.Keys == {key}
  }

  lemma SettleOne(acc: Tree, remote: Tree, b: Branch, localDb: Database, rank: Version -> nat, k: string)
    requires Acyclic(localDb, rank) && Acyclic(b.database, rank) && k in acc && k in remote
    ensures var settled := SettledAt(acc, remote, b, localDb, rank, k);
            SettleAll(acc, remote, [k], b, localDb, rank).failure == if settled.Ok? then None else Some(settled.failure)
  {
  }

  lemma SortedOne(s: set<string>, k: string)
    requires s == {k}
    ensures Sorted(s) == [k]
  {
    assert k in Sorted(s) && |Sorted(s)| == 1;
  }

  lemma OneKeyMerge(local: Tree, remote: Tree, b: Branch, localDb: Database, rank: Version -> nat,
                    key: string, chain: seq<Version>, p: nat, q: nat)
    requires Acyclic(localDb, rank) && Acyclic(b.database, rank) && IsChain(chain) && AgreesWith(localDb, chain)
    requires At(local, key, chain, Some(p)) && At(remote, key, chain, Some(q)) && HasChain(b.database, chain[..q + 1])
    requires Conflicts(local, remote) <= {key}
    ensures var m := MergeTree(local, remote, b, localDb, rank); m.failure == None || m.failure == Some(NotFound)
  {
    if key in Conflicts(local, remote) {
      SortedOne(Conflicts(local, remote), key);
      SettleOne(Copied(local, remote), remote, b, localDb, rank, key);
      assert p != q;
      ChainSettles(local, remote, b, localDb, rank, key, chain, p, q);
    } else {
      assert Conflicts(local, remote) == {};
    }
  }

  lemma OneKeyIsNotFatal(o: Octopus, b: Branch, localDb: Database, rank: Version -> nat,
                         key: string, chain: seq<Version>, p: nat, q: nat)
    requires Acyclic(localDb, rank) && Acyclic(b.database, rank) && IsChain(chain) && AgreesWith(localDb, chain)
    requires o.failure.None? && At(o.tree, key, chain, Some(p)) && BranchAt(b, key, chain, Some(q))
    requires o.tree.Keys == {key} && b.tree.value.Keys == {key}
    ensures var next := Next(o, b, localDb, rank); next.failure.None? && next.tree.Keys == {key}
    ensures Reached(o.tree, b.tree.value, b, localDb, rank, key)
  {
    assert forall k :: k in Conflicts(o.tree, b.tree.value) ==> k in o.tree.Keys;
    MergeTreeKeepsAllKeys(o.tree, b.tree.value, b, localDb, rank);
    OneKeyMerge(o.tree, b.tree.value, b, localDb, rank, key, chain, p, q);
    AfterKeepsTree(o, MergeTree(o.tree, b.tree.value, b, localDb, rank));
  }

  lemma {:induction false} OneKeyIsAlwaysReached(o: Octopus, branches: seq<Branch>, localDb: Database, rank: Version -> nat,
                                                 key: string, chain: seq<Version>, p: Option<nat>, positions: seq<Option<nat>>)
    requires Acyclic(localDb, rank) && BranchesAcyclic(branches, rank) && Arranged(branches, localDb, key, chain, positions)
    requires o.failure.None? && At(o.tree, key, chain, p) && o.tree.Keys == {key} && OneKeyEach(branches, key)
    ensures MergeBranches(o, branches, localDb, rank).failure.None?
    ensures AlwaysReached(o, branches, localDb, rank, key)
    decreases |branches|
  {
    if branches != [] {
      var b := branches[0];
      ArrangedNext(branches, localDb, rank, key, chain, positions);
      assert b in branches && forall c :: c in branches[1..] ==> c in branches;
      if b.tree.Some? {
        assert key in b.tree.value.Keys && key in o.tree.Keys;
        OneKeyIsNotFatal(o, b, localDb, rank, key, chain, p.value, positions[0].value);
      }
      NextMoves(o, b, localDb, rank, key, chain, p, positions[0]);
      var next := if Overlooked(o.tree, b, localDb, rank, key, chain, p, positions[0]) then p else Later(p, positions[0]);
      OneKeyIsAlwaysReached(Next(o, b, localDb, rank), branches[1..], localDb, rank, key, chain, next, positions[1..]);
    }
  }

  // ---------- An order that hides the newest version ----------

  const FIRST := Version(DatasetKind, "1", None, false)
  const SECOND := Version(DatasetKind, "2", Some(Source("1", None)), false)
  const THIRD := Version(DatasetKind, "3", Some(Source("2", None)), false)
  const FOURTH := Version(DatasetKind, "4", Some(Source("3", None)), false)
  const VERSIONS := [FIRST, SECOND, THIRD, FOURTH]

  const LOCAL_DATABASE: Database := map["1" := FIRST]
  const OLD_BRANCH := Branch(Some(map["k" := Object(THIRD)]), map["1" := FIRST, "2" := SECOND, "3" := THIRD], map[])
  const NEW_BRANCH := Branch(Some(map["k" := Object(FOURTH)]), map["1" := FIRST, "2" := SECOND, "3" := THIRD, "4" := FOURTH], map[])
  const START := Octopus(map["k" := Object(FIRST)], false, None)

  function Depth(v: Version): nat {
    if v == FIRST then 1 else if v == SECOND then 2 else if v == THIRD then 3 else if v == FOURTH then 4 else 5
  }

  lemma VersionsAreAChain()
    ensures IsChain(VERSIONS) && AgreesWith(LOCAL_DATABASE, VERSIONS)
    ensures BranchAt(OLD_BRANCH, "k", VERSIONS, Some(2)) && BranchAt(NEW_BRANCH, "k", VERSIONS, Some(3))
  {
  }

  lemma VersionsAreAcyclic()
    ensures Acyclic(LOCAL_DATABASE, Depth) && Acyclic(OLD_BRANCH.database, Depth) && Acyclic(NEW_BRANCH.database, Depth)
  {
  }

  lemma MergeOfExample(branches: seq<Branch>, positions: seq<Option<nat>>)
    requires Acyclic(LOCAL_DATABASE, Depth) && BranchesAcyclic(branches, Depth)
    requires Arranged(branches, LOCAL_DATABASE, "k", VERSIONS, positions) && OneKeyEach(branches, "k")
    requires Newest(positions) == Some(3)
    ensures var o := MergeBranches(START, branches, LOCAL_DATABASE, Depth);
            && o.failure.None?
            && (At(o.tree, "k", VERSIONS, Some(3)) <==> HistoriesKnown(LOCAL_DATABASE, Depth, VERSIONS, Some(0), positions))
  {
    OneKeyIsAlwaysReached(START, branches, LOCAL_DATABASE, Depth, "k", VERSIONS, Some(0), positions);
    NewestVersionWinsIffHistoriesKnown(START, branches, LOCAL_DATABASE, Depth, "k", VERSIONS, Some(0), positions);
  }

  lemma ExampleHistories()
    requires Acyclic(LOCAL_DATABASE, Depth)
    ensures HistoriesKnown(LOCAL_DATABASE, Depth, VERSIONS, Some(0), [Some(3), Some(2)])
    ensures !HistoriesKnown(LOCAL_DATABASE, Depth, VERSIONS, Some(0), [Some(2), Some(3)])
  {
    assert [Some(2), Some(3)][1..] == [Some(3)] && [Some(3), Some(2)][1..] == [Some(2)];
    assert !KnowsHistory(LOCAL_DATABASE, Depth, VERSIONS, Some(2));
  }

  lemma NewestOfTwo(i: nat, j: nat)
    requires i < j
    ensures Newest([Some(i), Some(j)]) == Newest([Some(j), Some(i)]) == Some(j)
  {
    assert Newest([Some(i)]) == Some(i) && Newest([Some(j)]) == Some(j);
    assert [Some(i), Some(j)][1..] == [Some(j)] && [Some(j), Some(i)][1..] == [Some(i)];
    assert Newest([Some(i), Some(j)]) == Later(Some(i), Some(j));
  }

  /** The first version is the local one. The branch with the newest version wins if it comes first. */
  lemma NewBranchFirstWins(branches: seq<Branch>)
    requires branches == [NEW_BRANCH, OLD_BRANCH]
    ensures Acyclic(LOCAL_DATABASE, Depth) && BranchesAcyclic(branches, Depth)
    ensures var o := MergeBranches(START, branches, LOCAL_DATABASE, Depth); o.failure.None? && At(o.tree, "k", VERSIONS, Some(3))
  {
    VersionsAreAChain();
    VersionsAreAcyclic();
    NewestOfTwo(2, 3);
    MergeOfExample(branches, [Some(3), Some(2)]);
    ExampleHistories();
  }

  /** It is passed over if it comes second: by then the local side has a version it knows no history of. */
  lemma OldBranchFirstHidesNewest(branches: seq<Branch>)
    requires branches == [OLD_BRANCH, NEW_BRANCH]
    ensures Acyclic(LOCAL_DATABASE, Depth) && BranchesAcyclic(branches, Depth)
    ensures var o := MergeBranches(START, branches, LOCAL_DATABASE, Depth); o.failure.None? && !At(o.tree, "k", VERSIONS, Some(3))
  {
    VersionsAreAChain();
    VersionsAreAcyclic();
    NewestOfTwo(2, 3);
    MergeOfExample(branches, [Some(2), Some(3)]);
    ExampleHistories();
  }
}
