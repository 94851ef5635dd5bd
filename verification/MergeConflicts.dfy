/** Conflicts that a merge leaves to the user: which they are, and what the answers do. */
module MergeConflicts {
  import opened Common
  import opened Derivations
  import opened Merge
  import opened MergeLaws
  import opened OctopusLaws

  // ---------- What is left to the user ----------

  /** Whether following the derivations of an entry, of either kind, meets the other one. */
  ghost function Walk(child: Entry, other: Entry, db: Database, rank: Version -> nat): Outcome<bool>
    requires Acyclic(db, rank)
  {
    if child.Items? || !IsDerivation(child.version) then Done(false)
    else if other.Items? then Raised
    else DerivesFrom(db, rank, child.version, other.version.id)
  }

  /** The remote entry is asked first when it alone is a dataset. */
  predicate RemoteFirst(l: Entry, r: Entry) {
    l.Object? && l.version.kind == PlanKind && r.Object? && r.version.kind == DatasetKind
  }

  /** Lists are united when both have an oid of their own or neither has. */
  predicate AreMergedAsLists(l: Entry, r: Entry) {
    l.Items? && r.Items? && (l.oid.None? <==> r.oid.None?)
  }

  /** A derivation of something that the database has, compared with a list. */
  predicate ComparesWithList(child: Entry, other: Entry, db: Database) {
    child.Object? && IsDerivation(child.version) && other.Items? && child.version.derivedFrom.value.value in db
  }

  /** No walk decides and none raises, and the entries are neither the same nor lists that can be united. */
  ghost predicate Undecided(l: Entry, r: Entry, localDb: Database, remoteDb: Database, rank: Version -> nat)
    requires Acyclic(localDb, rank) && Acyclic(remoteDb, rank)
  {
    && !SameEntry(l, r)
    && Walk(l, r, localDb, rank) == Done(false)
    && Walk(r, l, remoteDb, rank) == Done(false)
    && !AreMergedAsLists(l, r)
  }

  /** The four questions come to two walks: the first that meets the other entry decides, the first that raises ends it. */
  lemma ComparisonIsTwoWalks(l: Entry, r: Entry, localDb: Database, remoteDb: Database, rank: Version -> nat)
    requires Acyclic(localDb, rank) && Acyclic(remoteDb, rank)
    ensures var kept := Compare(l, r, localDb, remoteDb, rank);
            var fromLocal, fromRemote := Walk(l, r, localDb, rank), Walk(r, l, remoteDb, rank);
            var first, second := if RemoteFirst(l, r) then fromRemote else fromLocal, if RemoteFirst(l, r) then fromLocal else fromRemote;
            && (SameEntry(l, r) ==> kept == Ok(Some(l)))
            && (!SameEntry(l, r) && first == Done(true) ==> kept == Ok(Some(if RemoteFirst(l, r) then r else l)))
            && (!SameEntry(l, r) && first == Done(false) && second == Done(true) ==> kept == Ok(Some(if RemoteFirst(l, r) then l else r)))
            && (kept.Err? <==> !SameEntry(l, r) && (first.Raised? || (first == Done(false) && second.Raised?)))
            && (kept == Ok(None) <==> Undecided(l, r, localDb, remoteDb, rank))
            && (!SameEntry(l, r) && AreMergedAsLists(l, r) ==> kept == Ok(Some(Items(l.oid, Extended(l.items, r.items)))))
  {
  }

  /** A comparison with a list that the walk starts on is a crash; any other failure is a lookup that fails. */
  lemma ComparisonCrashesIff(l: Entry, r: Entry, localDb: Database, remoteDb: Database, rank: Version -> nat)
    requires Acyclic(localDb, rank) && Acyclic(remoteDb, rank) && Compare(l, r, localDb, remoteDb, rank).Err?
    ensures Compare(l, r, localDb, remoteDb, rank).failure ==
            if ComparesWithList(l, r, localDb) || ComparesWithList(r, l, remoteDb) then Crashed else NotFound
  {
  }

  // ---------- What the answers do ----------

  ghost predicate Answers(b: Branch, key: string, answer: string) {
    key in b.answers && b.answers[key] == answer
  }

  /** The conflict under the key is one for the user, and its turn comes. */
  ghost predicate IsAsked(local: Tree, remote: Tree, b: Branch, localDb: Database, rank: Version -> nat, key: string)
    requires Acyclic(localDb, rank) && Acyclic(b.database, rank)
  {
    && key in Conflicts(local, remote)
    && Reached(local, remote, b, localDb, rank, key)
    && Undecided(local[key], remote[key], localDb, b.database, rank)
  }

  /** "l" keeps what the local side had, "r" takes what the remote side has, anything else or nothing breaks off the merge of the record. */
  lemma AnswerDecides(local: Tree, remote: Tree, b: Branch, localDb: Database, rank: Version -> nat, key: string)
    requires Acyclic(localDb, rank) && Acyclic(b.database, rank) && IsAsked(local, remote, b, localDb, rank, key)
    ensures var m := MergeTree(local, remote, b, localDb, rank);
            && key in m.tree
            && (Answers(b, key, "l") ==> m.tree[key] == local[key])
            && (Answers(b, key, "r") ==> m.tree[key] == remote[key])
            && (!Answers(b, key, "l") && !Answers(b, key, "r") ==> m.tree[key] == local[key] && m.failure == Some(Aborted))
  {
    AnswerSettles(local[key], remote[key], b, key, localDb, rank);
    MergeTreeLeaves(local, remote, b, localDb, rank, key);
  }

  lemma AnswerSettles(l: Entry, r: Entry, b: Branch, key: string, localDb: Database, rank: Version -> nat)
    requires Acyclic(localDb, rank) && Acyclic(b.database, rank) && Undecided(l, r, localDb, b.database, rank)
    ensures Settle(l, r, Answer(b, key), localDb, b.database, rank) ==
            if Answers(b, key, "l") then Ok(l) else if Answers(b, key, "r") then Ok(r) else Err(Aborted)
  {
    ComparisonIsTwoWalks(l, r, localDb, b.database, rank);
  }

  /** Two lists under a key are united, keeping the local one in front and its oid. */
  lemma ListsAreUnited(local: Tree, remote: Tree, b: Branch, localDb: Database, rank: Version -> nat, key: string)
    requires Acyclic(localDb, rank) && Acyclic(b.database, rank)
    requires key in Conflicts(local, remote) && Reached(local, remote, b, localDb, rank, key)
    requires AreMergedAsLists(local[key], remote[key])
    ensures var tree := MergeTree(local, remote, b, localDb, rank).tree;
            && key in tree && tree[key].Items? && tree[key].oid == local[key].oid
            && local[key].items <= tree[key].items
            && (forall x :: x in tree[key].items <==> x in local[key].items || x in remote[key].items)
            && (NoDuplicates(local[key].items) ==> NoDuplicates(tree[key].items))
  {
    ComparisonIsTwoWalks(local[key], remote[key], localDb, b.database, rank);
    MergeTreeLeaves(local, remote, b, localDb, rank, key);
    ExtendedIsUnion(local[key].items, remote[key].items);
  }

  /** Under a key that a walk decides stands the side that derives from the other. */
  lemma WalkDecides(local: Tree, remote: Tree, b: Branch, localDb: Database, rank: Version -> nat, key: string)
    requires Acyclic(localDb, rank) && Acyclic(b.database, rank)
    requires key in Conflicts(local, remote) && Reached(local, remote, b, localDb, rank, key) && !SameEntry(local[key], remote[key])
    ensures var tree := MergeTree(local, remote, b, localDb, rank).tree;
            var fromLocal, fromRemote := Walk(local[key], remote[key], localDb, rank), Walk(remote[key], local[key], b.database, rank);
            && key in tree
            && (fromLocal == Done(true) && fromRemote == Done(false) ==> tree[key] == local[key])
            && (fromLocal == Done(false) && fromRemote == Done(true) ==> tree[key] == remote[key])
  {
    ComparisonIsTwoWalks(local[key], remote[key], localDb, b.database, rank);
    MergeTreeLeaves(local, remote, b, localDb, rank, key);
  }

  /** A conflict comes up exactly if every smaller one is decided by a walk or as lists, or answered with "l" or "r". */
  lemma ReachedIffAnswered(local: Tree, remote: Tree, b: Branch, localDb: Database, rank: Version -> nat, key: string)
    requires Acyclic(localDb, rank) && Acyclic(b.database, rank)
    ensures Reached(local, remote, b, localDb, rank, key) <==>
            forall k :: k in Conflicts(local, remote) && k != key && StringLeq(k, key) ==>
              if Undecided(local[k], remote[k], localDb, b.database, rank) then Answers(b, k, "l") || Answers(b, k, "r")
              else Compare(local[k], remote[k], localDb, b.database, rank).Ok?
  {
    forall k | k in Conflicts(local, remote)
      ensures SettledAt(local, remote, b, localDb, rank, k).Ok? <==>
              if Undecided(local[k], remote[k], localDb, b.database, rank) then Answers(b, k, "l") || Answers(b, k, "r")
              else Compare(local[k], remote[k], localDb, b.database, rank).Ok?
    {
      ComparisonIsTwoWalks(local[k], remote[k], localDb, b.database, rank);
    }
  }

  // ---------- All branches ----------

  lemma {:induction false} MergeInTwo(o: Octopus, before: seq<Branch>, after: seq<Branch>, localDb: Database, rank: Version -> nat)
    requires Acyclic(localDb, rank) && BranchesAcyclic(before, rank) && BranchesAcyclic(after, rank)
    ensures BranchesAcyclic(before + after, rank)
    ensures MergeBranches(o, before + after, localDb, rank) == MergeBranches(MergeBranches(o, before, localDb, rank), after, localDb, rank)
    decreases |before|
  {
    if before == [] {
      assert before + after == after;
    } else {
      assert before[0] in before && forall b :: b in before[1..] ==> b in before;
      assert (before + after)[0] == before[0] && (before + after)[1..] == before[1..] + after;
      MergeInTwo(Next(o, before[0], localDb, rank), before[1..], after, localDb, rank);
    }
  }

  lemma FirstThenRest(o: Octopus, b: Branch, after: seq<Branch>, localDb: Database, rank: Version -> nat)
    requires Acyclic(localDb, rank) && Acyclic(b.database, rank) && BranchesAcyclic(after, rank)
    ensures BranchesAcyclic([b] + after, rank)
    ensures MergeBranches(o, [b] + after, localDb, rank) == MergeBranches(Next(o, b, localDb, rank), after, localDb, rank)
  {
    assert ([b] + after)[0] == b && ([b] + after)[1..] == after;
  }

  lemma UnansweredAbortsNext(o: Octopus, b: Branch, localDb: Database, rank: Version -> nat, key: string)
    requires Acyclic(localDb, rank) && Acyclic(b.database, rank) && o.failure.None? && b.tree.Some?
    requires IsAsked(o.tree, b.tree.value, b, localDb, rank, key) && !Answers(b, key, "l") && !Answers(b, key, "r")
    ensures Next(o, b, localDb, rank) == Octopus(MergeTree(o.tree, b.tree.value, b, localDb, rank).tree, o.merged, Some(Aborted))
  {
    AnswerDecides(o.tree, b.tree.value, b, localDb, rank, key);
  }

  /** A conflict without an answer ends the merge: no later branch is looked at, and it fails as aborted. */
  lemma UnansweredAborts(o: Octopus, before: seq<Branch>, b: Branch, after: seq<Branch>, localDb: Database, rank: Version -> nat, key: string)
    requires Acyclic(localDb, rank) && BranchesAcyclic(before, rank) && Acyclic(b.database, rank) && BranchesAcyclic(after, rank)
    requires MergeBranches(o, before, localDb, rank).failure.None? && b.tree.Some?
    requires IsAsked(MergeBranches(o, before, localDb, rank).tree, b.tree.value, b, localDb, rank, key)
    requires !Answers(b, key, "l") && !Answers(b, key, "r")
    ensures BranchesAcyclic(before + ([b] + after), rank)
    ensures var reached := MergeBranches(o, before, localDb, rank);
            MergeBranches(o, before + ([b] + after), localDb, rank) ==
            Octopus(MergeTree(reached.tree, b.tree.value, b, localDb, rank).tree, reached.merged, Some(Aborted))
  {
    var reached := MergeBranches(o, before, localDb, rank);
    UnansweredAbortsNext(reached, b, localDb, rank, key);
    var broken := Next(reached, b, localDb, rank);
    FailureStays(broken, after, localDb, rank);
    FirstThenRest(reached, b, after, localDb, rank);
    MergeInTwo(o, before, [b] + after, localDb, rank);
  }

  // ---------- When a merge succeeds ----------

  /** How merging this branch, after the ones before it, ends. */
  ghost function EndOf(o: Octopus, branches: seq<Branch>, i: nat, localDb: Database, rank: Version -> nat): Option<Failure>
    requires Acyclic(localDb, rank) && BranchesAcyclic(branches, rank) && i < |branches| && branches[i].tree.Some?
  {
    var b := branches[i];
    assert b in branches && forall c :: c in branches[..i] ==> c in branches;
    MergeTree(MergeBranches(o, branches[..i], localDb, rank).tree, b.tree.value, b, localDb, rank).failure
  }

  ghost predicate IsMergedAt(o: Octopus, branches: seq<Branch>, i: nat, localDb: Database, rank: Version -> nat)
    requires Acyclic(localDb, rank) && BranchesAcyclic(branches, rank) && i < |branches|
  {
    branches[i].tree.Some? && EndOf(o, branches, i, localDb, rank).None?
  }

  predicate Breaks(failure: Option<Failure>) {
    failure == Some(Aborted) || failure == Some(Crashed)
  }

  ghost predicate BreaksOffAt(o: Octopus, branches: seq<Branch>, i: nat, localDb: Database, rank: Version -> nat)
    requires Acyclic(localDb, rank) && BranchesAcyclic(branches, rank) && i < |branches|
  {
    branches[i].tree.Some? && Breaks(EndOf(o, branches, i, localDb, rank))
  }

  lemma EndOfFirst(o: Octopus, branches: seq<Branch>, localDb: Database, rank: Version -> nat)
    requires Acyclic(localDb, rank) && BranchesAcyclic(branches, rank) && branches != [] && branches[0].tree.Some?
    ensures Acyclic(branches[0].database, rank)
    ensures EndOf(o, branches, 0, localDb, rank) ==
            MergeTree(o.tree, branches[0].tree.value, branches[0], localDb, rank).failure
  {
    assert branches[0] in branches && branches[..0] == [];
  }

  lemma NextAfter(o: Octopus, b: Branch, localDb: Database, rank: Version -> nat, end: Option<Failure>)
    requires Acyclic(localDb, rank) && Acyclic(b.database, rank) && o.failure.None?
    requires b.tree.Some? ==> MergeTree(o.tree, b.tree.value, b, localDb, rank).failure == end
    ensures var next := Next(o, b, localDb, rank);
            && (next.failure.Some? <==> b.tree.Some? && Breaks(end))
            && (next.failure.None? ==> (next.merged <==> o.merged || (b.tree.Some? && end.None?)))
  {
    if b.tree.Some? {
      AfterEnds(o, MergeTree(o.tree, b.tree.value, b, localDb, rank));
    }
  }

  lemma FirstEnds(o: Octopus, branches: seq<Branch>, localDb: Database, rank: Version -> nat)
    requires Acyclic(localDb, rank) && BranchesAcyclic(branches, rank) && branches != [] && o.failure.None?
    ensures Acyclic(branches[0].database, rank)
    ensures var next := Next(o, branches[0], localDb, rank);
            && (next.failure.Some? <==> BreaksOffAt(o, branches, 0, localDb, rank))
            && (next.failure.None? ==> (next.merged <==> o.merged || IsMergedAt(o, branches, 0, localDb, rank)))
  {
    assert branches[0] in branches;
    if branches[0].tree.Some? {
      EndOfFirst(o, branches, localDb, rank);
      NextAfter(o, branches[0], localDb, rank, EndOf(o, branches, 0, localDb, rank));
    }
  }

  lemma AfterEnds(o: Octopus, m: Merged)
    requires o.failure.None?
    ensures After(o, m).failure.Some? <==> Breaks(m.failure)
    ensures After(o, m).failure.None? ==> (After(o, m).merged <==> o.merged || m.failure.None?)
  {
    if m.failure.Some? {
      assert m.failure.value.NotFound? || m.failure.value.Aborted? || m.failure.value.Crashed?;
    }
  }

  lemma LaterEnds(o: Octopus, branches: seq<Branch>, i: nat, localDb: Database, rank: Version -> nat)
    requires Acyclic(localDb, rank) && BranchesAcyclic(branches, rank) && i + 1 < |branches|
    ensures Acyclic(branches[0].database, rank) && BranchesAcyclic(branches[1..], rank)
    ensures var next := Next(o, branches[0], localDb, rank);
            && (IsMergedAt(o, branches, i + 1, localDb, rank) <==> IsMergedAt(next, branches[1..], i, localDb, rank))
            && (BreaksOffAt(o, branches, i + 1, localDb, rank) <==> BreaksOffAt(next, branches[1..], i, localDb, rank))
  {
    assert branches[0] in branches && forall c :: c in branches[1..] ==> c in branches;
    assert forall c :: c in branches[1..][..i] ==> c in branches;
    assert branches[..i + 1] == [branches[0]] + branches[1..][..i] && branches[1..][i] == branches[i + 1];
    FirstThenRest(o, branches[0], branches[1..][..i], localDb, rank);
  }

  /**
   A merge is broken off exactly if merging some branch is aborted or crashes. If it is not, it has merged
   something exactly if some branch was merged to the end: a branch where a lookup failed does not count.
   */
  lemma {:induction false} MergeSucceedsIff(o: Octopus, branches: seq<Branch>, localDb: Database, rank: Version -> nat)
    requires Acyclic(localDb, rank) && BranchesAcyclic(branches, rank) && o.failure.None?
    ensures var m := MergeBranches(o, branches, localDb, rank);
            && (m.failure.Some? <==> exists i :: 0 <= i < |branches| && BreaksOffAt(o, branches, i, localDb, rank))
            && (m.failure.None? ==>
                  (m.merged <==> o.merged || exists i :: 0 <= i < |branches| && IsMergedAt(o, branches, i, localDb, rank)))
    decreases |branches|
  {
    if branches != [] {
      FirstEnds(o, branches, localDb, rank);
      assert forall c :: c in branches[1..] ==> c in branches;
      var next := Next(o, branches[0], localDb, rank);
      if next.failure.Some? {
        FailureStays(next, branches[1..], localDb, rank);
      } else {
        MergeSucceedsIff(next, branches[1..], localDb, rank);
        OneOrLater(o, branches, localDb, rank);
      }
    }
  }

  lemma OneOrLater(o: Octopus, branches: seq<Branch>, localDb: Database, rank: Version -> nat)
    requires branches != [] && Acyclic(localDb, rank) && BranchesAcyclic(branches, rank)
    ensures Acyclic(branches[0].database, rank) && BranchesAcyclic(branches[1..], rank)
    ensures var next := Next(o, branches[0], localDb, rank);
            (exists i :: 0 <= i < |branches| && IsMergedAt(o, branches, i, localDb, rank)) <==>
            IsMergedAt(o, branches, 0, localDb, rank) || exists i :: 0 <= i < |branches[1..]| && IsMergedAt(next, branches[1..], i, localDb, rank)
    ensures var next := Next(o, branches[0], localDb, rank);
            (exists i :: 0 <= i < |branches| && BreaksOffAt(o, branches, i, localDb, rank)) <==>
            BreaksOffAt(o, branches, 0, localDb, rank) || exists i :: 0 <= i < |branches[1..]| && BreaksOffAt(next, branches[1..], i, localDb, rank)
  {
    assert branches[0] in branches && forall c :: c in branches[1..] ==> c in branches;
    var next := Next(o, branches[0], localDb, rank);
    forall i | 0 < i < |branches|
      ensures IsMergedAt(o, branches, i, localDb, rank) <==> IsMergedAt(next, branches[1..], i - 1, localDb, rank)
      ensures BreaksOffAt(o, branches, i, localDb, rank) <==> BreaksOffAt(next, branches[1..], i - 1, localDb, rank)
    {
      LaterEnds(o, branches, i - 1, localDb, rank);
    }
    forall i | 0 <= i < |branches[1..]|
      ensures IsMergedAt(next, branches[1..], i, localDb, rank) ==> IsMergedAt(o, branches, i + 1, localDb, rank)
      ensures BreaksOffAt(next, branches[1..], i, localDb, rank) ==> BreaksOffAt(o, branches, i + 1, localDb, rank)
    {
      LaterEnds(o, branches, i, localDb, rank);
    }
  }
}
