/** `_checkpoint_iterator`: the commits that a project can be rolled back to. */
module Checkpoints {
  import opened Common

  /** A commit; `transaction` is what the pattern finds in its message. */
  datatype Commit = Commit(sha: string, transaction: Option<string>)

  /** The commits that carry a transaction id. */
  function Transactional(commits: seq<Commit>): seq<Commit>
    decreases |commits|
  {
    if commits == [] then [] else
      Transactional(commits[..|commits| - 1]) +
      if commits[|commits| - 1].transaction.Some? then [commits[|commits| - 1]] else []
  }

  /** Does a run of equal transaction ids start here? */
  predicate StartsRun(ts: seq<Commit>, i: nat) {
    i < |ts| && (i == 0 || ts[i].transaction != ts[i - 1].transaction)
  }

  /** Where the runs start, in order. */
  function Starts(ts: seq<Commit>): seq<nat>
    decreases |ts|
  {
    if ts == [] then [] else Starts(ts[..|ts| - 1]) + if StartsRun(ts, |ts| - 1) then [|ts| - 1] else []
  }

  /** The first commit of every run. */
  function Checkpoints(ts: seq<Commit>): seq<Commit>
    decreases |ts|
  {
    if ts == [] then [] else Checkpoints(ts[..|ts| - 1]) + if StartsRun(ts, |ts| - 1) then [ts[|ts| - 1]] else []
  }

  lemma {:induction false} StartsAre(ts: seq<Commit>)
    ensures forall i: nat :: i in Starts(ts) <==> StartsRun(ts, i)
    ensures forall a, b :: 0 <= a < b < |Starts(ts)| ==> Starts(ts)[a] < Starts(ts)[b]
    decreases |ts|
  {
    if ts != [] {
      var n := |ts| - 1;
      StartsAre(ts[..n]);
      assert forall i: nat :: i < n ==> (StartsRun(ts, i) <==> StartsRun(ts[..n], i));
      assert forall k :: 0 <= k < |Starts(ts[..n])| ==> Starts(ts[..n])[k] in Starts(ts[..n]);
    }
  }

  lemma {:induction false} CheckpointsAre(ts: seq<Commit>)
    ensures |Checkpoints(ts)| == |Starts(ts)|
    ensures forall k :: 0 <= k < |Starts(ts)| ==> Starts(ts)[k] < |ts| && Checkpoints(ts)[k] == ts[Starts(ts)[k]]
    decreases |ts|
  {
    if ts != [] {
      CheckpointsAre(ts[..|ts| - 1]);
    }
  }

  lemma CheckpointsSnoc(ts: seq<Commit>, c: Commit)
    ensures Checkpoints(ts + [c]) ==
            Checkpoints(ts) + if ts == [] || ts[|ts| - 1].transaction != c.transaction then [c] else []
  {
    assert (ts + [c])[..|ts|] == ts;
  }

  lemma TransactionalSnoc(commits: seq<Commit>, c: Commit)
    ensures Transactional(commits + [c]) == Transactional(commits) + if c.transaction.Some? then [c] else []
  {
    assert (commits + [c])[..|commits|] == commits;
  }

  /** A checkpoint is handed out when the next run starts, the last one at the end. */
  method CheckpointIterator(commits: seq<Commit>) returns (checkpoints: seq<Commit>)
    ensures checkpoints == Checkpoints(Transactional(commits))
  {
    checkpoints := [];
    var current: Option<Commit> := None;
    ghost var ts: seq<Commit> := [];
    for i := 0 to |commits|
      invariant ts == Transactional(commits[..i])
      invariant current.None? ==> ts == [] && checkpoints == []
      invariant current.Some? ==> checkpoints + [current.value] == Checkpoints(ts)
      invariant current.Some? ==> ts != [] && ts[|ts| - 1].transaction == current.value.transaction
    {
      var commit := commits[i];
      TakeNext(commits, i);
      TransactionalSnoc(commits[..i], commit);
      if commit.transaction.None? {
        continue;
      }
      CheckpointsSnoc(ts, commit);
      ts := ts + [commit];
      if current.None? {
        current := Some(commit);
        continue;
      }
      if commit.transaction != current.value.transaction {
        checkpoints := checkpoints + [current.value];
        current := Some(commit);
      }
    }
    assert commits[..|commits|] == commits;
    if current.Some? {
      checkpoints := checkpoints + [current.value];
    }
  }

  /** Does checkpoint `k` stand for the transactional commit at `i`: is `i` in the run that starts there? */
  predicate StandsFor(ts: seq<Commit>, k: nat, i: nat) {
    var starts := Starts(ts);
    && k < |starts| && starts[k] <= i < |ts|
    && (k + 1 < |starts| ==> i < starts[k + 1])
  }

  /** Every transactional commit belongs to exactly one checkpoint, and has its transaction id. */
  lemma {:induction false} BelongsToOne(ts: seq<Commit>, i: nat) returns (k: nat)
    requires i < |ts|
    ensures StandsFor(ts, k, i) && k < |Checkpoints(ts)| && ts[i].transaction == Checkpoints(ts)[k].transaction
    ensures forall j :: StandsFor(ts, j, i) ==> j == k
  {
    var starts := Starts(ts);
    StartsAre(ts);
    CheckpointsAre(ts);
    if StartsRun(ts, i) {
      k :| 0 <= k < |starts| && starts[k] == i;
    } else {
      k := BelongsToOne(ts, i - 1);
      assert k + 1 < |starts| ==> starts[k + 1] in starts;
    }
  }

  /** Neighbouring checkpoints have different transaction ids. */
  lemma NeighboursDiffer(ts: seq<Commit>, k: nat)
    requires k + 1 < |Checkpoints(ts)|
    ensures Checkpoints(ts)[k].transaction != Checkpoints(ts)[k + 1].transaction
  {
    var starts := Starts(ts);
    StartsAre(ts);
    CheckpointsAre(ts);
    var next := starts[k + 1];
    assert starts[k + 1] in starts && StartsRun(ts, next);
    var j := BelongsToOne(ts, next - 1);
    assert StandsFor(ts, k, next - 1);
  }
}
