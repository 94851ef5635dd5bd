/** What a batch of `add_or_update_files` does to the live entries, path by path. */
module DatasetLaws {
  import opened Common
  import opened FileLists

  /** Does the file replace this entry? */
  predicate Replaces(file: DatasetFile, e: DatasetFile) {
    file.path == e.path && !SameVersion(file, e)
  }

  lemma ReplacedKeepsTheOthers(entries: seq<DatasetFile>, live: set<DatasetFile>, file: DatasetFile)
    requires OneLivePerPath(entries, live)
    ensures var r := Replaced(entries, live, file);
            && OneLivePerPath(r, live)
            && forall f :: f in live ==> (f in r <==> f in entries && !Replaces(file, f))
  {
    var r := Replaced(entries, live, file);
    var i := Locate(entries, live, file.path);
    if i < |entries| && IsNew(entries, live, file) {
      assert forall j :: 0 <= j < |r| ==> r[j] == entries[if j < i then j else j + 1];
      forall f | f in entries && f in live && !Replaces(file, f)
        ensures f in r
      {
        var k :| 0 <= k < |entries| && entries[k] == f;
        assert k != i;
        assert r[if k < i then k else k - 1] == f;
      }
    }
  }

  /** A live entry is kept exactly if no file of the batch is another version of it. */
  lemma {:induction false} KeptExactlyIf(entries: seq<DatasetFile>, live: set<DatasetFile>, files: seq<DatasetFile>)
    requires OneLivePerPath(entries, live)
    ensures var kept := Kept(entries, live, files);
            && OneLivePerPath(kept, live)
            && forall f :: f in live ==> (f in kept <==> f in entries && forall g :: g in files ==> !Replaces(g, f))
    decreases |files|
  {
    if files != [] {
      var before := files[..|files| - 1];
      assert files == before + [files[|files| - 1]];
      KeptExactlyIf(entries, live, before);
      ReplacedKeepsTheOthers(Kept(entries, live, before), live, files[|files| - 1]);
    }
  }

  /** A file is new exactly if no live entry is the same version of it. */
  lemma NewExactlyIf(entries: seq<DatasetFile>, live: set<DatasetFile>, file: DatasetFile)
    requires OneLivePerPath(entries, live)
    ensures IsNew(entries, live, file) <==>
            forall e :: e in entries && IsLiveAt(e, live, file.path) ==> !SameVersion(file, e)
  {
    var l := Locate(entries, live, file.path);
    if l < |entries| {
      forall e | e in entries && IsLiveAt(e, live, file.path)
        ensures e == entries[l]
      {
        var k :| 0 <= k < |entries| && entries[k] == e;
      }
    } else {
      forall e | e in entries
        ensures !IsLiveAt(e, live, file.path)
      {
        var k :| 0 <= k < |entries| && entries[k] == e;
      }
    }
  }

  /** Is the file at `k` appended when its turn comes? */
  ghost predicate Appended(entries: seq<DatasetFile>, live: set<DatasetFile>, files: seq<DatasetFile>, k: nat) {
    k < |files| && IsNew(Kept(entries, live, files[..k]), live, files[k])
  }

  /** It is, exactly if every entry that is the same version was replaced by an earlier file. */
  lemma AppendedExactlyIf(entries: seq<DatasetFile>, live: set<DatasetFile>, files: seq<DatasetFile>, k: nat)
    requires OneLivePerPath(entries, live) && k < |files|
    ensures Appended(entries, live, files, k) <==>
            forall e :: e in entries && IsLiveAt(e, live, files[k].path) && SameVersion(files[k], e) ==>
              exists h :: 0 <= h < k && Replaces(files[h], e)
  {
    var kept := Kept(entries, live, files[..k]);
    KeptExactlyIf(entries, live, files[..k]);
    NewExactlyIf(kept, live, files[k]);
    assert forall h :: 0 <= h < k ==> files[h] in files[..k] by {
      assert forall h :: 0 <= h < k ==> files[..k][h] == files[h];
    }
    forall e | e in entries && IsLiveAt(e, live, files[k].path) && SameVersion(files[k], e)
      ensures e !in kept <==> exists h :: 0 <= h < k && Replaces(files[h], e)
    {
      if e !in kept {
        var g :| g in files[..k] && Replaces(g, e);
        var h :| 0 <= h < k && files[..k][h] == g;
        assert Replaces(files[h], e);
      }
    }
  }

  /** The positions of the appended files, in order. */
  ghost function AppendedAt(entries: seq<DatasetFile>, live: set<DatasetFile>, files: seq<DatasetFile>, n: nat): (ks: seq<nat>)
    requires n <= |files|
    ensures forall a :: 0 <= a < |ks| ==> ks[a] < n && Appended(entries, live, files, ks[a])
    ensures forall a, b :: 0 <= a < b < |ks| ==> ks[a] < ks[b]
    ensures forall k :: 0 <= k < n && Appended(entries, live, files, k) ==> k in ks
  {
    if n == 0 then [] else
      AppendedAt(entries, live, files, n - 1) + if Appended(entries, live, files, n - 1) then [n - 1] else []
  }

  lemma {:induction false} AddedAre(entries: seq<DatasetFile>, live: set<DatasetFile>, files: seq<DatasetFile>, n: nat)
    requires n <= |files|
    ensures var ks := AppendedAt(entries, live, files, n);
            && |Added(entries, live, files[..n])| == |ks|
            && forall a :: 0 <= a < |ks| ==> Added(entries, live, files[..n])[a] == files[ks[a]]
  {
    if n > 0 {
      AddedAre(entries, live, files, n - 1);
      TakeNext(files, n - 1);
      BatchSnoc(entries, live, files[..n - 1], files[n - 1]);
    }
  }

  /**
   Two live files of the batch clash: they have one path, and some file of that path, the first of the two
   or an earlier one, has to be added. Both are added then, side by side.
   */
  ghost predicate Clash(entries: seq<DatasetFile>, live: set<DatasetFile>, files: seq<DatasetFile>) {
    exists h, i, j :: 0 <= h <= i < j < |files| && ClashAt(entries, live, files, h, i, j)
  }

  ghost predicate ClashAt(entries: seq<DatasetFile>, live: set<DatasetFile>, files: seq<DatasetFile>, h: nat, i: nat, j: nat) {
    && h <= i < j < |files|
    && files[h].path == files[i].path == files[j].path && IsNew(entries, live, files[h])
    && files[i] in live && files[j] in live
  }

  /** A batch keeps one live entry per path exactly if no two of its files clash. */
  lemma BatchKeepsOneLivePerPathIff(entries: seq<DatasetFile>, live: set<DatasetFile>, files: seq<DatasetFile>)
    requires OneLivePerPath(entries, live)
    ensures OneLivePerPath(Kept(entries, live, files) + Added(entries, live, files), live) <==> !Clash(entries, live, files)
  {
    if h, i, j :| 0 <= h <= i < j < |files| && ClashAt(entries, live, files, h, i, j) {
      ClashAddsTwo(entries, live, files, h, i, j);
    } else {
      NoClashNoTwo(entries, live, files);
    }
  }

  /** Once a file of a path has to be added, it and all later ones of the path are. */
  lemma NewOnesAreAppended(entries: seq<DatasetFile>, live: set<DatasetFile>, files: seq<DatasetFile>, h: nat, i: nat)
    requires OneLivePerPath(entries, live)
    requires h <= i < |files| && files[h].path == files[i].path && IsNew(entries, live, files[h])
    ensures Appended(entries, live, files, i)
  {
    NewExactlyIf(entries, live, files[h]);
    AppendedExactlyIf(entries, live, files, i);
    forall e | e in entries && IsLiveAt(e, live, files[i].path) && SameVersion(files[i], e)
      ensures exists g :: 0 <= g < i && Replaces(files[g], e)
    {
      assert Replaces(files[h], e);
    }
  }

  lemma TwoLiveBehind(kept: seq<DatasetFile>, added: seq<DatasetFile>, live: set<DatasetFile>, a: nat, b: nat)
    requires a < b < |added| && added[a] in live && added[b] in live && added[a].path == added[b].path
    ensures !OneLivePerPath(kept + added, live)
  {
    var all := kept + added;
    assert all[|kept| + a] == added[a] && all[|kept| + b] == added[b];
  }

  lemma ClashAddsTwo(entries: seq<DatasetFile>, live: set<DatasetFile>, files: seq<DatasetFile>, h: nat, i: nat, j: nat)
    requires OneLivePerPath(entries, live) && ClashAt(entries, live, files, h, i, j)
    ensures !OneLivePerPath(Kept(entries, live, files) + Added(entries, live, files), live)
  {
    NewOnesAreAppended(entries, live, files, h, i);
    NewOnesAreAppended(entries, live, files, h, j);
    AddedHolds(entries, live, files, i, j);
    var kept, added := Kept(entries, live, files), Added(entries, live, files);
    var a, b :| 0 <= a < b < |added| && added[a] == files[i] && added[b] == files[j];
    TwoLiveBehind(kept, added, live, a, b);
  }

  lemma AddedHolds(entries: seq<DatasetFile>, live: set<DatasetFile>, files: seq<DatasetFile>, i: nat, j: nat)
    requires i < j < |files| && Appended(entries, live, files, i) && Appended(entries, live, files, j)
    ensures exists a, b :: 0 <= a < b < |Added(entries, live, files)|
                        && Added(entries, live, files)[a] == files[i] && Added(entries, live, files)[b] == files[j]
  {
    assert files[..|files|] == files;
    AddedAre(entries, live, files, |files|);
    var ks := AppendedAt(entries, live, files, |files|);
    var a :| 0 <= a < |ks| && ks[a] == i;
    var b :| 0 <= b < |ks| && ks[b] == j;
    assert a < b;
  }

  lemma NoClashNoTwo(entries: seq<DatasetFile>, live: set<DatasetFile>, files: seq<DatasetFile>)
    requires OneLivePerPath(entries, live) && !Clash(entries, live, files)
    ensures OneLivePerPath(Kept(entries, live, files) + Added(entries, live, files), live)
  {
    var kept, added := Kept(entries, live, files), Added(entries, live, files);
    KeptExactlyIf(entries, live, files);
    forall x, b | 0 <= x < |kept| && kept[x] in live && 0 <= b < |added|
      ensures kept[x].path != added[b].path
    {
      var k := AddedComesFrom(entries, live, files, b);
      KeptIsNotAppended(entries, live, files, kept[x], k);
    }
    forall a, b | 0 <= a < b < |added| && added[a] in live && added[b] in live
      ensures added[a].path != added[b].path
    {
      var i, j := AddedComeFrom(entries, live, files, a, b);
      if added[a].path == added[b].path {
        var h := FirstNewOne(entries, live, files, i);
        assert ClashAt(entries, live, files, h, i, j);
      }
    }
  }

  lemma AddedComesFrom(entries: seq<DatasetFile>, live: set<DatasetFile>, files: seq<DatasetFile>, b: nat) returns (k: nat)
    requires b < |Added(entries, live, files)|
    ensures Appended(entries, live, files, k) && Added(entries, live, files)[b] == files[k]
  {
    assert files[..|files|] == files;
    AddedAre(entries, live, files, |files|);
    k := AppendedAt(entries, live, files, |files|)[b];
  }

  lemma AddedComeFrom(entries: seq<DatasetFile>, live: set<DatasetFile>, files: seq<DatasetFile>, a: nat, b: nat)
    returns (i: nat, j: nat)
    requires a < b < |Added(entries, live, files)|
    ensures i < j && Appended(entries, live, files, i) && Appended(entries, live, files, j)
    ensures Added(entries, live, files)[a] == files[i] && Added(entries, live, files)[b] == files[j]
  {
    assert files[..|files|] == files;
    AddedAre(entries, live, files, |files|);
    var ks := AppendedAt(entries, live, files, |files|);
    i, j := ks[a], ks[b];
  }

  lemma KeptIsNotAppended(entries: seq<DatasetFile>, live: set<DatasetFile>, files: seq<DatasetFile>, e: DatasetFile, k: nat)
    requires OneLivePerPath(entries, live) && e in live && e in Kept(entries, live, files)
    requires k < |files| && Appended(entries, live, files, k)
    ensures e.path != files[k].path
  {
    KeptExactlyIf(entries, live, files);
    AppendedExactlyIf(entries, live, files, k);
    assert files[k] in files;
    assert forall h :: 0 <= h < k ==> files[h] in files;
  }

  /** A file that is appended, or an earlier one of its path, is new. */
  lemma FirstNewOne(entries: seq<DatasetFile>, live: set<DatasetFile>, files: seq<DatasetFile>, k: nat) returns (h: nat)
    requires OneLivePerPath(entries, live) && Appended(entries, live, files, k)
    ensures h <= k && files[h].path == files[k].path && IsNew(entries, live, files[h])
  {
    if IsNew(entries, live, files[k]) {
      return k;
    }
    NewExactlyIf(entries, live, files[k]);
    AppendedExactlyIf(entries, live, files, k);
    var e :| e in entries && IsLiveAt(e, live, files[k].path) && SameVersion(files[k], e);
    h :| 0 <= h < k && Replaces(files[h], e);
    NewAgainst(entries, live, files[h], e);
  }

  lemma NewAgainst(entries: seq<DatasetFile>, live: set<DatasetFile>, file: DatasetFile, e: DatasetFile)
    requires OneLivePerPath(entries, live) && e in entries && e in live && Replaces(file, e)
    ensures IsNew(entries, live, file)
  {
    NewExactlyIf(entries, live, file);
    forall d | d in entries && IsLiveAt(d, live, file.path)
      ensures d == e
    {
      var x :| 0 <= x < |entries| && entries[x] == d;
      var y :| 0 <= y < |entries| && entries[y] == e;
    }
  }

  lemma DistinctPathsDoNotClash(entries: seq<DatasetFile>, live: set<DatasetFile>, files: seq<DatasetFile>)
    requires forall i, j :: 0 <= i < j < |files| ==> files[i].path != files[j].path
    ensures !Clash(entries, live, files)
  {
  }

  /**
   After a batch of files with distinct paths there is still one live entry per path. A path of the batch
   holds its file, unless the same version was there and stays; every other path holds what it held.
   */
  lemma BatchByPath(entries: seq<DatasetFile>, live: set<DatasetFile>, files: seq<DatasetFile>, f: DatasetFile)
    requires OneLivePerPath(entries, live)
    requires forall i, j :: 0 <= i < j < |files| ==> files[i].path != files[j].path
    requires f in live
    ensures OneLivePerPath(Kept(entries, live, files) + Added(entries, live, files), live)
    ensures f in Kept(entries, live, files) + Added(entries, live, files) <==>
            || (f in entries && forall g :: g in files && g.path == f.path ==> SameVersion(g, f))
            || (f in files && forall e :: e in entries && IsLiveAt(e, live, f.path) ==> !SameVersion(f, e))
  {
    DistinctPathsDoNotClash(entries, live, files);
    BatchKeepsOneLivePerPathIff(entries, live, files);
    KeptExactlyIf(entries, live, files);
    AddedExactlyIf(entries, live, files, f);
  }

  lemma AddedExactlyIf(entries: seq<DatasetFile>, live: set<DatasetFile>, files: seq<DatasetFile>, f: DatasetFile)
    requires OneLivePerPath(entries, live)
    requires forall i, j :: 0 <= i < j < |files| ==> files[i].path != files[j].path
    ensures f in Added(entries, live, files) <==>
            f in files && forall e :: e in entries && IsLiveAt(e, live, f.path) ==> !SameVersion(f, e)
  {
    assert files[..|files|] == files;
    AddedAre(entries, live, files, |files|);
    var ks := AppendedAt(entries, live, files, |files|);
    if f in files {
      var k :| 0 <= k < |files| && files[k] == f;
      AppendedExactlyIf(entries, live, files, k);
      if Appended(entries, live, files, k) {
        var a :| 0 <= a < |ks| && ks[a] == k;
        assert Added(entries, live, files)[a] == f;
      }
    }
  }

  // ---------- Only what is live among the entries matters ----------

  ghost predicate Agree(entries: seq<DatasetFile>, live: set<DatasetFile>, live': set<DatasetFile>) {
    forall f :: f in entries ==> (f in live <==> f in live')
  }

  lemma {:induction false} LocateAgrees(entries: seq<DatasetFile>, live: set<DatasetFile>, live': set<DatasetFile>, path: Path)
    requires Agree(entries, live, live')
    ensures Locate(entries, live, path) == Locate(entries, live', path)
    decreases |entries|
  {
    if entries != [] {
      assert entries[0] in entries && forall f :: f in entries[1..] ==> f in entries;
      LocateAgrees(entries[1..], live, live', path);
    }
  }

  lemma ReplacedAgrees(entries: seq<DatasetFile>, live: set<DatasetFile>, live': set<DatasetFile>, file: DatasetFile)
    requires Agree(entries, live, live')
    ensures Replaced(entries, live, file) == Replaced(entries, live', file)
    ensures IsNew(entries, live, file) <==> IsNew(entries, live', file)
    ensures forall f :: f in Replaced(entries, live, file) ==> f in entries
  {
    LocateAgrees(entries, live, live', file.path);
  }

  lemma {:induction false} KeptAgrees(entries: seq<DatasetFile>, live: set<DatasetFile>, live': set<DatasetFile>, files: seq<DatasetFile>)
    requires Agree(entries, live, live')
    ensures Kept(entries, live, files) == Kept(entries, live', files)
    ensures forall f :: f in Kept(entries, live, files) ==> f in entries
    decreases |files|
  {
    if files != [] {
      var front, last := files[..|files| - 1], files[|files| - 1];
      KeptAgrees(entries, live, live', front);
      ReplacedAgrees(Kept(entries, live, front), live, live', last);
    }
  }

  lemma {:induction false} AddedAgrees(entries: seq<DatasetFile>, live: set<DatasetFile>, live': set<DatasetFile>, files: seq<DatasetFile>)
    requires Agree(entries, live, live')
    ensures Added(entries, live, files) == Added(entries, live', files)
    ensures forall f :: f in Added(entries, live, files) ==> f in files
    decreases |files|
  {
    if files != [] {
      var front, last := files[..|files| - 1], files[|files| - 1];
      AddedAgrees(entries, live, live', front);
      KeptAgrees(entries, live, live', front);
      ReplacedAgrees(Kept(entries, live, front), live, live', last);
      assert forall f :: f in front ==> f in files;
    }
  }

  lemma OneLiveAgrees(entries: seq<DatasetFile>, live: set<DatasetFile>, live': set<DatasetFile>)
    requires Agree(entries, live, live')
    ensures OneLivePerPath(entries, live) <==> OneLivePerPath(entries, live')
  {
    assert forall i :: 0 <= i < |entries| ==> (entries[i] in live <==> entries[i] in live');
  }

  // ---------- Runs of operations on one dataset ----------

  /** The entries of a dataset, and which of them are live. */
  datatype Listing = Listing(entries: seq<DatasetFile>, live: set<DatasetFile>) {
    ghost predicate IsTidy() {
      OneLivePerPath(entries, live)
    }

    /** What is live among these entries and further ones. */
    ghost function With(others: set<DatasetFile>): set<DatasetFile> {
      (set f | f in entries && f in live) + others
    }
  }

  /** `added` are the live files of a batch; `same` the paths where both versions have the same content. */
  datatype Step =
    | Batch(files: seq<DatasetFile>, added: set<DatasetFile>)
    | Unlink(path: Path)
    | NextVersion(current: Listing, same: set<Path>)

  ghost predicate Takes(l: Listing, step: Step, l': Listing) {
    match step
    case Batch(files, added) =>
      && (forall f :: f in added ==> f in files)
      && (forall f :: f in files && f in l.entries ==> (f in added <==> f in l.live))
      && l'.entries == Kept(l.entries, l.live, files) + Added(l.entries, l.live, files)
      && Agree(l'.entries, l'.live, l.With(added))
    case Unlink(path) =>
      var i := Locate(l.entries, l.live, path);
      && l'.entries == l.entries
      && Agree(l'.entries, l'.live, if i < |l.entries| then l.live - {l.entries[i]} else l.live)
    case NextVersion(current, same) =>
      var mine, theirs := ByPath(l.entries, l.live), ByPath(current.entries, current.live);
      && Covers(l'.entries, Choice(mine, theirs, same), theirs - mine.Keys)
      && forall f :: f in l'.entries ==> (f in l'.live <==> f.path in mine)
  }

  /** Does the step put a second live entry beside one? */
  ghost predicate Clashes(l: Listing, step: Step) {
    step.Batch? && Clash(l.entries, l.With(step.added), step.files)
  }

  lemma BatchStepIsTidyIff(l: Listing, step: Step, l': Listing)
    requires step.Batch? && Takes(l, step, l') && l.IsTidy()
    ensures l'.IsTidy() <==> !Clashes(l, step)
  {
    var live := l.With(step.added);
    assert Agree(l.entries, l.live, live);
    KeptAgrees(l.entries, l.live, live, step.files);
    AddedAgrees(l.entries, l.live, live, step.files);
    OneLiveAgrees(l.entries, l.live, live);
    OneLiveAgrees(l'.entries, l'.live, live);
    BatchKeepsOneLivePerPathIff(l.entries, live, step.files);
  }

  lemma StepIsTidyIff(l: Listing, step: Step, l': Listing)
    requires Takes(l, step, l') && l.IsTidy()
    ensures l'.IsTidy() <==> !Clashes(l, step)
  {
    if step.Batch? {
      BatchStepIsTidyIff(l, step, l');
    }
  }

  ghost predicate IsRun(listings: seq<Listing>, steps: seq<Step>) {
    |listings| == |steps| + 1 && forall i :: 0 <= i < |steps| ==> Takes(listings[i], steps[i], listings[i + 1])
  }

  lemma RunWithoutLast(listings: seq<Listing>, steps: seq<Step>)
    requires IsRun(listings, steps) && steps != []
    ensures IsRun(listings[..|steps|], steps[..|steps| - 1])
  {
    var n := |steps| - 1;
    forall i | 0 <= i < n ensures Takes(listings[..n + 1][i], steps[..n][i], listings[..n + 1][i + 1]) {
      assert Takes(listings[i], steps[i], listings[i + 1]);
    }
  }

  ghost predicate AllTidy(listings: seq<Listing>) {
    forall i :: 0 <= i < |listings| ==> listings[i].IsTidy()
  }

  ghost predicate NoneClashes(listings: seq<Listing>, steps: seq<Step>)
    requires |listings| == |steps| + 1
  {
    forall i :: 0 <= i < |steps| ==> !Clashes(listings[i], steps[i])
  }

  /** Throughout a run that starts so, every path has at most one live entry exactly if no batch of it clashes. */
  lemma {:induction false} RunKeepsOneLivePerPathIff(listings: seq<Listing>, steps: seq<Step>)
    requires IsRun(listings, steps) && listings[0].IsTidy()
    ensures AllTidy(listings) <==> NoneClashes(listings, steps)
    decreases |steps|
  {
    if steps != [] {
      var n := |steps| - 1;
      var before := listings[..n + 1];
      RunWithoutLast(listings, steps);
      RunKeepsOneLivePerPathIff(before, steps[..n]);
      assert listings == before + [listings[n + 1]] && listings[n] == before[n];
      assert AllTidy(listings) <==> AllTidy(before) && listings[n + 1].IsTidy();
      NoneClashesSplits(listings, steps);
      if listings[n].IsTidy() {
        StepIsTidyIff(listings[n], steps[n], listings[n + 1]);
      }
    }
  }

  lemma NoneClashesSplits(listings: seq<Listing>, steps: seq<Step>)
    requires |listings| == |steps| + 1 && steps != []
    ensures var n := |steps| - 1;
            NoneClashes(listings, steps) <==> NoneClashes(listings[..n + 1], steps[..n]) && !Clashes(listings[n], steps[n])
  {
    var n := |steps| - 1;
    assert forall i :: 0 <= i < n ==> steps[..n][i] == steps[i] && listings[..n + 1][i] == listings[i];
  }
}
