/** `move_files`: moving files between datasets that may share the new entries. */
module MoveFiles {
  import opened Common
  import opened DatasetLaws
  import opened Datasets
  import opened FileLists

  ghost predicate HasPath(live: set<DatasetFile>, path: Path) {
    exists f :: f in live && f.path == path
  }

  // ---------- Adding one file ----------

  /** The live entries after adding one file: it takes over its path, or its version is there already. */
  ghost predicate Joined(before: set<DatasetFile>, after: set<DatasetFile>, file: DatasetFile) {
    && (forall f :: f in before + after && f.path != file.path ==> (f in after <==> f in before))
    && HasPath(after, file.path)
    && (forall f :: f in after && f.path == file.path ==> SameVersion(file, f))
  }

  lemma OneFile(entries: seq<DatasetFile>, live: set<DatasetFile>, file: DatasetFile)
    ensures Kept(entries, live, [file]) + Added(entries, live, [file]) ==
            Replaced(entries, live, file) + if IsNew(entries, live, file) then [file] else []
  {
    BatchSnoc(entries, live, [], file);
    assert [] + [file] == [file];
  }

  lemma AddingNew(entries: seq<DatasetFile>, live: set<DatasetFile>, file: DatasetFile, r: seq<DatasetFile>)
    requires (forall f :: f in live ==> f in entries) && OneLivePerPath(entries, live) && (file in entries ==> file in live)
    requires IsNew(entries, live, file)
    requires r == Replaced(entries, live, file) + [file]
    ensures OneLivePerPath(r, live + {file}) && forall f :: f in r ==> f in entries || f == file
    ensures Joined(live, (set f | f in r && f in live + {file}), file)
  {
    var kept := Replaced(entries, live, file);
    ReplacedKeepsTheOthers(entries, live, file);
    NewExactlyIf(entries, live, file);
    assert r[|kept|] == file;
    assert file !in kept;
    assert forall f :: f in kept && f in live ==> f.path != file.path;
    assert forall i :: 0 <= i < |kept| ==> r[i] == kept[i] && kept[i] in kept;
  }

  lemma AddingOld(entries: seq<DatasetFile>, live: set<DatasetFile>, file: DatasetFile)
    requires (forall f :: f in live ==> f in entries) && OneLivePerPath(entries, live) && (file in entries ==> file in live)
    requires !IsNew(entries, live, file)
    ensures OneLivePerPath(entries, live + {file})
    ensures Joined(live, (set f | f in entries && f in live + {file}), file)
  {
    var l := Locate(entries, live, file.path);
    assert entries[l] in (set f | f in entries && f in live + {file});
    assert forall f :: f in entries && f in live && f.path == file.path ==> f == entries[l];
  }

  lemma AddingOne(entries: seq<DatasetFile>, live: set<DatasetFile>, file: DatasetFile, r: seq<DatasetFile>)
    requires (forall f :: f in live ==> f in entries) && OneLivePerPath(entries, live) && (file in entries ==> file in live)
    requires r == Kept(entries, live, [file]) + Added(entries, live, [file])
    ensures OneLivePerPath(r, live + {file}) && forall f :: f in r ==> f in entries || f == file
    ensures Joined(live, (set f | f in r && f in live + {file}), file)
  {
    OneFile(entries, live, file);
    if IsNew(entries, live, file) {
      AddingNew(entries, live, file, r);
    } else {
      AddingOld(entries, live, file);
    }
  }

  lemma OneIsLive(file: DatasetFile)
    requires file.IsLive()
    ensures (set f | f in [file] && f.IsLive()) == {file}
  {
  }

  /** A batch of one live file never clashes. */
  lemma OneFileJoins(before: Listing, after: Listing, file: DatasetFile)
    requires Takes(before, Batch([file], {file}), after) && before.IsTidy()
    requires (forall f :: f in before.live ==> f in before.entries) && forall f :: f in after.live ==> f in after.entries
    ensures after.IsTidy() && Joined(before.live, after.live, file)
    ensures forall f :: f in after.entries ==> f in before.entries || f == file
  {
    assert file in [file];
    AddingOne(before.entries, before.live, file, after.entries);
    assert before.With({file}) == before.live + {file};
    assert after.live == set f | f in after.entries && f in before.live + {file};
    OneLiveAgrees(after.entries, after.live, before.live + {file});
  }

  /** `add_or_update_files` of one live file. */
  method AddOrUpdateFile(dataset: Dataset, file: DatasetFile)
    requires dataset.IsTidy() && file.IsLive()
    modifies dataset
    ensures dataset.IsTidy()
    ensures forall f :: f in dataset.datasetFiles ==> f in old(dataset.datasetFiles) || f == file
    ensures Joined(old(dataset.Live()), dataset.Live(), file)
  {
    ghost var before := dataset.AsListing();
    OneIsLive(file);
    dataset.AddOrUpdateFiles([file]);
    OneFileJoins(before, dataset.AsListing(), file);
  }

  // ---------- One file, one dataset ----------

  /** The live entries after moving `src` to the new file's path: `joins` adds the file where the path was not live. */
  ghost predicate Stepped(before: set<DatasetFile>, after: set<DatasetFile>, file: DatasetFile, src: Path, joins: bool) {
    && (forall f :: f in before + after && f.path != src && f.path != file.path ==> (f in after <==> f in before))
    && !HasPath(after, src)
    && (HasPath(after, file.path) <==> joins || HasPath(before, file.path))
    && (forall f :: f in after && f.path == file.path ==> SameVersion(file, f))
  }

  /** Does the file join this dataset, apart from being moved to a target? */
  ghost predicate JoinsHere(datadir: Path, before: set<DatasetFile>, file: DatasetFile, src: Path, hasTarget: bool) {
    IsWithin(file.path, datadir) || (!hasTarget && file.linked && HasPath(before, src))
  }

  ghost function Without(live: set<DatasetFile>, path: Path): set<DatasetFile> {
    set f | f in live && f.path != path
  }

  /** Unlinking, a first addition that depends on it, and a second one where the path is live or within the data directory. */
  lemma ThreeSteps(before: set<DatasetFile>, between: set<DatasetFile>, after: set<DatasetFile>, file: DatasetFile, src: Path,
                   first: bool, within: bool)
    requires file.path != src
    requires if first then Joined(Without(before, src), between, file) else between == Without(before, src)
    requires if HasPath(between, file.path) || within then Joined(between, after, file) else after == between
    ensures Stepped(before, after, file, src, first || within)
    ensures !HasPath(before, src) && !first && !HasPath(before, file.path) && !within ==> after == before
    ensures HasPath(between, file.path) <==> first || HasPath(before, file.path)
  {
    assert HasPath(Without(before, src), file.path) <==> HasPath(before, file.path);
    assert Without(before, src) <= before;
    assert forall f :: f in Without(before, src) <==> f in before && f.path != src;
  }

  /** The body of the inner loop: unlinks the source and adds the file where it belongs. */
  method MoveWithin(dataset: Dataset, file: DatasetFile, src: Path, hasTarget: bool, now: int) returns (touched: bool)
    requires dataset.IsTidy() && file.IsLive() && file.path != src
    modifies dataset, file`basedOn, file`source, (set f | f in dataset.datasetFiles)`dateRemoved
    ensures dataset.IsTidy() && file.IsLive()
    ensures forall f :: f in dataset.datasetFiles ==> f in old(dataset.datasetFiles) || f == file
    ensures forall f :: f in old(dataset.datasetFiles) ==>
              f.dateRemoved == if f in old(dataset.Live()) && f.path == src then Some(now) else old(f.dateRemoved)
    ensures var before := old(dataset.Live());
            && (touched <==> HasPath(before, src) || HasPath(before, file.path) || IsWithin(file.path, dataset.datadir))
            && (!touched ==> dataset.datasetFiles == old(dataset.datasetFiles) && dataset.Live() == before)
            && Stepped(before, dataset.Live(), file, src, JoinsHere(dataset.datadir, before, file, src, hasTarget))
    ensures var before := old(dataset.Live());
            && (!HasPath(before, src) ==> file.basedOn == old(file.basedOn) && file.source == old(file.source))
            && (HasPath(before, src) ==>
                  exists f :: f in before && f.path == src && file.basedOn == f.basedOn && file.source == f.source)
  {
    ghost var before := dataset.Live();
    var removed := Relocate(dataset, file, src, hasTarget, now);
    ghost var between := dataset.Live();
    touched := Overwrite(dataset, file);
    touched := touched || removed;
    ThreeSteps(before, between, dataset.Live(), file, src,
               HasPath(before, src) && !hasTarget && (file.linked || IsWithin(file.path, dataset.datadir)),
               IsWithin(file.path, dataset.datadir));
  }

  /** Unlinks the source; the new file inherits its origin, and replaces it here if there is no target to go to. */
  method Relocate(dataset: Dataset, file: DatasetFile, src: Path, hasTarget: bool, now: int) returns (found: bool)
    requires dataset.IsTidy() && file.IsLive() && file.path != src
    modifies dataset, file`basedOn, file`source, (set f | f in dataset.datasetFiles)`dateRemoved
    ensures dataset.IsTidy() && file.IsLive()
    ensures forall f :: f in dataset.datasetFiles ==> f in old(dataset.datasetFiles) || f == file
    ensures forall f :: f in old(dataset.datasetFiles) ==>
              f.dateRemoved == if f in old(dataset.Live()) && f.path == src then Some(now) else old(f.dateRemoved)
    ensures var before := old(dataset.Live());
            && (found <==> HasPath(before, src))
            && (if found && !hasTarget && (file.linked || IsWithin(file.path, dataset.datadir))
                then Joined(Without(before, src), dataset.Live(), file)
                else dataset.Live() == Without(before, src) && dataset.datasetFiles == old(dataset.datasetFiles))
            && (!found ==> file.basedOn == old(file.basedOn) && file.source == old(file.source))
            && (found ==> exists f :: f in before && f.path == src && file.basedOn == f.basedOn && file.source == f.source)
  {
    ghost var before := dataset.Live();
    var removed := Unlink(dataset, src, now);
    found := removed != null;
    if removed != null {
      file.basedOn, file.source := removed.basedOn, removed.source;
      assert dataset.Live() == Without(before, src);
      assert removed in before && removed.path == src && file.basedOn == removed.basedOn && file.source == removed.source;
      if !hasTarget && (file.linked || IsWithin(file.path, dataset.datadir)) {
        AddOrUpdateFile(dataset, file);
      }
    } else {
      assert Without(before, src) == before;
    }
  }

  /** Adds the file where its path is live already or lies in the data directory. */
  method Overwrite(dataset: Dataset, file: DatasetFile) returns (touched: bool)
    requires dataset.IsTidy() && file.IsLive()
    modifies dataset
    ensures dataset.IsTidy()
    ensures forall f :: f in dataset.datasetFiles ==> f in old(dataset.datasetFiles) || f == file
    ensures touched <==> HasPath(old(dataset.Live()), file.path) || IsWithin(file.path, dataset.datadir)
    ensures if touched then Joined(old(dataset.Live()), dataset.Live(), file)
            else dataset.datasetFiles == old(dataset.datasetFiles) && dataset.Live() == old(dataset.Live())
  {
    ghost var live := dataset.Live();
    var modified := dataset.FindFile(file.path, live);
    assert modified != null <==> HasPath(live, file.path) by {
      if f :| f in live && f.path == file.path {
        var k :| 0 <= k < |dataset.datasetFiles| && dataset.datasetFiles[k] == f;
      }
    }
    touched := modified != null || IsWithin(file.path, dataset.datadir);
    if touched {
      AddOrUpdateFile(dataset, file);
    }
  }

  /** `unlink_file` with a missing file allowed, in terms of the live entries. */
  method Unlink(dataset: Dataset, src: Path, now: int) returns (removed: DatasetFile?)
    requires dataset.IsTidy()
    modifies (set f | f in dataset.datasetFiles)`dateRemoved
    ensures dataset.IsTidy()
    ensures forall f :: f in dataset.datasetFiles ==>
              f.dateRemoved == if f in old(dataset.Live()) && f.path == src then Some(now) else old(f.dateRemoved)
    ensures dataset.Live() == Without(old(dataset.Live()), src)
    ensures removed == null <==> !HasPath(old(dataset.Live()), src)
    ensures removed != null ==> removed in old(dataset.Live()) && removed.path == src
  {
    var r := dataset.UnlinkFile(src, true, now);
    removed := r.value;
  }

  // ---------- One file, every dataset ----------

  ghost function LiveOf(gateway: seq<Dataset>): seq<set<DatasetFile>>
    reads gateway, set d, i | d in gateway && 0 <= i < |d.datasetFiles| :: d.datasetFiles[i]
  {
    seq(|gateway|, i requires 0 <= i < |gateway|
                   reads gateway, set d, k | d in gateway && 0 <= k < |d.datasetFiles| :: d.datasetFiles[k] => gateway[i].Live())
  }

  ghost function AllFiles(datasets: seq<Dataset>): set<DatasetFile>
    reads datasets
  {
    set d, f | d in datasets && f in d.datasetFiles :: f
  }

  /** No dataset has two live entries for a path, and only files at a shared path are in two datasets. */
  ghost predicate Ready(datasets: seq<Dataset>, shared: set<Path>)
    reads datasets, set d, i | d in datasets && 0 <= i < |d.datasetFiles| :: d.datasetFiles[i]
  {
    && (forall d :: d in datasets ==> d.IsTidy())
    && Apart(datasets, shared)
  }

  ghost predicate Apart(datasets: seq<Dataset>, shared: set<Path>)
    reads datasets
  {
    forall c, d, f :: c in datasets && d in datasets && c != d && f in c.datasetFiles && f in d.datasetFiles ==> f.path in shared
  }

  /** Is the dataset recorded as modified? */
  ghost predicate Touches(datadir: Path, before: set<DatasetFile>, file: DatasetFile, src: Path) {
    HasPath(before, src) || HasPath(before, file.path) || IsWithin(file.path, datadir)
  }

  ghost predicate Recorded(datasets: seq<Dataset>, modified: map<string, Dataset>) {
    forall n :: n in modified ==> modified[n] in datasets && modified[n].name == n
  }

  ghost predicate NamesDiffer(datasets: seq<Dataset>) {
    forall i, j :: 0 <= i < j < |datasets| ==> datasets[i].name != datasets[j].name
  }

  /** What a dataset file was based on, and its source. */
  type Origin = (Option<string>, string)

  ghost function OriginOf(file: DatasetFile): Origin
    reads file
  {
    (file.basedOn, file.source)
  }

  /** The origins of the live entries at the path; at most one in a tidy dataset. */
  ghost function OriginsAt(live: set<DatasetFile>, path: Path): set<Origin>
    reads live
  {
    set f | f in live && f.path == path :: OriginOf(f)
  }

  ghost function OriginLists(datasets: seq<Dataset>, path: Path): seq<set<Origin>>
    reads datasets, set d, i | d in datasets && 0 <= i < |d.datasetFiles| :: d.datasetFiles[i]
  {
    seq(|datasets|, i requires 0 <= i < |datasets|
                    reads datasets, set d, k | d in datasets && 0 <= k < |d.datasetFiles| :: d.datasetFiles[k] =>
                      OriginsAt(datasets[i].Live(), path))
  }

  /** The file has the origin of the source in the last of the first `n` datasets where that is live, or else its own. */
  ghost predicate HasLastOrigin(origins: seq<set<Origin>>, n: nat, own: Origin, origin: Origin)
    requires n <= |origins|
    decreases n
  {
    if n == 0 then origin == own
    else if origins[n - 1] != {} then origin in origins[n - 1]
    else HasLastOrigin(origins, n - 1, own, origin)
  }

  /** One turn of the inner loop leaves the other datasets as they are. */
  method MoveAt(datasets: seq<Dataset>, i: nat, file: DatasetFile, src: Path, hasTarget: bool, now: int, ghost shared: set<Path>)
    returns (touched: bool)
    requires i < |datasets| && NamesDiffer(datasets) && Ready(datasets, shared)
    requires file.IsLive() && file.path in shared && src !in shared
    modifies datasets[i], file`basedOn, file`source, (set f | f in datasets[i].datasetFiles)`dateRemoved
    ensures Ready(datasets, shared) && file.IsLive()
    ensures AllFiles(datasets) <= old(AllFiles(datasets)) + {file}
    ensures forall d :: d in datasets && d != datasets[i] ==>
              d.datasetFiles == old(d.datasetFiles) && d.Live() == old(d.Live())
    ensures var origins := old(OriginsAt(datasets[i].Live(), src));
            if origins != {} then OriginOf(file) in origins else OriginOf(file) == old(OriginOf(file))
    ensures var d := datasets[i];
            && Stepped(old(d.Live()), d.Live(), file, src, JoinsHere(d.datadir, old(d.Live()), file, src, hasTarget))
            && (touched <==> Touches(d.datadir, old(d.Live()), file, src))
            && (!touched ==> d.datasetFiles == old(d.datasetFiles) && d.Live() == old(d.Live()))
  {
    ghost var live := datasets[i].Live();
    ghost var origins := OriginsAt(live, src);
    touched := MoveWithin(datasets[i], file, src, hasTarget, now);
    if HasPath(live, src) {
      ghost var f :| f in live && f.path == src && file.basedOn == f.basedOn && file.source == f.source;
      assert f != file && old(OriginOf(f)) in origins;
    }
    forall d | d in datasets && d != datasets[i]
      ensures d.Live() == old(d.Live()) && d.IsTidy()
    {
      forall f | f in d.datasetFiles
        ensures f.dateRemoved == old(f.dateRemoved)
      {
        if f in old(datasets[i].datasetFiles) {
          assert f.path in shared;
        }
      }
    }
  }

  /** The origins of the datasets from `i` on are as they were at the start. */
  ghost predicate OriginsFrom(datasets: seq<Dataset>, i: nat, src: Path, origins: seq<set<Origin>>)
    reads datasets, set d, k | d in datasets && 0 <= k < |d.datasetFiles| :: d.datasetFiles[k]
  {
    |origins| == |datasets| && forall j :: i <= j < |datasets| ==> OriginsAt(datasets[j].Live(), src) == origins[j]
  }

  /** The same turn, keeping track of where the file has its origin from. */
  method MoveTurn(datasets: seq<Dataset>, i: nat, file: DatasetFile, src: Path, hasTarget: bool, now: int, ghost shared: set<Path>,
                  ghost origins: seq<set<Origin>>, ghost own: Origin)
    returns (touched: bool)
    requires i < |datasets| && NamesDiffer(datasets) && Ready(datasets, shared)
    requires file.IsLive() && file.path in shared && src !in shared
    requires OriginsFrom(datasets, i, src, origins) && HasLastOrigin(origins, i, own, OriginOf(file))
    modifies datasets[i], file`basedOn, file`source, (set f | f in datasets[i].datasetFiles)`dateRemoved
    ensures Ready(datasets, shared) && file.IsLive()
    ensures AllFiles(datasets) <= old(AllFiles(datasets)) + {file}
    ensures forall d :: d in datasets && d != datasets[i] ==>
              d.datasetFiles == old(d.datasetFiles) && d.Live() == old(d.Live())
    ensures OriginsFrom(datasets, i + 1, src, origins) && HasLastOrigin(origins, i + 1, own, OriginOf(file))
    ensures var d := datasets[i];
            && Stepped(old(d.Live()), d.Live(), file, src, JoinsHere(d.datadir, old(d.Live()), file, src, hasTarget))
            && (touched <==> Touches(d.datadir, old(d.Live()), file, src))
            && (!touched ==> d.datasetFiles == old(d.datasetFiles) && d.Live() == old(d.Live()))
  {
    touched := MoveAt(datasets, i, file, src, hasTarget, now, shared);
    forall j | i + 1 <= j < |datasets|
      ensures OriginsAt(datasets[j].Live(), src) == origins[j]
    {
      assert datasets[j].name != datasets[i].name;
      assert datasets[j].Live() == old(datasets[j].Live());
      forall f | f in datasets[j].Live() && f.path == src ensures OriginOf(f) == old(OriginOf(f)) {
        assert f != file;
      }
      assert OriginsAt(datasets[j].Live(), src) == old(OriginsAt(datasets[j].Live(), src));
    }
  }

  /** What one file did to one dataset and to the record of modified datasets. */
  ghost predicate Settled(d: Dataset, live: set<DatasetFile>, entries: seq<DatasetFile>, liveNow: set<DatasetFile>, entriesNow: seq<DatasetFile>,
                          file: DatasetFile, src: Path, hasTarget: bool,
                          modifiedBefore: map<string, Dataset>, modified: map<string, Dataset>)
  {
    && Stepped(live, liveNow, file, src, JoinsHere(d.datadir, live, file, src, hasTarget))
    && (d.name in modified <==> d.name in modifiedBefore || Touches(d.datadir, live, file, src))
    && (!Touches(d.datadir, live, file, src) ==> entriesNow == entries && liveNow == live)
  }

  /** The live entries and the lists of every dataset. */
  datatype Snapshot = Snapshot(live: map<Dataset, set<DatasetFile>>, entries: map<Dataset, seq<DatasetFile>>)

  ghost function Look(datasets: seq<Dataset>): Snapshot
    reads datasets, set d, i | d in datasets && 0 <= i < |d.datasetFiles| :: d.datasetFiles[i]
  {
    Snapshot(map d | d in datasets :: d.Live(), map d | d in datasets :: d.datasetFiles)
  }

  ghost predicate Knows(s: Snapshot, datasets: seq<Dataset>) {
    forall d :: d in datasets ==> d in s.live && d in s.entries
  }

  /** The first `n` datasets are settled, the others as before. */
  ghost predicate SettledUpTo(datasets: seq<Dataset>, n: nat, before: Snapshot, after: Snapshot,
                              file: DatasetFile, src: Path, hasTarget: bool,
                              modifiedBefore: map<string, Dataset>, modified: map<string, Dataset>)
    requires n <= |datasets| && Knows(before, datasets) && Knows(after, datasets)
  {
    && Recorded(datasets, modified)
    && (forall j :: 0 <= j < n ==>
          var d := datasets[j];
          Settled(d, before.live[d], before.entries[d], after.live[d], after.entries[d], file, src, hasTarget, modifiedBefore, modified))
    && (forall j :: n <= j < |datasets| ==>
          var d := datasets[j];
          && after.live[d] == before.live[d] && after.entries[d] == before.entries[d]
          && (d.name in modified <==> d.name in modifiedBefore))
  }

  lemma SettleNext(datasets: seq<Dataset>, n: nat, before: Snapshot, between: Snapshot, after: Snapshot,
                   file: DatasetFile, src: Path, hasTarget: bool,
                   modifiedBefore: map<string, Dataset>, modifiedThen: map<string, Dataset>, modified: map<string, Dataset>)
    requires n < |datasets| && NamesDiffer(datasets)
    requires Knows(before, datasets) && Knows(between, datasets) && Knows(after, datasets)
    requires SettledUpTo(datasets, n, before, between, file, src, hasTarget, modifiedBefore, modifiedThen)
    requires forall d :: d in datasets && d != datasets[n] ==> after.live[d] == between.live[d] && after.entries[d] == between.entries[d]
    requires var d := datasets[n];
             && Stepped(between.live[d], after.live[d], file, src, JoinsHere(d.datadir, between.live[d], file, src, hasTarget))
             && modified == (if Touches(d.datadir, between.live[d], file, src) then modifiedThen[d.name := d] else modifiedThen)
             && (!Touches(d.datadir, between.live[d], file, src) ==>
                   after.entries[d] == between.entries[d] && after.live[d] == between.live[d])
    ensures SettledUpTo(datasets, n + 1, before, after, file, src, hasTarget, modifiedBefore, modified)
  {
    forall j | 0 <= j < |datasets| && j != n
      ensures datasets[j].name in modified <==> datasets[j].name in modifiedThen
      ensures datasets[j] != datasets[n]
    {
      assert datasets[j].name != datasets[n].name;
    }
    var d := datasets[n];
    assert between.live[d] == before.live[d] && between.entries[d] == before.entries[d];
    assert Settled(d, before.live[d], before.entries[d], after.live[d], after.entries[d], file, src, hasTarget, modifiedBefore, modified);
  }

  /** The inner loop. */
  method MoveInAll(datasets: seq<Dataset>, file: DatasetFile, src: Path, hasTarget: bool, now: int,
                   modifiedBefore: map<string, Dataset>, ghost shared: set<Path>)
    returns (modified: map<string, Dataset>)
    requires NamesDiffer(datasets) && Ready(datasets, shared) && Recorded(datasets, modifiedBefore)
    requires file.IsLive() && file.path in shared && src !in shared
    modifies datasets, file`basedOn, file`source, AllFiles(datasets)`dateRemoved
    ensures Ready(datasets, shared) && file.IsLive()
    ensures AllFiles(datasets) <= old(AllFiles(datasets)) + {file}
    ensures SettledUpTo(datasets, |datasets|, old(Look(datasets)), Look(datasets), file, src, hasTarget, modifiedBefore, modified)
    ensures HasLastOrigin(old(OriginLists(datasets, src)), |datasets|, old(OriginOf(file)), OriginOf(file))
  {
    modified := modifiedBefore;
    ghost var before, origins, own := Look(datasets), OriginLists(datasets, src), OriginOf(file);
    for i := 0 to |datasets|
      invariant Ready(datasets, shared) && file.IsLive()
      invariant AllFiles(datasets) <= old(AllFiles(datasets)) + {file}
      invariant SettledUpTo(datasets, i, before, Look(datasets), file, src, hasTarget, modifiedBefore, modified)
      invariant OriginsFrom(datasets, i, src, origins) && HasLastOrigin(origins, i, own, OriginOf(file))
    {
      ghost var between, modifiedThen := Look(datasets), modified;
      var touched := MoveTurn(datasets, i, file, src, hasTarget, now, shared, origins, own);
      if touched {
        modified := modified[datasets[i].name := datasets[i]];
      }
      SettleNext(datasets, i, before, between, Look(datasets), file, src, hasTarget, modifiedBefore, modifiedThen, modified);
    }
  }

  // ---------- All files ----------

  /** What is known about a file at its destination. */
  datatype FileInfo = FileInfo(checksum: string, dateAdded: int, linked: bool, id: string)

  type Item = (Path, Path)

  /** The sources are the keys of a dictionary; destinations are distinct, and none is a source. */
  ghost predicate Proper(items: seq<Item>) {
    && (forall i, j :: 0 <= i < j < |items| ==> items[i].0 != items[j].0 && items[i].1 != items[j].1)
    && (forall i, j :: 0 <= i < |items| && 0 <= j < |items| ==> items[i].0 != items[j].1)
  }

  ghost function Destinations(items: seq<Item>): set<Path> {
    set i | 0 <= i < |items| :: items[i].1
  }

  /** Does the destination of an item join a dataset with these live entries? */
  ghost predicate Joins(d: Dataset, live: set<DatasetFile>, item: Item, info: FileInfo, target: Dataset?) {
    || IsWithin(item.1, d.datadir)
    || d == target
    || (target == null && info.linked && HasPath(live, item.0))
  }

  /** Entries at other paths are as before. */
  ghost predicate ElsewhereKept(before: set<DatasetFile>, after: set<DatasetFile>, items: seq<Item>, n: nat)
    requires n <= |items|
  {
    forall f :: f in before + after && (forall k :: 0 <= k < n ==> f.path != items[k].0 && f.path != items[k].1) ==>
      (f in after <==> f in before)
  }

  /** An item is moved: its source is gone, and its destination is live where it was or where it joins, in its new version. */
  ghost predicate IsMoved(d: Dataset, before: set<DatasetFile>, after: set<DatasetFile>, item: Item, info: FileInfo, target: Dataset?) {
    && !HasPath(after, item.0)
    && (HasPath(after, item.1) <==> HasPath(before, item.1) || Joins(d, before, item, info, target))
    && (forall f :: f in after && f.path == item.1 ==> f.checksum == info.checksum && f.dateAdded == info.dateAdded)
  }

  /** What the first `n` items did to one dataset. */
  ghost predicate MovedUpTo(d: Dataset, before: set<DatasetFile>, after: set<DatasetFile>, items: seq<Item>, n: nat,
                            describe: Path -> FileInfo, target: Dataset?)
    requires n <= |items|
  {
    && ElsewhereKept(before, after, items, n)
    && (forall k :: 0 <= k < n ==> IsMoved(d, before, after, items[k], describe(items[k].1), target))
  }

  lemma MoveNext(d: Dataset, before: set<DatasetFile>, between: set<DatasetFile>, after: set<DatasetFile>, items: seq<Item>, n: nat,
                 describe: Path -> FileInfo, target: Dataset?, file: DatasetFile)
    requires n < |items| && Proper(items)
    requires MovedUpTo(d, before, between, items, n, describe, target)
    requires file.path == items[n].1 && file.linked == describe(items[n].1).linked
    requires file.checksum == describe(items[n].1).checksum && file.dateAdded == describe(items[n].1).dateAdded
    requires Stepped(between, after, file, items[n].0, Joins(d, between, items[n], describe(items[n].1), target))
    ensures MovedUpTo(d, before, after, items, n + 1, describe, target)
  {
    var joins := Joins(d, between, items[n], describe(items[n].1), target);
    forall k | 0 <= k < n
      ensures IsMoved(d, before, after, items[k], describe(items[k].1), target)
    {
      StaysMoved(d, before, between, after, items[k], describe(items[k].1), target, file, items[n].0, joins);
    }
    PathUntouched(before, between, items, n, items[n].0);
    PathUntouched(before, between, items, n, items[n].1);
    assert IsMoved(d, before, after, items[n], describe(items[n].1), target);
    StepKeepsElsewhere(before, between, after, items, n, file, joins);
  }

  lemma StaysMoved(d: Dataset, before: set<DatasetFile>, between: set<DatasetFile>, after: set<DatasetFile>, item: Item, info: FileInfo,
                   target: Dataset?, file: DatasetFile, src: Path, joins: bool)
    requires IsMoved(d, before, between, item, info, target) && Stepped(between, after, file, src, joins)
    requires item.0 != src && item.0 != file.path && item.1 != src && item.1 != file.path
    ensures IsMoved(d, before, after, item, info, target)
  {
    PathKept(between, after, file, src, joins, item.0);
    PathKept(between, after, file, src, joins, item.1);
  }

  lemma StepKeepsElsewhere(before: set<DatasetFile>, between: set<DatasetFile>, after: set<DatasetFile>, items: seq<Item>, n: nat,
                           file: DatasetFile, joins: bool)
    requires n < |items| && file.path == items[n].1
    requires ElsewhereKept(before, between, items, n) && Stepped(between, after, file, items[n].0, joins)
    ensures ElsewhereKept(before, after, items, n + 1)
  {
    forall f | f in before + after && (forall k :: 0 <= k < n + 1 ==> f.path != items[k].0 && f.path != items[k].1)
      ensures f in after <==> f in before
    {
      assert f.path != items[n].0 && f.path != items[n].1;
      assert f in between <==> f in after;
    }
  }

  lemma PathKept(before: set<DatasetFile>, after: set<DatasetFile>, file: DatasetFile, src: Path, joins: bool, path: Path)
    requires Stepped(before, after, file, src, joins) && path != src && path != file.path
    ensures HasPath(after, path) <==> HasPath(before, path)
  {
  }

  lemma PathUntouched(before: set<DatasetFile>, after: set<DatasetFile>, items: seq<Item>, n: nat, path: Path)
    requires n <= |items| && forall k :: 0 <= k < n ==> path != items[k].0 && path != items[k].1
    requires ElsewhereKept(before, after, items, n)
    ensures HasPath(after, path) <==> HasPath(before, path)
  {
  }

  // ---------- The outer loop ----------

  /** What one item did to every dataset and to the record of modified datasets. */
  ghost predicate OneMoved(datasets: seq<Dataset>, before: Snapshot, after: Snapshot, file: DatasetFile, src: Path, target: Dataset?,
                           modifiedBefore: map<string, Dataset>, modified: map<string, Dataset>)
    requires Knows(before, datasets) && Knows(after, datasets)
  {
    && Recorded(datasets, modified) && modifiedBefore.Keys <= modified.Keys
    && (forall d :: d in datasets ==>
          && Stepped(before.live[d], after.live[d], file, src,
                     JoinsHere(d.datadir, before.live[d], file, src, target != null) || d == target)
          && (d.name in modified <==> d.name in modifiedBefore || Touches(d.datadir, before.live[d], file, src))
          && (d.name !in modified && d != target ==> after.live[d] == before.live[d] && after.entries[d] == before.entries[d]))
  }

  lemma StepThenJoin(before: set<DatasetFile>, between: set<DatasetFile>, after: set<DatasetFile>, file: DatasetFile, src: Path, joins: bool)
    requires Stepped(before, between, file, src, joins) && Joined(between, after, file) && file.path != src
    ensures Stepped(before, after, file, src, true)
  {
  }

  lemma SettledThenTarget(datasets: seq<Dataset>, before: Snapshot, between: Snapshot, after: Snapshot, file: DatasetFile, src: Path,
                          target: Dataset?, modifiedBefore: map<string, Dataset>, modified: map<string, Dataset>)
    requires Knows(before, datasets) && Knows(between, datasets) && Knows(after, datasets) && file.path != src
    requires Recorded(datasets, modifiedBefore)
    requires SettledUpTo(datasets, |datasets|, before, between, file, src, target != null, modifiedBefore, modified)
    requires forall d :: d in datasets && d != target ==> after.live[d] == between.live[d] && after.entries[d] == between.entries[d]
    requires target != null ==> target in datasets && Joined(between.live[target], after.live[target], file)
    ensures OneMoved(datasets, before, after, file, src, target, modifiedBefore, modified)
  {
    forall d | d in datasets
      ensures Stepped(before.live[d], after.live[d], file, src,
                      JoinsHere(d.datadir, before.live[d], file, src, target != null) || d == target)
      ensures d.name in modified <==> d.name in modifiedBefore || Touches(d.datadir, before.live[d], file, src)
      ensures d.name !in modified && d != target ==> after.live[d] == before.live[d] && after.entries[d] == before.entries[d]
    {
      var j :| 0 <= j < |datasets| && datasets[j] == d;
      if d == target {
        StepThenJoin(before.live[d], between.live[d], after.live[d], file, src,
                     JoinsHere(d.datadir, before.live[d], file, src, target != null));
      }
    }
  }

  /** Adding the file to the target leaves the other datasets as they are. */
  method AddToTarget(datasets: seq<Dataset>, file: DatasetFile, target: Dataset, ghost shared: set<Path>)
    requires Ready(datasets, shared) && file.IsLive() && file.path in shared && target in datasets
    modifies target
    ensures Ready(datasets, shared)
    ensures AllFiles(datasets) <= old(AllFiles(datasets)) + {file}
    ensures forall d :: d in datasets && d != target ==> d.datasetFiles == old(d.datasetFiles) && d.Live() == old(d.Live())
    ensures Joined(old(target.Live()), target.Live(), file)
  {
    AddOrUpdateFile(target, file);
    forall d | d in datasets && d != target
      ensures d.datasetFiles == old(d.datasetFiles) && d.Live() == old(d.Live()) && d.IsTidy()
    {
    }
  }

  /** The body of the outer loop: the inner loop, and then the target. */
  method MoveOne(datasets: seq<Dataset>, file: DatasetFile, src: Path, target: Dataset?, now: int,
                 modifiedBefore: map<string, Dataset>, ghost shared: set<Path>)
    returns (modified: map<string, Dataset>)
    requires NamesDiffer(datasets) && Ready(datasets, shared) && Recorded(datasets, modifiedBefore)
    requires file.IsLive() && file.path in shared && src !in shared
    requires target != null ==> target in datasets
    modifies datasets, file`basedOn, file`source, AllFiles(datasets)`dateRemoved
    ensures Ready(datasets, shared)
    ensures AllFiles(datasets) <= old(AllFiles(datasets)) + {file}
    ensures OneMoved(datasets, old(Look(datasets)), Look(datasets), file, src, target, modifiedBefore, modified)
    ensures HasLastOrigin(old(OriginLists(datasets, src)), |datasets|, old(OriginOf(file)), OriginOf(file))
  {
    ghost var before := Look(datasets);
    modified := MoveInAll(datasets, file, src, target != null, now, modifiedBefore, shared);
    ghost var between := Look(datasets);
    if target != null {
      AddToTarget(datasets, file, target, shared);
    }
    SettledThenTarget(datasets, before, between, Look(datasets), file, src, target, modifiedBefore, modified);
  }

  /** Is a source live in the dataset, or a destination live in it or within its data directory? */
  ghost predicate IsTouched(datadir: Path, live: set<DatasetFile>, items: seq<Item>, n: nat)
    requires n <= |items|
  {
    exists k :: 0 <= k < n && (HasPath(live, items[k].0) || HasPath(live, items[k].1) || IsWithin(items[k].1, datadir))
  }

  /** Earlier items leave the paths of the next one alone, so whether that touches the dataset is seen from the start. */
  lemma TouchedNext(d: Dataset, before: set<DatasetFile>, between: set<DatasetFile>, items: seq<Item>, n: nat,
                    describe: Path -> FileInfo, target: Dataset?, file: DatasetFile)
    requires n < |items| && Proper(items) && MovedUpTo(d, before, between, items, n, describe, target) && file.path == items[n].1
    ensures IsTouched(d.datadir, before, items, n + 1) <==>
            IsTouched(d.datadir, before, items, n) || Touches(d.datadir, between, file, items[n].0)
  {
    PathUntouched(before, between, items, n, items[n].0);
    PathUntouched(before, between, items, n, items[n].1);
  }

  /** What the first `n` items did to every dataset. */
  ghost predicate AllMovedUpTo(datasets: seq<Dataset>, before: Snapshot, after: Snapshot, items: seq<Item>, n: nat,
                               describe: Path -> FileInfo, target: Dataset?, modified: map<string, Dataset>)
    requires Knows(before, datasets) && Knows(after, datasets) && n <= |items|
  {
    && Recorded(datasets, modified)
    && (forall d :: d in datasets ==> MovedUpTo(d, before.live[d], after.live[d], items, n, describe, target))
    && (forall d :: d in datasets ==> (d.name in modified <==> IsTouched(d.datadir, before.live[d], items, n)))
    && (forall d :: d in datasets && d.name !in modified && d != target ==>
          after.live[d] == before.live[d] && after.entries[d] == before.entries[d])
  }

  lemma MoveNextInAll(datasets: seq<Dataset>, before: Snapshot, between: Snapshot, after: Snapshot, items: seq<Item>, n: nat,
                      describe: Path -> FileInfo, target: Dataset?, file: DatasetFile,
                      modifiedThen: map<string, Dataset>, modified: map<string, Dataset>)
    requires Knows(before, datasets) && Knows(between, datasets) && Knows(after, datasets)
    requires n < |items| && Proper(items)
    requires AllMovedUpTo(datasets, before, between, items, n, describe, target, modifiedThen)
    requires file.path == items[n].1 && file.linked == describe(items[n].1).linked
    requires file.checksum == describe(items[n].1).checksum && file.dateAdded == describe(items[n].1).dateAdded
    requires OneMoved(datasets, between, after, file, items[n].0, target, modifiedThen, modified)
    ensures AllMovedUpTo(datasets, before, after, items, n + 1, describe, target, modified)
  {
    forall d | d in datasets
      ensures MovedUpTo(d, before.live[d], after.live[d], items, n + 1, describe, target)
    {
      MoveNext(d, before.live[d], between.live[d], after.live[d], items, n, describe, target, file);
    }
    forall d | d in datasets
      ensures d.name in modified <==> IsTouched(d.datadir, before.live[d], items, n + 1)
    {
      TouchedNext(d, before.live[d], between.live[d], items, n, describe, target, file);
    }
  }

  /** `DatasetFile.from_path`: a new entry, known to no dataset yet. */
  method NewFile(datasets: seq<Dataset>, dst: Path, info: FileInfo, ghost shared: set<Path>) returns (file: DatasetFile)
    requires Ready(datasets, shared)
    ensures fresh(file) && file.IsLive() && file.path == dst && file.linked == info.linked
    ensures file.checksum == info.checksum && file.dateAdded == info.dateAdded
    ensures Ready(datasets, shared) && Look(datasets) == old(Look(datasets)) && AllFiles(datasets) == old(AllFiles(datasets))
    ensures OriginOf(file) == (None, "None") && forall path :: OriginLists(datasets, path) == old(OriginLists(datasets, path))
  {
    file := new DatasetFile(dst, info.checksum, info.dateAdded, info.linked, info.id, None, None, "None");
  }

  /** One turn of the outer loop: makes the new file that the datasets will share, and moves it. */
  method MoveItem(datasets: seq<Dataset>, item: Item, info: FileInfo, target: Dataset?, now: int,
                  modifiedBefore: map<string, Dataset>, ghost shared: set<Path>)
    returns (modified: map<string, Dataset>, file: DatasetFile)
    requires NamesDiffer(datasets) && Ready(datasets, shared) && Recorded(datasets, modifiedBefore)
    requires item.1 in shared && item.0 !in shared
    requires target != null ==> target in datasets
    modifies datasets, AllFiles(datasets)`dateRemoved
    ensures Ready(datasets, shared)
    ensures forall f :: f in AllFiles(datasets) ==> f in old(AllFiles(datasets)) || fresh(f)
    ensures file.path == item.1 && file.linked == info.linked && file.checksum == info.checksum && file.dateAdded == info.dateAdded
    ensures OneMoved(datasets, old(Look(datasets)), Look(datasets), file, item.0, target, modifiedBefore, modified)
    ensures HasLastOrigin(old(OriginLists(datasets, item.0)), |datasets|, (None, "None"), OriginOf(file))
  {
    file := NewFile(datasets, item.1, info, shared);
    modified := MoveOne(datasets, file, item.0, target, now, modifiedBefore, shared);
  }

  /** The same turn, after `n` earlier ones. */
  method MoveNth(datasets: seq<Dataset>, items: seq<Item>, n: nat, describe: Path -> FileInfo, target: Dataset?, now: int,
                 modifiedBefore: map<string, Dataset>, ghost before: Snapshot)
    returns (modified: map<string, Dataset>)
    requires NamesDiffer(datasets) && Ready(datasets, Destinations(items)) && Proper(items) && n < |items|
    requires target != null ==> target in datasets
    requires Knows(before, datasets)
    requires AllMovedUpTo(datasets, before, Look(datasets), items, n, describe, target, modifiedBefore)
    modifies datasets, AllFiles(datasets)`dateRemoved
    ensures Ready(datasets, Destinations(items))
    ensures forall f :: f in AllFiles(datasets) ==> f in old(AllFiles(datasets)) || fresh(f)
    ensures AllMovedUpTo(datasets, before, Look(datasets), items, n + 1, describe, target, modified)
  {
    ghost var between := Look(datasets);
    var file;
    modified, file := MoveItem(datasets, items[n], describe(items[n].1), target, now, modifiedBefore, Destinations(items));
    MoveNextInAll(datasets, before, between, Look(datasets), items, n, describe, target, file, modifiedBefore, modified);
  }

  /** The outer loop, on datasets that it may change. */
  method MoveAllItems(datasets: seq<Dataset>, items: seq<Item>, describe: Path -> FileInfo, target: Dataset?, now: int)
    returns (modified: map<string, Dataset>)
    requires NamesDiffer(datasets) && Ready(datasets, Destinations(items)) && Proper(items)
    requires target != null ==> target in datasets
    modifies datasets, AllFiles(datasets)`dateRemoved
    ensures Ready(datasets, Destinations(items))
    ensures AllMovedUpTo(datasets, old(Look(datasets)), Look(datasets), items, |items|, describe, target, modified)
  {
    modified := map[];
    ghost var before := Look(datasets);
    for n := 0 to |items|
      invariant Ready(datasets, Destinations(items))
      invariant forall f :: f in AllFiles(datasets) ==> f in old(AllFiles(datasets)) || fresh(f)
      invariant AllMovedUpTo(datasets, before, Look(datasets), items, n, describe, target, modified)
    {
      modified := MoveNth(datasets, items, n, describe, target, now, modified, before);
    }
  }

  // ---------- `move_files` ----------

  /** Fresh copies of the datasets, which share no files. */
  method CopyAll(gateway: seq<Dataset>) returns (datasets: seq<Dataset>)
    requires forall d :: d in gateway ==> d.IsTidy()
    ensures |datasets| == |gateway| && (forall d :: d in datasets ==> fresh(d) && fresh(d.datasetFiles))
    ensures forall i :: 0 <= i < |gateway| ==> IsCopy(gateway[i], old(gateway[i].Live()), datasets[i])
    ensures Ready(datasets, {})
  {
    datasets := [];
    for i := 0 to |gateway|
      invariant |datasets| == i && (forall d :: d in datasets ==> fresh(d) && fresh(d.datasetFiles))
      invariant forall j :: 0 <= j < i ==> IsCopy(gateway[j], old(gateway[j].Live()), datasets[j])
      invariant Ready(datasets, {})
    {
      var clone := CopyBeside(datasets, gateway[i]);
      datasets := datasets + [clone];
    }
  }

  /** Another copy, which shares no file with the earlier ones. */
  method CopyBeside(datasets: seq<Dataset>, d: Dataset) returns (clone: Dataset)
    requires d.IsTidy() && Ready(datasets, {})
    ensures fresh(clone) && fresh(clone.datasetFiles) && IsCopy(d, old(d.Live()), clone)
    ensures Ready(datasets + [clone], {})
  {
    clone := CopyOne(d);
    assert clone.IsTidy() && Apart(datasets, {});
    assert forall c :: c in datasets + [clone] <==> c in datasets || c == clone;
  }

  ghost predicate IsCopy(d: Dataset, live: set<DatasetFile>, clone: Dataset)
    reads clone, clone.datasetFiles
  {
    clone.name == d.name && clone.datadir == d.datadir && SameFiles(live, clone.Live())
  }

  /** Is there an entry for the same version of the file, at its path? */
  ghost predicate HasFile(live: set<DatasetFile>, file: DatasetFile) {
    exists f :: f in live && f.path == file.path && SameVersion(f, file) && f.linked == file.linked
  }

  ghost predicate SameFiles(a: set<DatasetFile>, b: set<DatasetFile>) {
    (forall f :: f in a ==> HasFile(b, f)) && (forall f :: f in b ==> HasFile(a, f))
  }

  method CopyOne(d: Dataset) returns (clone: Dataset)
    requires d.IsTidy()
    ensures fresh(clone) && fresh(clone.datasetFiles) && clone.IsTidy() && IsCopy(d, old(d.Live()), clone)
  {
    clone := d.Copy();
    forall f | f in d.Live()
      ensures HasFile(clone.Live(), f)
    {
      var i :| 0 <= i < |d.datasetFiles| && d.datasetFiles[i] == f;
      assert clone.datasetFiles[i] in clone.Live();
    }
    forall f | f in clone.Live()
      ensures HasFile(d.Live(), f)
    {
      var i :| 0 <= i < |d.datasetFiles| && clone.datasetFiles[i] == f;
      assert d.datasetFiles[i] in d.Live();
    }
  }

  /** `next(d for d in datasets if d.name == name)`. */
  method FindByName(datasets: seq<Dataset>, name: string) returns (r: Outcome<Dataset>)
    ensures r.Raised? <==> forall d :: d in datasets ==> d.name != name
    ensures r.Done? ==> r.value in datasets && r.value.name == name
  {
    for i := 0 to |datasets|
      invariant forall j :: 0 <= j < i ==> datasets[j].name != name
    {
      if datasets[i].name == name {
        return Done(datasets[i]);
      }
    }
    return Raised;
  }

  /** The copies after the move, the record of modified ones, and the target. */
  datatype Outcomes = Outcomes(datasets: seq<Dataset>, modified: map<string, Dataset>, target: Dataset?)

  /** Where a path is live after the move, given where it was live before. */
  ghost predicate LiveAfterwards(live: set<DatasetFile>, datadir: Path, isTarget: bool, hasTarget: bool, items: seq<Item>,
                                 describe: Path -> FileInfo, path: Path) {
    && (forall k :: 0 <= k < |items| ==> path != items[k].0)
    && (HasPath(live, path)
        || exists k :: 0 <= k < |items| && items[k].1 == path
                    && (IsWithin(path, datadir) || isTarget || (!hasTarget && describe(path).linked && HasPath(live, items[k].0))))
  }

  lemma SameFilesMeans(a: set<DatasetFile>, b: set<DatasetFile>, path: Path)
    requires SameFiles(a, b)
    ensures HasPath(a, path) <==> HasPath(b, path)
  {
  }

  lemma SameFilesSameTouched(datadir: Path, a: set<DatasetFile>, b: set<DatasetFile>, items: seq<Item>)
    requires SameFiles(a, b)
    ensures IsTouched(datadir, a, items, |items|) <==> IsTouched(datadir, b, items, |items|)
  {
    forall k | 0 <= k < |items|
      ensures HasPath(a, items[k].0) <==> HasPath(b, items[k].0)
      ensures HasPath(a, items[k].1) <==> HasPath(b, items[k].1)
    {
      SameFilesMeans(a, b, items[k].0);
      SameFilesMeans(a, b, items[k].1);
    }
  }

  lemma MovedMeansLive(d: Dataset, live: set<DatasetFile>, before: set<DatasetFile>, after: set<DatasetFile>, items: seq<Item>,
                       describe: Path -> FileInfo, target: Dataset?, path: Path)
    requires Proper(items) && SameFiles(live, before)
    requires MovedUpTo(d, before, after, items, |items|, describe, target)
    ensures HasPath(after, path) <==> LiveAfterwards(live, d.datadir, d == target, target != null, items, describe, path)
  {
    if k :| 0 <= k < |items| && (path == items[k].0 || path == items[k].1) {
      assert IsMoved(d, before, after, items[k], describe(items[k].1), target);
      SameFilesMeans(live, before, items[k].0);
      SameFilesMeans(live, before, items[k].1);
    } else {
      PathUntouched(before, after, items, |items|, path);
      SameFilesMeans(live, before, path);
    }
  }

  lemma ElsewhereIsCopied(d: Dataset, live: set<DatasetFile>, before: set<DatasetFile>, after: set<DatasetFile>, items: seq<Item>,
                          describe: Path -> FileInfo, target: Dataset?, f: DatasetFile)
    requires SameFiles(live, before) && MovedUpTo(d, before, after, items, |items|, describe, target)
    requires f in after && forall k :: 0 <= k < |items| ==> f.path != items[k].1
    ensures HasFile(live, f)
  {
    forall k | 0 <= k < |items| ensures f.path != items[k].0 {
      assert IsMoved(d, before, after, items[k], describe(items[k].1), target);
    }
    assert f in before;
  }

  /** Is the dataset a moved copy, and recorded if any path changed? */
  ghost predicate IsMovedCopy(original: Dataset, live: set<DatasetFile>, d: Dataset, target: Dataset?, items: seq<Item>,
                              describe: Path -> FileInfo, modified: map<string, Dataset>)
    reads d, d.datasetFiles
  {
    && d.name == original.name && d.datadir == original.datadir && d.IsTidy()
    && (forall path :: HasPath(d.Live(), path) <==>
                       LiveAfterwards(live, d.datadir, d == target, target != null, items, describe, path))
    && (forall k, f :: 0 <= k < |items| && f in d.Live() && f.path == items[k].1 ==> f.checksum == describe(items[k].1).checksum)
    && (forall f :: f in d.Live() && (forall k :: 0 <= k < |items| ==> f.path != items[k].1) ==> HasFile(live, f))
    && (d.name in modified <==> IsTouched(d.datadir, live, items, |items|))
    && (d.name in modified ==> modified[d.name] == d)
    && (d.name !in modified && d != target ==> SameFiles(live, d.Live()))
  }

  /** Every copy is a moved copy of the original. */
  ghost predicate AreMovedCopies(gateway: seq<Dataset>, live: seq<set<DatasetFile>>, datasets: seq<Dataset>, target: Dataset?,
                                 items: seq<Item>, describe: Path -> FileInfo, modified: map<string, Dataset>)
    reads datasets, set d, i | d in datasets && 0 <= i < |d.datasetFiles| :: d.datasetFiles[i]
  {
    && |datasets| == |gateway| == |live|
    && (forall n :: n in modified ==> exists i :: 0 <= i < |gateway| && gateway[i].name == n)
    && forall i :: 0 <= i < |gateway| ==> IsMovedCopy(gateway[i], live[i], datasets[i], target, items, describe, modified)
  }

  /** The move itself, once the copies are made and the target is found among them. */
  method MoveCopies(gateway: seq<Dataset>, ghost live: seq<set<DatasetFile>>, datasets: seq<Dataset>, items: seq<Item>,
                    describe: Path -> FileInfo, target: Dataset?, now: int)
    returns (modified: map<string, Dataset>)
    requires NamesDiffer(datasets) && Ready(datasets, {}) && Proper(items) && |gateway| == |live| == |datasets|
    requires forall i :: 0 <= i < |gateway| ==> IsCopy(gateway[i], live[i], datasets[i])
    requires target != null ==> target in datasets
    modifies datasets, AllFiles(datasets)`dateRemoved
    ensures AreMovedCopies(gateway, live, datasets, target, items, describe, modified)
  {
    ghost var before := Look(datasets);
    assert CopiedFrom(gateway, live, datasets, before);
    modified := MoveAllItems(datasets, items, describe, target, now);
    MovedCopiesAreMoved(gateway, live, datasets, before, target, items, describe, modified);
  }

  /** The datasets, as they were looked at, are copies of these. */
  ghost predicate CopiedFrom(gateway: seq<Dataset>, live: seq<set<DatasetFile>>, datasets: seq<Dataset>, s: Snapshot) {
    && |gateway| == |live| == |datasets| && Knows(s, datasets)
    && forall i :: 0 <= i < |gateway| ==>
         datasets[i].name == gateway[i].name && datasets[i].datadir == gateway[i].datadir && SameFiles(live[i], s.live[datasets[i]])
  }

  lemma MovedCopiesAreMoved(gateway: seq<Dataset>, live: seq<set<DatasetFile>>, datasets: seq<Dataset>, before: Snapshot,
                            target: Dataset?, items: seq<Item>, describe: Path -> FileInfo, modified: map<string, Dataset>)
    requires NamesDiffer(datasets) && Proper(items) && CopiedFrom(gateway, live, datasets, before)
    requires forall d :: d in datasets ==> d.IsTidy()
    requires AllMovedUpTo(datasets, before, Look(datasets), items, |items|, describe, target, modified)
    ensures AreMovedCopies(gateway, live, datasets, target, items, describe, modified)
  {
    forall i | 0 <= i < |gateway|
      ensures IsMovedCopy(gateway[i], live[i], datasets[i], target, items, describe, modified)
    {
      MovedCopyIsMoved(gateway, i, live[i], datasets, before, target, items, describe, modified);
    }
    forall n | n in modified ensures exists i :: 0 <= i < |gateway| && gateway[i].name == n {
      RecordedIsNamed(gateway, datasets, modified, n);
    }
  }

  lemma RecordedIsNamed(gateway: seq<Dataset>, datasets: seq<Dataset>, modified: map<string, Dataset>, n: string)
    requires |gateway| == |datasets| && Recorded(datasets, modified) && n in modified
    requires forall i :: 0 <= i < |gateway| ==> datasets[i].name == gateway[i].name
    ensures exists i :: 0 <= i < |gateway| && gateway[i].name == n
  {
    var i :| 0 <= i < |datasets| && datasets[i] == modified[n];
    assert gateway[i].name == n;
  }

  /** The gateway's datasets stay as they are. */
  method MoveFiles(gateway: seq<Dataset>, items: seq<Item>, describe: Path -> FileInfo, targetName: Option<string>, now: int)
    returns (r: Outcome<Outcomes>)
    requires NamesDiffer(gateway) && (forall d :: d in gateway ==> d.IsTidy()) && Proper(items)
    ensures r.Raised? <==> targetName.Some? && forall d :: d in gateway ==> d.name != targetName.value
    ensures r.Done? ==>
              && (r.value.target == null <==> targetName.None?)
              && (r.value.target != null ==> r.value.target in r.value.datasets && r.value.target.name == targetName.value)
              && AreMovedCopies(gateway, old(LiveOf(gateway)), r.value.datasets, r.value.target, items, describe, r.value.modified)
  {
    ghost var live := LiveOf(gateway);
    var datasets := CopyAll(gateway);
    var target: Dataset? := null;
    if targetName.Some? {
      target :- FindByName(datasets, targetName.value);
    }
    var modified := MoveCopies(gateway, live, datasets, items, describe, target, now);
    return Done(Outcomes(datasets, modified, target));
  }

  lemma MovedCopyIsMoved(gateway: seq<Dataset>, i: nat, live: set<DatasetFile>, datasets: seq<Dataset>, before: Snapshot,
                         target: Dataset?, items: seq<Item>, describe: Path -> FileInfo, modified: map<string, Dataset>)
    requires i < |gateway| == |datasets| && NamesDiffer(datasets) && Proper(items)
    requires datasets[i].name == gateway[i].name && datasets[i].datadir == gateway[i].datadir && datasets[i].IsTidy()
    requires Knows(before, datasets) && SameFiles(live, before.live[datasets[i]])
    requires AllMovedUpTo(datasets, before, Look(datasets), items, |items|, describe, target, modified)
    ensures IsMovedCopy(gateway[i], live, datasets[i], target, items, describe, modified)
  {
    var d := datasets[i];
    forall path
      ensures HasPath(d.Live(), path) <==> LiveAfterwards(live, d.datadir, d == target, target != null, items, describe, path)
    {
      MovedMeansLive(d, live, before.live[d], d.Live(), items, describe, target, path);
    }
    SameFilesSameTouched(d.datadir, live, before.live[d], items);
    forall f | f in d.Live() && (forall k :: 0 <= k < |items| ==> f.path != items[k].1)
      ensures HasFile(live, f)
    {
      ElsewhereIsCopied(d, live, before.live[d], d.Live(), items, describe, target, f);
    }
    assert forall k :: 0 <= k < |items| ==> IsMoved(d, before.live[d], d.Live(), items[k], describe(items[k].1), target);
  }
}
