/** Datasets: finding, unlinking, adding and versioning entries in place. */
module Datasets {
  import opened Common
  import opened DatasetLaws
  import opened FileLists

  class Dataset {
    const name: string
    const datadir: Path
    var datasetFiles: seq<DatasetFile>

    constructor (name: string, datadir: Path, files: seq<DatasetFile>)
      ensures this.name == name && this.datadir == datadir && datasetFiles == files
    {
      this.name, this.datadir, datasetFiles := name, datadir, files;
    }

    ghost function Live(): set<DatasetFile>
      reads this, datasetFiles
    {
      set f | f in datasetFiles && f.IsLive()
    }

    ghost predicate IsTidy()
      reads this, datasetFiles
    {
      OneLivePerPath(datasetFiles, Live())
    }

    ghost function AsListing(): Listing
      reads this, datasetFiles
    {
      Listing(datasetFiles, Live())
    }

    /** Is `live` what is live among the entries? */
    ghost predicate Agrees(live: set<DatasetFile>)
      reads this, datasetFiles
    {
      forall f :: f in datasetFiles ==> (f in live <==> f.IsLive())
    }

    /** `copy`: the entries are cloned too, so changing the clone leaves this dataset alone. */
    method Copy() returns (clone: Dataset)
      ensures fresh(clone) && clone.name == name && clone.datadir == datadir
      ensures |clone.datasetFiles| == |datasetFiles|
      ensures fresh(clone.datasetFiles)
      ensures forall i :: 0 <= i < |datasetFiles| ==>
                clone.datasetFiles[i].IsEqualTo(datasetFiles[i]) && clone.datasetFiles[i].id == datasetFiles[i].id
      ensures NoDuplicates(clone.datasetFiles)
      ensures IsTidy() ==> clone.IsTidy()
    {
      var files: seq<DatasetFile> := [];
      for i := 0 to |datasetFiles|
        invariant |files| == i && fresh(files) && NoDuplicates(files)
        invariant forall j :: 0 <= j < i ==> files[j].IsEqualTo(datasetFiles[j]) && files[j].id == datasetFiles[j].id
      {
        var f := datasetFiles[i].Copy(datasetFiles[i].id);
        files := files + [f];
      }
      clone := new Dataset(name, datadir, files);
    }

    /** `find_file`: the first live entry at the path. */
    method FindFile(path: Path, ghost live: set<DatasetFile>) returns (file: DatasetFile?)
      requires Agrees(live)
      ensures file == null <==> Locate(datasetFiles, live, path) == |datasetFiles|
      ensures file != null ==> file == datasetFiles[Locate(datasetFiles, live, path)]
    {
      for i := 0 to |datasetFiles|
        invariant forall j :: 0 <= j < i ==> !IsLiveAt(datasetFiles[j], live, path)
      {
        if datasetFiles[i].IsLive() && datasetFiles[i].path == path {
          return datasetFiles[i];
        }
      }
      return null;
    }

    /** `unlink_file`: the first live entry at the path, the only one if there are no two, is marked as removed. */
    method UnlinkFile(path: Path, missingOk: bool, now: int) returns (r: Outcome<DatasetFile?>)
      modifies (set f | f in datasetFiles)`dateRemoved
      ensures var i := Locate(datasetFiles, old(Live()), path);
              && (forall f :: f in datasetFiles ==>
                    f.dateRemoved == if i < |datasetFiles| && f == datasetFiles[i] then Some(now) else old(f.dateRemoved))
              && (r.Raised? <==> !missingOk && i == |datasetFiles|)
              && (r.Done? ==> r.value == if i < |datasetFiles| then datasetFiles[i] else null)
      ensures Takes(old(AsListing()), Unlink(path), AsListing())
      ensures old(IsTidy()) ==> IsTidy()
    {
      ghost var live := Live();
      var file := FindFile(path, live);
      if file == null {
        return if missingOk then Done(null) else Raised;
      }
      file.dateRemoved := Some(now);
      assert forall f :: f in datasetFiles && f != file ==> f.dateRemoved == old(f.dateRemoved);
      return Done(file);
    }

    /**
     `add_or_update_files`: if no path had two live entries before, none has two afterwards exactly if no
     two files of the batch clash.
     */
    method AddOrUpdateFiles(files: seq<DatasetFile>)
      modifies this
      ensures Takes(old(AsListing()), Batch(files, old(set f | f in files && f.IsLive())), AsListing())
      ensures old(IsTidy()) ==>
                (IsTidy() <==> !Clash(old(datasetFiles), old(Live()) + (set f | f in files && f.IsLive()), files))
    {
      ghost var before := AsListing();
      FillIn(files);
      BatchHappened(before, files);
    }

    /** What `AddOrUpdateFiles` did to the list, seen as a step. */
    lemma BatchHappened(before: Listing, files: seq<DatasetFile>)
      requires before.live == set f | f in before.entries && f.IsLive()
      requires datasetFiles == Kept(before.entries, before.live, files) + Added(before.entries, before.live, files)
      ensures var added := set f | f in files && f.IsLive();
              && Takes(before, Batch(files, added), AsListing())
              && (before.IsTidy() ==> (IsTidy() <==> !Clash(before.entries, before.live + added, files)))
    {
      var added := set f | f in files && f.IsLive();
      KeptAgrees(before.entries, before.live, before.live, files);
      AddedAgrees(before.entries, before.live, before.live, files);
      assert before.With(added) == before.live + added;
      if before.IsTidy() {
        StepIsTidyIff(before, Batch(files, added), AsListing());
      }
    }

    method FillIn(files: seq<DatasetFile>)
      modifies this
      ensures datasetFiles == Kept(old(datasetFiles), old(Live()), files) + Added(old(datasetFiles), old(Live()), files)
    {
      ghost var entries, live := datasetFiles, Live();
      var newFiles: seq<DatasetFile> := [];
      for i := 0 to |files|
        invariant Agrees(live)
        invariant datasetFiles == Kept(entries, live, files[..i])
        invariant newFiles == Added(entries, live, files[..i])
      {
        TakeNext(files, i);
        BatchSnoc(entries, live, files[..i], files[i]);
        var existing := FindFile(files[i].path, live);
        if existing == null {
          newFiles := newFiles + [files[i]];
        } else if !SameVersion(files[i], existing) {
          RemoveEntry(existing, live);
          newFiles := newFiles + [files[i]];
        }
      }
      assert files[..|files|] == files;
      if newFiles == [] {
        return;
      }
      datasetFiles := datasetFiles + newFiles;
    }

    /** `list.remove` of the entry that `FindFile` finds. */
    method RemoveEntry(file: DatasetFile, ghost live: set<DatasetFile>)
      requires Locate(datasetFiles, live, file.path) < |datasetFiles| && datasetFiles[Locate(datasetFiles, live, file.path)] == file
      modifies this
      ensures var i := Locate(old(datasetFiles), live, file.path); datasetFiles == old(datasetFiles)[..i] + old(datasetFiles)[i + 1..]
    {
      var i := 0;
      while datasetFiles[i] != file
        invariant i <= Locate(datasetFiles, live, file.path) && file !in datasetFiles[..i]
        decreases |datasetFiles| - i
      {
        i := i + 1;
      }
      LocatedFirst(datasetFiles, live, file, i);
      datasetFiles := datasetFiles[..i] + datasetFiles[i + 1..];
    }

    /** The live entries as a dictionary: its keys in order, and its values. */
    method LiveByPath(ghost live: set<DatasetFile>) returns (paths: seq<Path>, files: map<Path, DatasetFile>)
      requires Agrees(live)
      ensures NoDuplicates(paths) && (forall p :: p in paths <==> p in files)
      ensures files == ByPath(datasetFiles, live)
    {
      paths, files := [], map[];
      for i := 0 to |datasetFiles|
        invariant NoDuplicates(paths) && (forall p :: p in paths <==> p in files)
        invariant files == ByPath(datasetFiles[..i], live)
      {
        TakeNext(datasetFiles, i);
        ByPathSnoc(datasetFiles[..i], live, datasetFiles[i]);
        var f := datasetFiles[i];
        if f.IsLive() {
          if f.path !in files {
            paths := paths + [f.path];
          }
          files := files[f.path := f];
        }
      }
      assert datasetFiles[..|datasetFiles|] == datasetFiles;
    }

    /**
     * `update_files_from`: turns the entries into those of the version that follows `current`.
     * A live path gets the current entry if that has the same content, and its new entry if not; a
     * path that is live in `current` only is recorded once more, as a removed copy under a new id.
     */
    method UpdateFilesFrom(current: Dataset, date: int, generateId: Path -> string)
      modifies this
      ensures var mine, theirs := ByPath(old(datasetFiles), old(Live())), ByPath(old(current.datasetFiles), old(current.Live()));
              && Covers(datasetFiles, Choice(mine, theirs, old(Unchanged(mine, theirs))), theirs - mine.Keys)
              && (forall f :: f in datasetFiles ==> (f.IsLive() <==> f.path in mine))
              && (forall f :: f in datasetFiles && f.path !in mine ==>
                    fresh(f) && f.IsRemovedCopyOf(theirs[f.path], date, generateId))
      ensures exists same :: Takes(old(AsListing()), NextVersion(old(current.AsListing()), same), AsListing())
      ensures IsTidy()
    {
      ghost var before, theirs := AsListing(), current.AsListing();
      ghost var same := Unchanged(ByPath(before.entries, before.live), ByPath(theirs.entries, theirs.live));
      var files := NextEntries(current, date, generateId, before.live, theirs.live);
      ChosenAreLive(before, theirs, same, files);
      datasetFiles := files;
      VersionHappened(before, theirs, same);
    }

    lemma ChosenAreLive(before: Listing, theirs: Listing, same: set<Path>, files: seq<DatasetFile>)
      requires (forall f :: f in before.live ==> f.IsLive()) && forall f :: f in theirs.live ==> f.IsLive()
      requires var mine, current := ByPath(before.entries, before.live), ByPath(theirs.entries, theirs.live);
               Covers(files, Choice(mine, current, same), current - mine.Keys)
      ensures forall f :: f in files && f.path in ByPath(before.entries, before.live) ==> f.IsLive()
    {
      ByPathHolds(before.entries, before.live);
      ByPathHolds(theirs.entries, theirs.live);
    }

    /** What `UpdateFilesFrom` did to the list, seen as a step. */
    lemma VersionHappened(before: Listing, theirs: Listing, same: set<Path>)
      requires var mine, current := ByPath(before.entries, before.live), ByPath(theirs.entries, theirs.live);
               && Covers(datasetFiles, Choice(mine, current, same), current - mine.Keys)
               && forall f :: f in datasetFiles ==> (f.IsLive() <==> f.path in mine)
      ensures Takes(before, NextVersion(theirs, same), AsListing()) && IsTidy()
    {
    }

    method NextEntries(current: Dataset, date: int, generateId: Path -> string,
                       ghost live: set<DatasetFile>, ghost theirLive: set<DatasetFile>)
      returns (files: seq<DatasetFile>)
      requires Agrees(live) && current.Agrees(theirLive)
      ensures var mine, theirs := ByPath(datasetFiles, live), ByPath(current.datasetFiles, theirLive);
              && Covers(files, Choice(mine, theirs, old(Unchanged(mine, theirs))), theirs - mine.Keys)
              && (forall f :: f in files && f.path !in mine ==>
                    fresh(f) && f.IsRemovedCopyOf(theirs[f.path], date, generateId))
    {
      ghost var same := Unchanged(ByPath(datasetFiles, live), ByPath(current.datasetFiles, theirLive));
      var newPaths, newFiles := LiveByPath(live);
      var currentPaths, currentFiles := current.LiveByPath(theirLive);
      ByPathHolds(datasetFiles, live);
      ByPathHolds(current.datasetFiles, theirLive);
      var kept, left := ChooseEntries(newPaths, newFiles, currentFiles, same);
      var removed := RecordRemoved(currentPaths, left, date, generateId);
      JoinCovers(newPaths, Choice(newFiles, currentFiles, same), kept, left, currentPaths, removed);
      files := kept + removed;
    }
  }

  /** The paths whose entries have the same content. */
  ghost function Unchanged(mine: map<Path, DatasetFile>, theirs: map<Path, DatasetFile>): set<Path>
    reads mine.Values, theirs.Values
  {
    set p | p in mine && p in theirs && mine[p].IsEqualTo(theirs[p])
  }

  /** Reuses the current entry wherever its content is the same; returns the current entries not seen. */
  method ChooseEntries(paths: seq<Path>, mine: map<Path, DatasetFile>, theirs: map<Path, DatasetFile>, ghost same: set<Path>)
    returns (kept: seq<DatasetFile>, left: map<Path, DatasetFile>)
    requires NoDuplicates(paths) && (forall p :: p in paths <==> p in mine)
    requires forall p :: p in mine && p in theirs ==> (p in same <==> mine[p].IsEqualTo(theirs[p]))
    ensures |kept| == |paths| && forall k :: 0 <= k < |paths| ==> kept[k] == Choice(mine, theirs, same)[paths[k]]
    ensures left == theirs - mine.Keys
  {
    kept, left := [], theirs;
    for i := 0 to |paths|
      invariant |kept| == i && left == theirs - (set p | p in paths[..i])
      invariant forall k :: 0 <= k < i ==> kept[k] == Choice(mine, theirs, same)[paths[k]]
    {
      TakeNext(paths, i);
      var path := paths[i];
      var file := mine[path];
      if path in left {
        var currentFile := left[path];
        left := left - {path};
        if file.IsEqualTo(currentFile) {
          file := currentFile;
        }
      }
      kept := kept + [file];
    }
    assert (set p | p in paths[..|paths|]) == mine.Keys;
  }

  /** One entry for every path that is left and was seen. */
  ghost predicate RecordedOnce(files: seq<DatasetFile>, left: map<Path, DatasetFile>, seen: seq<Path>) {
    && (forall i, j :: 0 <= i < j < |files| ==> files[i].path != files[j].path)
    && (forall f :: f in files ==> f.path in left && f.path in seen)
    && (forall p :: p in left && p in seen ==> exists f :: f in files && f.path == p)
  }

  lemma RecordedNext(files: seq<DatasetFile>, left: map<Path, DatasetFile>, seen: seq<Path>, p: Path)
    requires RecordedOnce(files, left, seen) && p !in left
    ensures RecordedOnce(files, left, seen + [p])
  {
  }

  lemma RecordedNextLeft(files: seq<DatasetFile>, left: map<Path, DatasetFile>, seen: seq<Path>, p: Path, removed: DatasetFile)
    requires RecordedOnce(files, left, seen) && p in left && p !in seen && removed.path == p
    ensures RecordedOnce(files + [removed], left, seen + [p])
  {
    var all := files + [removed];
    assert forall f :: f in all <==> f in files || f == removed;
    forall q | q in left && q in seen + [p] ensures exists f :: f in all && f.path == q {
      if q == p {
        assert removed in all;
      } else {
        var f :| f in files && f.path == q;
        assert f in all;
      }
    }
  }

  /** Removed copies of the entries that are left, in the order of `paths`. */
  method RecordRemoved(paths: seq<Path>, left: map<Path, DatasetFile>, date: int, generateId: Path -> string)
    returns (files: seq<DatasetFile>)
    requires NoDuplicates(paths) && (forall p :: p in left ==> p in paths && left[p].path == p)
    ensures RecordedOnce(files, left, paths)
    ensures forall f :: f in files ==> fresh(f) && f.IsRemovedCopyOf(left[f.path], date, generateId)
  {
    files := [];
    for n := 0 to |paths|
      invariant RecordedOnce(files, left, paths[..n])
      invariant forall f :: f in files ==> fresh(f) && f.IsRemovedCopyOf(left[f.path], date, generateId)
    {
      TakeNext(paths, n);
      if paths[n] in left {
        var removed := left[paths[n]].RemovedCopy(date, generateId);
        RecordedNextLeft(files, left, paths[..n], paths[n], removed);
        files := files + [removed];
      } else {
        RecordedNext(files, left, paths[..n], paths[n]);
      }
    }
    assert paths[..|paths|] == paths;
  }

  lemma JoinCovers(paths: seq<Path>, chosen: map<Path, DatasetFile>, kept: seq<DatasetFile>,
                   left: map<Path, DatasetFile>, leftPaths: seq<Path>, removed: seq<DatasetFile>)
    requires NoDuplicates(paths) && (forall p :: p in paths <==> p in chosen)
    requires forall p :: p in chosen ==> chosen[p].path == p
    requires |kept| == |paths| && forall k :: 0 <= k < |paths| ==> kept[k] == chosen[paths[k]]
    requires left.Keys !! chosen.Keys && RecordedOnce(removed, left, leftPaths) && forall p :: p in left ==> p in leftPaths
    ensures Covers(kept + removed, chosen, left)
    ensures forall f :: f in kept + removed && f.path !in chosen ==> f in removed
  {
    var entries := kept + removed;
    assert forall i :: 0 <= i < |kept| ==> entries[i] == kept[i] && kept[i].path == paths[i];
    assert forall i :: 0 <= i < |removed| ==> entries[|kept| + i] == removed[i] && removed[i] in removed;
    forall p | p in chosen || p in left
      ensures exists i :: 0 <= i < |entries| && entries[i].path == p
    {
      JoinHas(paths, kept, left, leftPaths, removed, p);
    }
  }

  lemma JoinHas(paths: seq<Path>, kept: seq<DatasetFile>, left: map<Path, DatasetFile>, leftPaths: seq<Path>,
                removed: seq<DatasetFile>, p: Path)
    requires |kept| == |paths| && forall k :: 0 <= k < |paths| ==> kept[k].path == paths[k]
    requires RecordedOnce(removed, left, leftPaths)
    requires p in paths || (p in left && p in leftPaths)
    ensures exists i :: 0 <= i < |kept + removed| && (kept + removed)[i].path == p
  {
    var entries := kept + removed;
    if p in paths {
      var k :| 0 <= k < |paths| && paths[k] == p;
      assert entries[k] == kept[k];
    } else {
      var f :| f in removed && f.path == p;
      var i :| 0 <= i < |removed| && removed[i] == f;
      assert entries[|kept| + i] == f;
    }
  }
}
