/** Entries of datasets, and lists of them: what finding, adding and replacing does, given which entries are live. */
module FileLists {
  import opened Common

  /** A path as its components. */
  type Path = seq<string>

  /** `is_subpath`. */
  predicate IsWithin(path: Path, base: Path) {
    base <= path
  }

  class DatasetFile {
    const path: Path
    const checksum: string
    const dateAdded: int
    const linked: bool
    var id: string
    var dateRemoved: Option<int>
    var basedOn: Option<string>
    var source: string

    constructor (path: Path, checksum: string, dateAdded: int, linked: bool, id: string,
                 dateRemoved: Option<int>, basedOn: Option<string>, source: string)
      ensures this.path == path && this.checksum == checksum && this.dateAdded == dateAdded && this.linked == linked
      ensures this.id == id && this.dateRemoved == dateRemoved && this.basedOn == basedOn && this.source == source
    {
      this.path, this.checksum, this.dateAdded, this.linked := path, checksum, dateAdded, linked;
      this.id, this.dateRemoved, this.basedOn, this.source := id, dateRemoved, basedOn, source;
    }

    predicate IsLive()
      reads this
    {
      dateRemoved.None?
    }

    /** `is_equal_to`: everything but the id. */
    predicate IsEqualTo(other: DatasetFile)
      reads this, other
    {
      && basedOn == other.basedOn && dateAdded == other.dateAdded && dateRemoved == other.dateRemoved
      && path == other.path && checksum == other.checksum && linked == other.linked && source == other.source
    }

    /** A clone that differs in the id only. */
    method Copy(id: string) returns (clone: DatasetFile)
      ensures fresh(clone) && clone.IsEqualTo(this) && clone.id == id
    {
      clone := new DatasetFile(path, checksum, dateAdded, linked, id, dateRemoved, basedOn, source);
    }

    /** Is this the given entry, marked as removed under a new id? */
    ghost predicate IsRemovedCopyOf(f: DatasetFile, date: int, generateId: Path -> string)
      reads this, f
    {
      && path == f.path && checksum == f.checksum && dateAdded == f.dateAdded && linked == f.linked
      && basedOn == f.basedOn && source == f.source
      && dateRemoved == Some(date) && id == generateId(f.path)
    }

    /** `from_dataset_file` followed by `remove`. */
    method RemovedCopy(date: int, generateId: Path -> string) returns (removed: DatasetFile)
      ensures fresh(removed) && removed.IsRemovedCopyOf(this, date, generateId)
    {
      removed := Copy(generateId(path));
      removed.dateRemoved := Some(date);
    }
  }

  // ---------- Lists of entries, given which files are live ----------

  ghost predicate OneLivePerPath(entries: seq<DatasetFile>, live: set<DatasetFile>) {
    forall i, j :: 0 <= i < j < |entries| && entries[i] in live && entries[j] in live ==> entries[i].path != entries[j].path
  }

  ghost predicate IsLiveAt(f: DatasetFile, live: set<DatasetFile>, path: Path) {
    f in live && f.path == path
  }

  /** The position of the first live entry at a path, or the length of the list. */
  ghost function Locate(entries: seq<DatasetFile>, live: set<DatasetFile>, path: Path): (i: nat)
    ensures i <= |entries|
    ensures i < |entries| ==> IsLiveAt(entries[i], live, path)
    ensures forall j :: 0 <= j < i ==> !IsLiveAt(entries[j], live, path)
  {
    if entries == [] || IsLiveAt(entries[0], live, path) then 0 else
      var i := Locate(entries[1..], live, path);
      assert forall j :: 0 < j < |entries| ==> entries[j] == entries[1..][j - 1];
      i + 1
  }

  predicate SameVersion(f: DatasetFile, g: DatasetFile) {
    f.checksum == g.checksum && f.dateAdded == g.dateAdded
  }

  /** Would the file be appended to these entries? */
  ghost predicate IsNew(entries: seq<DatasetFile>, live: set<DatasetFile>, file: DatasetFile) {
    var i := Locate(entries, live, file.path);
    i < |entries| ==> !SameVersion(file, entries[i])
  }

  /** The entries without the one that the file replaces. */
  ghost function Replaced(entries: seq<DatasetFile>, live: set<DatasetFile>, file: DatasetFile): seq<DatasetFile> {
    var i := Locate(entries, live, file.path);
    if i < |entries| && IsNew(entries, live, file) then entries[..i] + entries[i + 1..] else entries
  }

  /** What is left of the entries after looking at every file in turn. */
  ghost function Kept(entries: seq<DatasetFile>, live: set<DatasetFile>, files: seq<DatasetFile>): seq<DatasetFile>
    decreases |files|
  {
    if files == [] then entries else
      Replaced(Kept(entries, live, files[..|files| - 1]), live, files[|files| - 1])
  }

  /** The files that are appended. */
  ghost function Added(entries: seq<DatasetFile>, live: set<DatasetFile>, files: seq<DatasetFile>): seq<DatasetFile>
    decreases |files|
  {
    if files == [] then [] else
      var before := files[..|files| - 1];
      Added(entries, live, before) +
      if IsNew(Kept(entries, live, before), live, files[|files| - 1]) then [files[|files| - 1]] else []
  }

  lemma BatchSnoc(entries: seq<DatasetFile>, live: set<DatasetFile>, files: seq<DatasetFile>, file: DatasetFile)
    ensures Kept(entries, live, files + [file]) == Replaced(Kept(entries, live, files), live, file)
    ensures Added(entries, live, files + [file]) ==
            Added(entries, live, files) + if IsNew(Kept(entries, live, files), live, file) then [file] else []
  {
    assert (files + [file])[..|files|] == files;
  }

  /** The first occurrence of the file that is located is where it is located. */
  lemma LocatedFirst(entries: seq<DatasetFile>, live: set<DatasetFile>, file: DatasetFile, i: nat)
    requires Locate(entries, live, file.path) < |entries| && entries[Locate(entries, live, file.path)] == file
    requires i < |entries| && entries[i] == file && file !in entries[..i]
    ensures i == Locate(entries, live, file.path)
  {
    assert forall j :: 0 <= j < i ==> entries[..i][j] == entries[j];
  }

  /** `{f.path: f for f in files}` over the live entries: the last one at a path wins. */
  ghost function ByPath(entries: seq<DatasetFile>, live: set<DatasetFile>): (m: map<Path, DatasetFile>)
    decreases |entries|
  {
    if entries == [] then map[] else
      var last := entries[|entries| - 1];
      var m := ByPath(entries[..|entries| - 1], live);
      if last in live then m[last.path := last] else m
  }

  lemma ByPathSnoc(entries: seq<DatasetFile>, live: set<DatasetFile>, f: DatasetFile)
    ensures ByPath(entries + [f], live) == if f in live then ByPath(entries, live)[f.path := f] else ByPath(entries, live)
  {
    assert (entries + [f])[..|entries|] == entries;
  }

  /** The dictionary has a live entry for exactly the paths that have one; the only one, if no path has two. */
  lemma {:induction false} ByPathHolds(entries: seq<DatasetFile>, live: set<DatasetFile>)
    ensures var m := ByPath(entries, live);
            && (forall p :: p in m ==> m[p] in entries && IsLiveAt(m[p], live, p))
            && (forall f :: f in entries && f in live ==> f.path in m)
            && (OneLivePerPath(entries, live) ==> forall f :: f in entries && f in live ==> m[f.path] == f)
    decreases |entries|
  {
    if entries != [] {
      var front, last := entries[..|entries| - 1], entries[|entries| - 1];
      ByPathHolds(front, live);
      assert forall f :: f in entries ==> f in front || f == last;
    }
  }

  // ---------- The next version ----------

  /** The entry for every path in the new version. */
  ghost function Choice(mine: map<Path, DatasetFile>, theirs: map<Path, DatasetFile>, same: set<Path>): map<Path, DatasetFile> {
    map p | p in mine :: if p in same && p in theirs then theirs[p] else mine[p]
  }

  /** Exactly one entry for every path that is chosen or dropped: the chosen one, if there is one. */
  ghost predicate Covers(entries: seq<DatasetFile>, chosen: map<Path, DatasetFile>, dropped: map<Path, DatasetFile>) {
    && (forall i, j :: 0 <= i < j < |entries| ==> entries[i].path != entries[j].path)
    && (forall p :: p in chosen || p in dropped ==> exists i :: 0 <= i < |entries| && entries[i].path == p)
    && (forall i :: 0 <= i < |entries| ==>
          if entries[i].path in chosen then entries[i] == chosen[entries[i].path] else entries[i].path in dropped)
  }
}
