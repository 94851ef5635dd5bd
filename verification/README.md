# Renku: a verified model of the stateful parts of renku-python

renku-python keeps the metadata of a project in a home-grown object database, merges that metadata with
a git merge driver, and runs its commands between hooks that open and leave project contexts. This
project models those parts, and the smaller algorithms around them, in Dafny, and proves what they are
for. Imperative code of the repository is modelled as classes and methods that change state in place;
every such method is proved equal to a function of the old state, or to an outright postcondition, and
the lemmas beside it prove what that function means.

`dafny verify dfyconfig.toml` checks everything. Modules follow the program's structure:

- The object database: `Values` and `Writer` (flattening an object graph to JSON), `Reader` (rebuilding
  it), `RoundTrip`, `Totality` and `Isomorphism` (the round trip), `Merging`, `MergedReads`, `MergedContents` and
  `MergingLimits` (reading when ids are remembered or collide), `References` (what a record refers to),
  `Records` (whole records, lazily and eagerly loaded), `ObjectStore` (identity map, ghosts, worklist, as
  functions on a snapshot), `PersistentDatabase` (the same as a class), `Commit` (what every turn of a commit keeps),
  `CompletedCommits` (what a commit that completes achieves), `IdentityMap` (runs of operations), `LoadedStates`
  (what is loaded, and that what is changed is stored and comes back) and `Discipline` (a rule for clients that
  keeps identities).
- The merge driver: `Derivations`, `Merge`, `MergeLaws` (one branch), `OctopusLaws` (any number of them),
  `MergeConflicts` (what is left to the user, and when a merge succeeds), `ProjectMerge`.
- `TopologicalSort`, `PlanDates`, `Checkpoints`.
- Datasets: `FileLists` (entries and lists of them), `DatasetLaws` (batches and runs), `Datasets`, `MoveFiles`.
- Templates: `Text` and `Dockerfile`.
- Command builders: `Commands` (hooks, builders, execution), `CommandOrder` (in which order the hooks run)
  and `CommandRuns` (what an execution does to contexts and repository).
- `PathTrees` and `TreeIteration` (the directory tree), `Lines` and `Canvas` (drawing to text).

## Where the code does not do what one would expect

Each of these is a lemma that says exactly when the expectation holds.

- An object graph comes back isomorphic exactly if no two of the plain objects that are reached carry the
  same id starting with `/`: the reader keeps one object per id
  (`Isomorphism.RoundTripsIffIdsAreDistinct`, `Isomorphism.TwinsDoNotRoundTrip`).
- When ids are remembered already or collide, one object stands for every id (`MergedReads.PositionsAreMerged`),
  and the content comes back exactly if equal ids mean equal content and nothing is captured
  (`MergedContents.ContentComesBackIff`): an object that is read within one that is replaced in the end, and that
  refers to it, keeps referring to the blank object that was made for it. Such an object without attributes can
  be reached from what is read exactly if one that has captured it can be (`MergedReads.UnfinishedIsReachedIff`,
  `MergingLimits.CycleIsLeftUnfinished`).
- What an immutable object is read as is what later references to it give, unless the process has another
  instance with its id that this reader has not read: then the position is not changed to that instance
  (`MergingLimits.StandsForWhatIsReadIff`, `MergingLimits.OtherInstanceIsReadOnce`).
- Eager and lazy loading give a record the same state exactly if the stored state is not itself a datetime,
  a plain object or a persistent reference (`Records.EagerMatchesLazyIff`).
- A commit that completes can lose an update. If two changed objects have one oid, meeting one of them puts it
  on the worklist in place of the other, which stays changed and is stored nowhere, although nothing is raised
  (`CompletedCommits.ContestedUpdateIsLost`). A commit that completes stores all updates exactly if no oid is
  contested among the objects on dirty paths (`CompletedCommits.CommitStoresAllIff`). The store is closed under
  references all the same (`CompletedCommits.CommitClosesTheStore`).
- An oid does not always stand for one object. An object that is registered while it is clean and not cached
  is what `get` gives until the commit, whose turn drops it without caching it, and the next `get` loads a
  second object although nothing was removed (`IdentityMap.CleanTurnKeepsIff`,
  `IdentityMap.CleanUncachedIsLoadedTwice`, `IdentityMap.ReaddedIsLoadedTwice`). In general an oid keeps its
  object exactly until a step displaces it (`IdentityMap.StepKeepsIdentityIff`,
  `IdentityMap.RunKeepsIdentityIff`): a registration that overtakes another object waiting under the oid, a
  turn that drops a clean entry or caches a dirty one over the pre-cache, or a removal. The keys of the
  tables equal the oids all the same (`IdentityMap.RunKeepsSound`).
- `get` fails for a stored object whose record refers to itself: loading it puts a ghost in the cache, and
  the object itself then finds its place taken (`IdentityMap.FetchFailsIff`). So an object that a commit stored
  and that is dropped from the caches comes back exactly if it does not refer to itself, and nothing else answers
  for its oid (`LoadedStates.StoredComesBack`). A key of the root is looked
  up by name first, so `get` and a reference may resolve it differently (`IdentityMap.RootKeysStayAgreed`).
  Registering an object displaces another one that waits under the same oid
  (`IdentityMap.RegisterDisplacesIff`).
- A merge takes a newer remote version exactly if the local side can look up every ancestor of the local
  version; otherwise the lookup fails, and with several remotes that branch is passed over
  (`MergeLaws.RemoteNewerIsTakenIff`). So the newest version wins an octopus merge only under a condition,
  and the order of the branches matters (`OctopusLaws.NewestVersionWinsIff`,
  `OctopusLaws.OldBranchFirstHidesNewest`, `OctopusLaws.NewBranchFirstWins`).
- A second update of a Dockerfile with the same source changes it again if it ends with a blank line, or if
  it was overwritten by a source that is not written the way the update writes
  (`Dockerfile.UpdateTwiceIff`, `Dockerfile.SecondUpdateDropsBlankLine`).
- A command that added a context in one execution pops a foreign one in the next
  (`CommandRuns.StackIsBalancedIff`). A build that fails for want of an operation leaves the hooks of its
  wrappers registered, and a second build registers them again (`CommandRuns.RetriedBuildDoubles`).
- A batch of dataset files keeps one live entry per path exactly if no two of its files clash: the same
  path twice, the first of them, or an earlier one, having to be added
  (`DatasetLaws.BatchKeepsOneLivePerPathIff`, `DatasetLaws.RunKeepsOneLivePerPathIff`).
- A line that runs backwards on an axis stops one short of its end (`Lines.EndIsReachedIff`).

## Model

| member | source | states |
|---|---|---|
| Isomorphism.WriteReachesAll | renku/infrastructure/database.py:876-946 | from any point of the traversal, what a value mentions is in the slots afterwards, and the states of all objects met since mention objects in the slots only |
| Writer.ObjectWriter.Serialize | renku/infrastructure/database.py:849-874 | starts with empty slots and returns the JSON and the slots of the written state |
| Writer.ObjectWriter.SerializeHelper | renku/infrastructure/database.py:876-946 | in-place flattening, on any graph with sharing and cycles, gives the specified JSON and leaves the specified slots in the cache |
| Writer.ObjectWriter.SerializeItems | renku/infrastructure/database.py:882-893 | elements are flattened in order, each with the slots its predecessors left |
| Writer.ObjectWriter.SerializeEntries | renku/infrastructure/database.py:894-899 | entries are flattened by sorted key, each with the slots its predecessors left |
| Reader.ObjectReader.SetGhostState | renku/infrastructure/database.py:973-986 | the state given to a ghost is read with an empty stack, and the stack of the caller is put back |
| Reader.ObjectReader.DeserializeHelper | renku/infrastructure/database.py:1008-1116 | reading in place gives the specified value, stack, heap and id caches, or raises when the specification does |
| Reader.ObjectReader.DeserializeInstance | renku/infrastructure/database.py:1037-1116 | the branch of a JSON object with a class name: datetime, tuple, persistent reference, or plain object |
| Reader.ObjectReader.DeserializeObject | renku/infrastructure/database.py:1087-1116 | a plain object is put on the stack before its attributes are read, and is then remembered by its id or replaced by the one remembered, also at its position on the stack; `MergedReads.PositionsAreMerged` says what stands there afterwards |
| Reader.ObjectReader.FinishObject | renku/infrastructure/database.py:1096-1116 | once the attributes are read: the remembered object takes the place on the stack, or this one gets its attributes and is remembered |
| Reader.ObjectReader.DeserializeContent | renku/infrastructure/database.py:1072-1095 | the content of an object is read from its value, or from its own keys |
| Reader.ObjectReader.DeserializeItems | renku/infrastructure/database.py:1013-1014 | elements are read in order, each in the state its predecessors left, until one raises |
| Reader.ObjectReader.DeserializeEntries | renku/infrastructure/database.py:1018-1023 | entries are read by sorted key, each in the state its predecessors left, until one raises |
| RoundTrip.ReadBack | renku/infrastructure/database.py:876-946 | from any point where writer slots and reader stack agree, reading what was written gives the value again up to the correspondence of addresses, and slots and stack agree afterwards |
| RoundTrip.ReadBackObject | renku/infrastructure/database.py:1087-1114 | the same for a plain object that was not met yet, including cycles back to it while it is still blank |
| RoundTrip.FinishKeepsStep | renku/infrastructure/database.py:1097-1114 | finishing an object whose id no other one has keeps slots, stack and id caches in agreement, and rebuilds everything met since it was met |
| RoundTrip.SameIsInjective | renku/infrastructure/database.py:1008-1116 | values that correspond to the same value are the same value |
| Isomorphism.WritesExactlyTheReachable | renku/infrastructure/database.py:876-946 | the slots are exactly the plain objects reachable from the value, each once |
| Isomorphism.ReadMerges | renku/infrastructure/database.py:1097-1114 | whatever JSON is read, at most one finished object per remembered id exists, what is remembered is finished and has the id, the two id caches agree, and old objects keep their place |
| Isomorphism.RoundTripsIffIdsAreDistinct | renku/infrastructure/database.py:876-946 | for every supported graph, with sharing and cycles, reading back gives an isomorphic graph if and only if reachable objects have distinct ids |
| Isomorphism.IsomorphismKeepsIdsApart | renku/infrastructure/database.py:1097-1114 | a graph that comes back isomorphic has distinct ids |
| Isomorphism.TwinsDoNotRoundTrip | renku/infrastructure/database.py:1097-1102 | a concrete list of two objects with one id does not come back |
| Merging.ReadingMerges | renku/infrastructure/database.py:1087-1116 | whatever the reader remembers and whatever ids collide, and also half way through cycles: what is written is read as its image under the positions, and every object met since is settled: its position stands for a finished object that is remembered under its id, a new one if and only if no object read before or remembered has the id, holding its attributes with those it is read within standing for themselves |
| Merging.ObjectMerges | renku/infrastructure/database.py:1096-1114 | finishing an object settles it, and leaves settled everything that was met within it |
| MergedReads.PositionsAreMerged | renku/infrastructure/database.py:1027-1031 | every reference, the first and those back to it, is replaced by the one object at the position; two positions have one object if and only if they are the same or share an id; that object is finished, and the remembered one if the id was remembered |
| MergedReads.AllFinishedIff | renku/infrastructure/database.py:1096-1102 | after reading, no finished object refers to an unfinished one if and only if no new object refers to one that it is read within and that is replaced; what is read itself never does |
| MergedReads.UnfinishedIsReachedIff | renku/infrastructure/database.py:1096-1102 | an unfinished object can be reached from what is read if and only if an object that has captured one can |
| MergedContents.ContentComesBackIff | renku/infrastructure/database.py:1096-1114 | what is read is like what was written, objects with one id being one object, all the way down and through cycles, if and only if equal ids mean equal content, among the objects written and with the remembered ones, and nothing is captured |
| MergedContents.AlikeToOne | renku/infrastructure/database.py:1008-1116 | two values that are both like a third, with their sets compared by members, are like each other |
| MergingLimits.StandsForWhatIsReadIff | renku/infrastructure/database.py:1096-1116 | what an object is read as stands at its position if and only if it has no other instance that the reader has not read |
| MergingLimits.OtherInstanceIsReadOnce | renku/infrastructure/database.py:1110-1114 | a concrete list of an immutable object and a reference to it that is read as two objects |
| MergingLimits.CycleIsLeftUnfinished | renku/infrastructure/database.py:1096-1102 | a concrete cycle through an object whose id is remembered: an object without attributes can be reached from what is read |
| References.WrittenCites | renku/infrastructure/database.py:876-946 | the JSON of a value refers to exactly the persistent objects that the value, or a plain object first met in it, refers to |
| References.RecordCitesTheReachable | renku/infrastructure/database.py:909-946 | a stored record refers to exactly the persistent objects that its state and the plain objects reachable from it refer to |
| References.LinksAreCitations | renku/infrastructure/database.py:1054-1062 | the links of a record in the object store are the references in the JSON that is written for the object |
| References.CitationsLeadToRecords | renku/infrastructure/database.py:454-469 | after any commit that completes, whatever the JSON of a stored object refers to has a record |
| Records.LazyReadsTheState | renku/infrastructure/database.py:973-986 | activating a ghost reads the JSON of the state, for every shape of state |
| Records.EagerReadsTheState | renku/infrastructure/database.py:988-1006 | loading eagerly reads it with `create` off at the top, unless it is a dictionary |
| Records.StoredStateLoadsBack | renku/infrastructure/database.py:461-469 | what is stored for an object loads back isomorphic if and only if reachable plain objects have distinct ids |
| Totality.ReadingNeverRaises | renku/infrastructure/database.py:1008-1116 | what is written for a supported value is read without raising, whatever the reader remembers and whatever ids collide |
| Records.EagerMatchesLazyIff | renku/infrastructure/database.py:356-380 | for every stored record and whatever the reader remembers, lazy loading succeeds, and eager loading gives the same state if and only if it is not a datetime, plain object or reference at the top |
| PersistentDatabase.Database.LookUp | renku/infrastructure/database.py:394-415 | finds an object in the cache, the pre-cache or the worklist, in this order |
| PersistentDatabase.Database.AssignOid | renku/infrastructure/database.py:316-317 | gives an object without an oid the hash of its id, or a random one if it has no id, and nothing else; one with an oid keeps it |
| PersistentDatabase.Database.RegisterObject | renku/infrastructure/database.py:306-327 | puts an object on the worklist under its own oid, or raises and changes nothing |
| PersistentDatabase.Database.Resolve | renku/infrastructure/database.py:1054-1062 | a reference in a record is the object already known, or a new ghost that is cached |
| PersistentDatabase.Database.ResolveAll | renku/infrastructure/database.py:1054-1062 | references are resolved in order, later ones seeing the ghosts of earlier ones |
| PersistentDatabase.Database.SetState | renku/infrastructure/database.py:440-452 | loads the state of a ghost from its record, or raises: it is clean then, has the id and content in the record, and refers to the objects with the oids in the record, in order; other objects stay |
| PersistentDatabase.Database.GetObject | renku/infrastructure/database.py:329-354 | finds in the root, in memory or in the storage, with the pre-cache held while loading; what is loaded is a new object of the class in the record, clean, with its id and content, and references to the objects with the oids in the record |
| PersistentDatabase.Database.Forget | renku/infrastructure/database.py:477-492 | removes an object from every table it is in |
| PersistentDatabase.Database.StoreObject | renku/infrastructure/database.py:461-469 | stores one object, registering what it meets on the way |
| PersistentDatabase.Database.CommitAll | renku/infrastructure/database.py:454-469 | terminates on every object graph; if it completes, the worklist is empty, the store is closed if it was and others had records, and every update on a dirty path is stored if and only if no oid is contested; if no oid is contested or mismatched, it completes if and only if none is taken in the cache |
| PersistentDatabase.Database.Drain | renku/infrastructure/database.py:454-469 | the loop is a run of turns that empties the worklist, or ends with one that raises |
| Commit.TurnKeeps | renku/infrastructure/database.py:454-469 | a turn that completes, whatever oids are claimed, leaves every object as it was or stored with its state, clean and cached, and writes nothing else |
| Commit.TurnKeepsLinksLeading | renku/infrastructure/database.py:454-469 | it also keeps: every reference in a record leads to a record, or to an object on the worklist that has to be stored |
| Commit.StepMakesProgress | renku/infrastructure/database.py:454-469 | if no two dirty or new objects claim one oid, everything due stays on the worklist until it is stored |
| Commit.StepShrinks | renku/infrastructure/database.py:454-459 | every step leaves fewer dirty or new objects, or as many and a shorter worklist |
| CompletedCommits.CommitStoresAllIff | renku/infrastructure/database.py:454-469 | a commit that completes has stored everything reached from the worklist through dirty or new objects, each with its own state, if and only if no two of them claim one oid; if two do, one is still dirty; and if all are stored, the cache held nothing else under their oids |
| CompletedCommits.DirtyOrStored | renku/infrastructure/database.py:454-469 | in any case each of them is still dirty, or clean with its own record |
| CompletedCommits.UncontestedTurnCompletes | renku/infrastructure/database.py:454-469 | without contested, cached or mismatched oids no turn raises |
| CompletedCommits.ContestedUpdateIsLost | renku/infrastructure/database.py:306-327 | a concrete commit that completes and stores the state of one of three changed objects nowhere |
| CompletedCommits.CommitClosesTheStore | renku/infrastructure/database.py:454-469 | after any commit that completes, if the store was closed and clean objects that are referred to were stored, every reference in every record leads to a record, also for objects first met while serializing and when oids are contested |
| CompletedCommits.CommitTouchesOnlyDirtyPaths | renku/infrastructure/database.py:454-469 | a commit changes no state, the status of nothing off dirty paths, and nothing at all of objects that are neither there, nor referred to from there, nor on the worklist |
| CompletedCommits.CommitWritesOnlyDirtyPaths | renku/infrastructure/database.py:454-469 | every record it wrote is that of an object on a dirty path |
| IdentityMap.StepKeepsIdentityIff | renku/infrastructure/database.py:306-354 | after any operation, with no rule for clients, an oid still stands for the object it stood for if and only if the operation does not displace it, which is read off the tables before the operation |
| IdentityMap.RunKeepsIdentityIff | renku/infrastructure/database.py:306-354 | an oid stands for one object all through a run if and only if no step of it displaces that object |
| IdentityMap.RunKeepsSound | renku/infrastructure/database.py:509-580 | every key of the cache, the pre-cache and the worklist equals its object's oid after every run, also when attributes change references and ids, and whatever is registered |
| IdentityMap.ResolutionIsRemembered | renku/infrastructure/database.py:329-354 | what was resolved is cached under its oid |
| IdentityMap.OneOidOneObject | renku/infrastructure/database.py:329-354 | two resolutions of an oid, by `get` or by a reference, with any run in between that does not displace it, give the same object |
| IdentityMap.CleanTurnKeepsIff | renku/infrastructure/database.py:454-459 | a commit turn on a clean entry keeps every identity if and only if the entry's oid is cached |
| IdentityMap.CleanUncachedIsLoadedTwice | renku/infrastructure/database.py:454-459 | if it is not, `get` gives one object before the turn and a new one after it, though nothing was removed |
| IdentityMap.ReaddedIsLoadedTwice | renku/infrastructure/database.py:454-459 | a concrete database where this happens |
| IdentityMap.ReaddedIsReached | renku/infrastructure/database.py:306-354 | that database is reached from the store alone by a fetch, a removal and a registration |
| Discipline.DisciplinedRunDisplacesNothing | renku/infrastructure/database.py:306-327 | if objects are registered only under oids that stand for nothing else, and only if they have to be stored or are cached, then only removal displaces anything, in any run |
| IdentityMap.FetchFailsIff | renku/infrastructure/database.py:329-354 | `get` fails if and only if nothing is found, or the record to load refers to itself |
| IdentityMap.RootKeysStayAgreed | renku/infrastructure/database.py:329-342 | for a key of the root, after any run that does not displace it, `get` and a reference give the same object if and only if the root's entry is the object that the oid stood for |
| IdentityMap.RegisterDisplacesIff | renku/infrastructure/database.py:306-327 | registering changes what an oid stands for if and only if another object waits, uncached, under it |
| LoadedStates.LoadedHoldsRecord | renku/infrastructure/database.py:329-380 | an object loaded from the storage is new, clean and not new to the store, has class, id and content of the record, and reference i is to the object that the oid of link i stands for; objects that were there stay |
| LoadedStates.ActivatedHoldsRecord | renku/infrastructure/database.py:440-452 | the same for a ghost that is activated, which keeps its class |
| LoadedStates.StoredComesBack | renku/infrastructure/database.py:329-354 | an object on an uncontested dirty path, stored by a commit that completes, dropped from the caches and fetched again: a new object comes back if and only if it did not refer to itself and nothing else answers for its oid, and then with its class, id and content, and references to the oids that it referred to |
| LoadedStates.StoredIsActivated | renku/infrastructure/database.py:440-452 | a ghost of it in any database with that storage gets the same |
| LoadedStates.ChangingMakesDue | renku/infrastructure/database.py:306-327 | setting an attribute of a clean object of a database puts it on the worklist, changed and with the new state, unless its oid is not that of its id; then nothing changes |
| LoadedStates.RegisteringMakesDue | renku/infrastructure/database.py:306-327 | registering raises if and only if the oid is not that of the id, and puts a new or changed object on the worklist |
| LoadedStates.DueIsStored | renku/infrastructure/database.py:454-469 | what is on the worklist and dirty or new is stored, with its state, by a commit that completes without contested oids |
| LoadedStates.ReassigningNames | renku/infrastructure/persistent.py:31-39 | gives the oid of the id, or a new random one, and takes the object out of every table |
| Derivations.IsDerivedFrom | renku/infrastructure/git_merger.py:377-397 | the loop terminates on acyclic derivations and computes the specified walk, raising when a version is missing |
| Derivations.DerivesFromMeansPath | renku/infrastructure/git_merger.py:377-397 | it answers yes if and only if there is a derivation path from a version with that id |
| Derivations.WalkCompletesIff | renku/infrastructure/git_merger.py:377-397 | it raises if and only if it does not find the id and an ancestor is missing |
| Derivations.DerivesFromLower | renku/infrastructure/git_merger.py:377-397 | a version derives from older ones only |
| Merge.CompareEntries | renku/infrastructure/git_merger.py:348-375 | which entry supersedes the other, or none, or a failed lookup |
| Merge.IsSuperseding | renku/infrastructure/git_merger.py:348-375 | whether one entry derives from the other, by kind of entry |
| Merge.SettleEntry | renku/infrastructure/git_merger.py:158-189 | the entry kept for a conflicting key, with the user's answer as input; `MergeConflicts` says what the answers do |
| Merge.LocalTree.MergeTreeFrom | renku/infrastructure/git_merger.py:144-191 | one remote tree merged in place: new keys first, then conflicts in order until one fails |
| Merge.LocalTree.MergeAll | renku/infrastructure/git_merger.py:56-93 | the loop over all remotes: a failed lookup passes a branch over, an abort ends the merge, and it fails if no branch was merged |
| MergeLaws.ExtendedIsUnion | renku/infrastructure/git_merger.py:368-373 | merged lists keep the local list in front, hold the union, and repeat nothing |
| MergeLaws.MergeTreeKeepsAllKeys | renku/infrastructure/git_merger.py:144-191 | a merge has exactly the keys of both sides, even if it fails on the way |
| MergeLaws.MergeTreeAt | renku/infrastructure/git_merger.py:144-191 | what a merge leaves under a key depends on the entries under that key alone |
| MergeLaws.OctopusUnitesKeys | renku/infrastructure/git_merger.py:56-93 | folding over any list of remotes gives the union of all key sets |
| MergeLaws.LocalNewerIsKeptIff | renku/infrastructure/git_merger.py:348-375 | a newer local version of a chain is kept if and only if every version in between can be looked up; otherwise one is not found |
| MergeLaws.RemoteNewerIsTakenIff | renku/infrastructure/git_merger.py:348-375 | a newer remote version is taken if and only if the local side has all ancestors of the local version; otherwise one is not found |
| OctopusLaws.MergeTreeLeaves | renku/infrastructure/git_merger.py:144-191 | also when a branch is passed over half way: a conflicting key changes if and only if it and all conflicts before it are settled, and if its turn comes and it is not settled, that failure ends the merge of the tree |
| OctopusLaws.NewestVersionWinsIff | renku/infrastructure/git_merger.py:56-93 | in any octopus merge that is not aborted, of branches that know the history of their own versions, the newest version of a chain stands under its key if and only if none is missed: each time a branch brings a newer one, the local side knows the history of the version it has, and a branch passed over before the key is made up for by a later one |
| OctopusLaws.NewestVersionWinsIffHistoriesKnown | renku/infrastructure/git_merger.py:56-93 | if no other conflict fails, the newest version wins if and only if the local side knows the history of every version that is to be replaced |
| OctopusLaws.NoConflictBelowReaches | renku/infrastructure/git_merger.py:144-191 | no other conflict gets in the way if no smaller key is in conflict between any two of the trees |
| OctopusLaws.NewestIsGreatest | renku/infrastructure/git_merger.py:348-375 | the newest is one of the versions there, and none is newer |
| OctopusLaws.OrderDoesNotMatter | renku/infrastructure/git_merger.py:56-93 | if one order of the branches misses no version, another order leaves the same entry if and only if it misses none either |
| OctopusLaws.OldBranchFirstHidesNewest | renku/infrastructure/git_merger.py:73-83 | two concrete branches merged in one order: the newest version is passed over |
| OctopusLaws.NewBranchFirstWins | renku/infrastructure/git_merger.py:73-83 | the same branches in the other order: it wins |
| MergeConflicts.ComparisonIsTwoWalks | renku/infrastructure/git_merger.py:348-375 | the four questions come to two walks along derivations: which entry is kept, when a lookup fails, and that it is left to the user if and only if the entries differ, both walks end without meeting the other entry, and they are not two lists of one kind |
| MergeConflicts.ComparisonCrashesIff | renku/infrastructure/git_merger.py:377-397 | a comparison that fails has looked up what is missing, except that it crashes if it compares a derivation of something known with a list |
| MergeConflicts.AnswerDecides | renku/infrastructure/git_merger.py:163-191 | of the tree that is left: under a key that is left to the user, and whose turn comes, stands the local entry if the answer is "l" and the remote one if it is "r"; with any other answer, or none, the merge of the tree is aborted |
| MergeConflicts.ReachedIffAnswered | renku/infrastructure/git_merger.py:158-191 | the turn of a conflict comes if and only if every smaller one is decided by comparing, or answered "l" or "r" |
| MergeConflicts.ListsAreUnited | renku/infrastructure/git_merger.py:369-374 | of the tree that is left: two lists of one kind are united, the local one in front and with its oid |
| MergeConflicts.WalkDecides | renku/infrastructure/git_merger.py:356-368 | of the tree that is left: under a key where one side derives from the other stands that side |
| MergeConflicts.UnansweredAborts | renku/infrastructure/git_merger.py:73-90 | a conflict without an answer ends the merge of all branches as aborted, after any branches and before any |
| MergeConflicts.MergeSucceedsIff | renku/infrastructure/git_merger.py:63-92 | a merge is broken off if and only if merging some branch is aborted or crashes; otherwise it has merged something if and only if some branch was merged to the end |
| ProjectMerge.ListOf | renku/infrastructure/git_merger.py:293-298 | a list of exactly the elements of a set, none twice |
| ProjectMerge.MergeKeywords | renku/infrastructure/git_merger.py:289-300 | the merged keywords are, as a set, the three-way merge |
| ProjectMerge.MergeDescription | renku/infrastructure/git_merger.py:302-311 | the description follows the one side that changed it, or the user |
| ProjectMerge.MergeProjects | renku/infrastructure/git_merger.py:266-346 | on every path, early returns included: keywords and description merge three-way, the description being the user's if both sides changed it differently, the template follows its change or the user, version and annotations are the greater and the union unless one side alone changed, and the result is the remote object if and only if only that side changed |
| ProjectMerge.ThreeWayByElement | renku/infrastructure/git_merger.py:291-300 | an element of the base survives if and only if both sides kept it, another one is there if and only if a side added it |
| ProjectMerge.MergeAllProjects | renku/infrastructure/git_merger.py:73-91 | the loop over remote projects, whose local side is the result so far: fails if and only if a merge is aborted or no branch has a project, and otherwise keywords, description and template are those of the merges one after the other |
| ProjectMerge.MergedKeywords | renku/infrastructure/git_merger.py:73-83 | of which the keywords are the three-way merges of all keyword sets |
| ProjectMerge.ThreeWayAllByElement | renku/infrastructure/git_merger.py:73-83 | those keep what the base had if all sides kept it, and add what any side added |
| ProjectMerge.BranchOrderDoesNotMatter | renku/infrastructure/git_merger.py:73-83 | and do not depend on the order of the remotes |
| TopologicalSort.Sorter.Visit | renku/domain_model/sort.py:29-44 | visits what a node reaches; raises only if there is a cycle, and otherwise the node is done and nodes met before keep their state |
| TopologicalSort.Sorter.Sort | renku/domain_model/sort.py:24-46 | terminates; raises if and only if the graph has a cycle, and otherwise the order holds every key and every mentioned parent once, before all of its parents |
| TopologicalSort.OrderedIsAcyclic | renku/domain_model/sort.py:24-46 | a graph with such an order has no cycle |
| PlanDates.Climb | renku/command/checks/workflow.py:108-120 | collects exactly the plans of the chain not seen before, and the date its root shows now |
| PlanDates.Redate | renku/command/checks/workflow.py:122-129 | every plan on the stack gets the creation date, its old one as modification date, and a repaired removal date, once |
| PlanDates.RepairOneMore | renku/command/checks/workflow.py:107-129 | redating a chain stays right although earlier chains changed shared ancestors: the root still shows its own old date |
| PlanDates.FixPlanDates | renku/command/checks/workflow.py:103-129 | exactly the plans on the chains are updated, once each: the creation date is the original one of the root, the modification date the plan's own old creation date, and an earlier removal date moves after it; other plans stay |
| PlanDates.RepairIgnoresOrder | renku/command/checks/workflow.py:103-129 | two lists with the same plans leave all plans the same |
| PlanDates.ChainSharesRoot | renku/command/checks/workflow.py:114-120 | the plans of a chain have one root, and their chains are parts of it |
| Datasets.Dataset.Copy | renku/domain_model/dataset.py:519-533 | a copy has new entries with the same content in the same order |
| Datasets.Dataset.FindFile | renku/domain_model/dataset.py:598-605 | the first live entry at the path, or none |
| Datasets.Dataset.UnlinkFile | renku/domain_model/dataset.py:672-685 | exactly the first live entry at the path, if there is one, is removed, at the given time; fails if and only if there is none and that is not allowed; a step in the sense of the runs below |
| Datasets.Dataset.AddOrUpdateFiles | renku/domain_model/dataset.py:693-714 | the entries kept and appended are the specified ones; if no path had two live entries, none has afterwards if and only if no two files of the batch clash |
| Datasets.Dataset.UpdateFilesFrom | renku/domain_model/dataset.py:607-628 | one entry per path: live paths are exactly the new ones and reuse current entries with equal content, every dropped path is recorded once as a fresh removed copy with a new id |
| Datasets.RecordRemoved | renku/domain_model/dataset.py:622-626 | removed copies of all entries that are left, one per path |
| FileLists.ByPathHolds | renku/domain_model/dataset.py:609-610 | the dictionary has a live entry for exactly the live paths |
| DatasetLaws.KeptExactlyIf | renku/domain_model/dataset.py:693-714 | a live entry stays if and only if no file of the batch is another version of it |
| DatasetLaws.AppendedExactlyIf | renku/domain_model/dataset.py:693-714 | a file is appended if and only if its version is not there, or was replaced earlier in the batch |
| DatasetLaws.BatchKeepsOneLivePerPathIff | renku/domain_model/dataset.py:693-714 | a batch, of live files and others, keeps one live entry per path if and only if no two live files of a path come after, or at, one of that path that has to be added |
| DatasetLaws.RunKeepsOneLivePerPathIff | renku/domain_model/dataset.py:607-714 | throughout any run of batches, unlinks and next versions, no path has two live entries if and only if no batch of the run clashes |
| DatasetLaws.BatchByPath | renku/domain_model/dataset.py:693-714 | with distinct paths, each path of the batch holds its file or the same version of it, and every other path what it held |
| MoveFiles.MoveWithin | renku/core/dataset/dataset.py:958-976 | one file and one dataset: the source is unlinked, the shared new entry inherits its origin, and joins where it is linked, lies in the data directory or overwrites |
| MoveFiles.MoveAt | renku/core/dataset/dataset.py:958-976 | the other datasets stay as they are although they share new entries, and the new entry has the origin of the source if that was live here |
| MoveFiles.MoveInAll | renku/core/dataset/dataset.py:958-976 | the inner loop does this to every dataset, and records exactly those it touched; the new entry has the origin of the source in the last dataset where that was live |
| MoveFiles.MoveOne | renku/core/dataset/dataset.py:956-979 | the inner loop followed by the target: in every dataset what is live, and recorded are exactly those recorded before and those where the source or destination was live or the destination lies in the data directory; the origin as in the inner loop |
| MoveFiles.MoveItem | renku/core/dataset/dataset.py:952-979 | the new entry is made without an origin, moved, and has the origin of the source in the last dataset where that was live |
| MoveFiles.MoveAllItems | renku/core/dataset/dataset.py:952-981 | the outer loop: every source is gone everywhere, every destination is live where it was or where it joins, with its new checksum, other entries are kept, and recorded are exactly the datasets where, before the move, a source or destination was live or a destination lies in the data directory; the others, but for the target, are unchanged |
| MoveFiles.MoveFiles | renku/core/dataset/dataset.py:938-981 | on copies that share no entry, path by path: where each path is live afterwards, one live entry per path, with its new checksum at a destination and its old content elsewhere; recorded are exactly the copies of the datasets where a source or destination was live or a destination lies in the data directory; fails if and only if the target does not exist |
| Dockerfile.FindRenkuSection | renku/domain_model/template.py:593-603 | the last start marker before the first pure end marker, and that end |
| Dockerfile.SectionIs | renku/domain_model/template.py:593-616 | there is a section if and only if a start is followed by an end with no marker in between and no end before |
| Dockerfile.HashedContentIs | renku/domain_model/template.py:619-634 | what is hashed is the lines of the section that are not blank, and without a section the whole file |
| Dockerfile.UpdateDockerfileContent | renku/domain_model/template.py:637-651 | splices the section, or overwrites the file |
| Dockerfile.ChecksumsAgree | renku/domain_model/template.py:619-651 | after an update the checksums of source and destination agree, in all cases |
| Dockerfile.OutsideIsKept | renku/domain_model/template.py:637-651 | with two sections, the lines before and after the destination's section stay, up to spaces at line ends and one blank last line, and the section is the source's |
| Dockerfile.UpdateTwiceIff | renku/domain_model/template.py:637-651 | a second update changes nothing if and only if the source has no section, or the destination does not end with a blank line (or, having no section, was overwritten by a source in joined form) |
| Dockerfile.SecondUpdateDropsBlankLine | renku/domain_model/template.py:637-651 | a concrete file that the second update still changes |
| Text.ReadBackLines | renku/domain_model/template.py:639-649 | joined lines are read back as they were, but for one blank line at the end |
| Commands.ProjectContext.PushPath | renku/domain_model/project_context.py:256-264 | one context more |
| Commands.ProjectContext.PopContext | renku/domain_model/project_context.py:239-254 | one context less, its database written if it saves changes; fails if and only if there is none |
| Commands.Command.AddHooks | renku/command/command_builder/command.py:292-330 | hooks are appended under their order, unless the command is finalized |
| Commands.Command.Build | renku/command/command_builder/command.py:332-346 | registers the hooks of all wrappers, outermost first, and of the base; succeeds if and only if there is an operation and the command is not finalized |
| Commands.Command.RunHook | renku/command/command_builder/repo.py:60-105 | every hook does to contexts, repository and result what it is specified to |
| Commands.Command.Execute | renku/command/command_builder/command.py:202-266 | runs hooks by ascending order, the operation, and hooks by descending order, stopping where the specification stops |
| CommandOrder.AscendingIsUpwards | renku/command/command_builder/command.py:216-221 | sorted orders run every order once, upwards |
| CommandOrder.DescendingIsDownwards | renku/command/command_builder/command.py:258-264 | reversed, every order once, downwards |
| CommandOrder.BuiltInjections | renku/command/command_builder/database.py:112-118 | any chain of wrappers, in any order, injects the base, then isolations, then databases |
| CommandOrder.BuiltPres | renku/command/command_builder/command.py:230-242 | the base sets up the exit stack before any pre hook of a wrapper runs |
| CommandOrder.BuiltPosts | renku/command/command_builder/repo.py:107-117 | and afterwards runs databases, then commits, then isolations, then communicators, then the base |
| CommandRuns.RunPushes | renku/command/command_builder/database.py:55-64 | injection hooks raise if and only if one of them does, and otherwise push one context each |
| CommandRuns.RunPres | renku/command/command_builder/command.py:230-242 | pre hooks, once there is an exit stack and a context, raise if and only if one of them does, and otherwise change nothing |
| CommandRuns.SomeHookRaisesIff | renku/command/command_builder/command.py:214-242 | a hook that runs before the operation raises if and only if one that some wrapper registered does |
| CommandRuns.BuiltExecutionIs | renku/command/command_builder/command.py:202-266 | of a freshly built chain of wrappers, from any stack: the post hooks run, in the world that the contexts, the exit stack and the operation leave, if and only if no injection or pre hook raises and the operation does not crash |
| CommandRuns.RunFlushes | renku/command/command_builder/database.py:98-110 | database hooks leave one context each, writing those that save changes, last first |
| CommandRuns.RunCommits | renku/command/command_builder/repo.py:79-105 | every commit hook commits where the command ran, unless the command or a commit failed |
| CommandRuns.RunIsolations | renku/command/command_builder/repo.py:193-213 | isolation hooks leave their contexts and merge there, whatever happened |
| CommandRuns.ExecutionInOrder | renku/command/command_builder/command.py:202-266 | one execution of a freshly built command, from any stack: something else than a Renku error is raised if and only if an injection or pre hook raises or the operation crashes; otherwise the stack ends as it began, the databases are written, then the commits are made in the worktree, then it is merged where the command began; on success and on a Renku error |
| CommandRuns.BuildAndExecute | renku/command/command_builder/command.py:202-346 | the same for a new command that is built and executed in place, on its contexts and repository; without an operation it raises and changes nothing |
| CommandRuns.StackIsBalancedIff | renku/command/command_builder/command.py:160-200 | unless a hook raises or the operation crashes, the stack ends as it began if and only if no added context is left over from an earlier execution, or the stack is empty |
| CommandRuns.WritersAreFlushed | renku/domain_model/project_context.py:239-254 | every context that saves changes is written exactly once |
| CommandRuns.PushesWrite | renku/command/command_builder/database.py:62-62 | the contexts that save changes are those of database commands that write |
| CommandRuns.RetriedBuildDoubles | renku/command/command_builder/command.py:332-346 | building again after a failed build registers the hooks of the wrappers twice |
| Checkpoints.CheckpointIterator | renku/command/rollback.py:298-334 | yields the first commit of every run of equal transaction ids |
| Checkpoints.StartsAre | renku/command/rollback.py:298-334 | the runs start exactly where the id changes, in order |
| Checkpoints.BelongsToOne | renku/command/rollback.py:298-334 | every transactional commit belongs to exactly one checkpoint, with its transaction id |
| Checkpoints.NeighboursDiffer | renku/command/rollback.py:298-334 | neighbouring checkpoints have different ids |
| PathTrees.DirectoryTree.Get | renku/domain_model/datastructures.py:52-61 | the subtree at a path, if and only if the path is in the tree |
| PathTrees.DirectoryTree.SetDefault | renku/domain_model/datastructures.py:68-69 | the dictionary under a key, made if it is not there; the rest of the tree stays |
| PathTrees.DirectoryTree.Add | renku/domain_model/datastructures.py:63-69 | exactly the prefixes of the path are added |
| PathTrees.FromList | renku/domain_model/datastructures.py:44-50 | a tree with exactly the prefixes of the values |
| TreeIteration.AllPrefixesAre | renku/domain_model/datastructures.py:44-69 | a path is in the tree, and found by `get`, if and only if it is a prefix of an inserted path |
| TreeIteration.Turn | renku/domain_model/datastructures.py:79-87 | one turn of the queue keeps: everything to be yielded is yielded once or waits below exactly one queued path, by level, and less waits |
| TreeIteration.Iterate | renku/domain_model/datastructures.py:71-87 | terminates, and yields every path that ends at an empty dictionary and has no `/` component exactly once, nothing else, in nondecreasing depth |
| TreeIteration.YieldedAreMaximal | renku/domain_model/datastructures.py:71-87 | those are the inserted paths that are no strict prefix of another one |
| Lines.LinePoints | renku/command/view_model/text_canvas.py:80-96 | as many points as the longer extent and one, each where it is specified |
| Lines.PointIsRoundedUp | renku/command/view_model/text_canvas.py:91-96 | every point is the straight line at its step, rounded up on each axis |
| Lines.PointsInBox | renku/command/view_model/text_canvas.py:80-96 | every point lies in the bounding box of the ends |
| Lines.LineIsConnected | renku/command/view_model/text_canvas.py:80-96 | neighbouring points differ by at most one on each axis |
| Lines.EndIsReachedIff | renku/command/view_model/text_canvas.py:80-96 | a line starts at its start, and meets its end if and only if both extents are nonnegative |
| Canvas.TextMatrix.DrawLine | renku/command/view_model/text_canvas.py:147-156 | exactly the points of the line are filled |
| Canvas.TextMatrix.DrawBlank | renku/command/view_model/text_canvas.py:158-167 | exactly the box is blanked |
| Canvas.DrawBox | renku/command/view_model/text_canvas.py:199-233 | border, corners and blank inside, and nothing outside |
| Canvas.DrawText | renku/command/view_model/text_canvas.py:254-274 | exactly the characters of the lines |
| Canvas.CellsAreInExtent | renku/command/view_model/text_canvas.py:276-286 | a shape writes only within its extent |
| Canvas.Surround | renku/command/view_model/text_canvas.py:421-435 | the box holds every extent, whatever the coordinates |
| Canvas.Render | renku/command/view_model/text_canvas.py:414-442 | fails if and only if there is nothing to draw or a shape cannot be drawn; otherwise every index is inside the matrix, and every cell shows the last shape that wrote there |

## Left out

Object database:

- Enum members and plain objects nested in inlined indices: the writer gives them a slot and the reader does not count it, so the slots disagree.
- Identity and sharing of lists, dictionaries and sets: the serializer copies them wherever they occur, and so they are values here; `1`, `True` and `1.0` are different dictionary values here.
- RoundTrip.ReadBack: needs distinct ids; for any ids see `Merging.ReadingMerges`, `MergedReads` and `MergedContents`.
- Merging.ReadingMerges: the two id caches of the reader agree, as reading any JSON keeps them (`Isomorphism.ReadMerges`); when they do not, only what one object is read as is said (`MergingLimits.StandsForWhatIsReadIff`).
- LoadedStates.StoredComesBack: the rest of a state is one opaque number here; `Records.StoredStateLoadsBack` says the same of the JSON.
- Datetimes are identified with their ISO text, classes and functions with their names, and class lookup is a table.
- JSON text, compression, file names and hashing of ids: the storage is a map from oid to record, and an oid is given.
- CompletedCommits.CommitClosesTheStore: records are modelled here by the references they hold; `References.LinksAreCitations` and `References.CitationsLeadToRecords` say the same of the JSON.
- PersistentDatabase.Database.CommitAll: takes an arbitrary entry of the worklist where the code takes the last one, so what is proved holds for both; no ghost may wait on the worklist. With mismatched oids whether it completes depends on the order, and only one direction is claimed.
- IdentityMap.RunKeepsSound: `clear`, adding and removing root objects, and setting another oid on an object that has one by `add` are not operations; a run ends where a commit turn raises; a ghost is loaded before it is registered or changed.
- Isomorphism.RoundTripsIffIdsAreDistinct: an immutable object's id is missing or starts with `/`; immutable objects with other ids are also kept one per id, for the whole process and by weak references, and that is not modelled.
- Writer.ObjectWriter.Serialize: the class, oid and value keys around the data are added by `Records.SerializeRecord`.
- Reader.ObjectReader.DeserializeHelper: indices, enum members and persistent objects inlined in a record raise here.
- Reader.ObjectReader.DeserializeInstance: the same branches raise here.
- PersistentDatabase.Database.StoreObject: says nothing after a refusal; the code has written the record by then.
- Freezing of objects, and the immutability checks that raise on a frozen one.

Merge driver:

- Setting up worktrees, and the texts of prompts: answers are inputs.
- Merging of catalogs, indices, tree sets and annotations, whose rules differ.
- OctopusLaws.NewestVersionWinsIff: each branch can look up what its own version derives from, and the local database has nothing else under the ids of the chain; after an abort nothing is written, and nothing is claimed.
- ProjectMerge.MergeAllProjects: of version and annotations each single merge says what they are, and the loop does not repeat it.

Others:

- Datasets.Dataset.Copy: annotations, creators, images and keywords are not modelled.
- Datasets.Dataset.UpdateFilesFrom: new ids come from a function of the path; that random ids do not repeat is not modelled.
- Commands.ProjectContext.PopContext: the code writes a database only if it was opened; here a context that saves changes has one.
- TreeIteration.Iterate: yields lists of components, which the code joins with `/`.
- Canvas.TextMatrix.DrawBlank: the code draws any matrix onto another; this draws a blank one.
- TopologicalSort.Sorter.Sort: the recursion limit of Python is not modelled.
- PlanDates.FixPlanDates: the gateway finds everything a plan derives from, and derivations have no cycle; the dates are integers.
- MoveFiles.MoveFiles: no destination is a source, and destinations are distinct; the derived versions that are saved afterwards are modelled by `Datasets.Dataset.UpdateFilesFrom` only. The origin of a new entry is said for one file at a time (`MoveFiles.MoveItem`): when the source is in several datasets, it is that of the last of them.
- The size of dataset files, and the correction of linked files on loading.
- Dockerfile.UpdateDockerfileContent: text as read with universal newlines; the checksum is the text that is hashed.
- CommandRuns.ExecutionInOrder: says when a non-Renku exception is raised, but nothing of what is left then, because contexts are not left there; the minimum version check, the dependency injector and the lock are not modelled. With several isolations only the number of merges is claimed.
- `replace_path`, `with_path` and `with_rollback` of the context stack.
- Canvas.Render: coordinates are integers, styles are given as functions, and shapes come in the order of their layers.
- Checkpoints.CheckpointIterator: the pattern that finds the transaction id in a message is an input.
- Git, storage providers, configuration, and everything that talks to a network.
