# Lin-DB in Dafny

Lin-DB is a LevelDB-style store: writes go to a log and a memtable, full memtables become level-0 tables,
compactions merge tables downwards, a MANIFEST records which tables make up the current version, and reads see
the store at a sequence number. The one thing all of this promises is that background work is invisible: whatever
has been flushed, moved, merged, or replayed, a reader at a live sequence number finds the map as the writes up to
that number left it. This project models the store in Dafny 4.11 and proves that promise, and the promises of the
parts it rests on.

`dafny verify dfyconfig.toml` checks everything.

## How it is laid out

**The engine as a step machine.** `Engine` holds the whole state of a store as a value (memtables, version state,
logs, snapshots, the compaction in flight, the history of versions) and one step function for each thing that can
happen: write, freeze, flush, trivial move, compaction pick, compaction install, snapshot taken or released, close
and reopen. `Invariants` states what every step keeps, the `Safety...` files prove it step by step, and `Safety`
puts it together: `ReadsAreTheMap` is the store's promise over all runs. `Compaction` (merge loop and drop rule),
`InputSelection`, `Versions` (edits, MANIFEST replay) and `CompactPointers` are the parts with proofs of their own.
`TablesAlone` and `TornLogs` say what is left when logs are cut, `TornOpen` takes that down to the bytes of the log, and
`DeletedKey` is an example. `DbImpl` and `VersionSets` are the same operations as classes that update their fields; each
method is proved to take exactly the steps of the machine, so a `DBImpl` object is always in a state some run reaches.

**Reading.** `PointLookup` and `ReadPaths` prove that Get finds the newest version, and exactly when a level search
can miss one; `SplitKey` builds a reachable state where it does, `Undivided` says how to avoid it. `DbIterator`
(user-level iterator) runs on `Merger` (merging iterator and its wrappers), and `IteratorStack` puts both over the
memtables and tables of a reachable state and lists the map forward and backward; `RepeatedKey` builds one in which
Next shows a key twice.

**Formats.** `Coding`, `Comparators`, `Crc`, `Blocks` and `BlockReader` (prefix-compressed blocks), `TableFormat`,
`Tables`, `TwoLevel` (tables and their index), `LogFormat`, `LogRecovery`, `Logs` (the framed log, cut at any byte),
`WriteBatches`, `WalReplay`, `EditCodec`, `Bloom`, `FilterBlocks`.

**Structures on the heap.** `SkipLists` and `MemTables`, `SkipReaders` (searches interleaved with insertions),
`HandleTables`, `CacheStates` and `Caches` (the LRU cache: histories of calls as values, and the object that runs
them), `LiveVersions` (reference counts and obsolete tables).

`Keys`, `Lists`, `Visibility`, `Files`, `Runs` and `Cursors` hold what the others share.

## What holds only under a condition

- `FindFileInLevel` searches by user key alone, while a compaction may cut its output between two versions of one
  key. A Get at the last sequence is right all the same (`ReadPaths.GetAtLastIsTheMap`). At a snapshot a level answers
  correctly if and only if no file boundary separates the visible versions of the key from newer ones
  (`PointLookup.LevelGetCorrectIff`). Get loses its version if and only if it passes such a level by and the first
  deeper level that has visible versions of the key, not separated so, holds no copy of the one missed
  (`PointLookup.GetCorrectIff`). It returns the value the map held all the same if and only if that level's newest
  visible version reads alike, or there is no such level and a deletion was missed (`ReadPaths.GetIsTheMapIff`).
  `SplitKey.GetCanLoseASnapshotRead` is a run after which it loses a value; none does on a store whose compactions were
  all picked while no snapshot older than the last sequence was live (`Undivided.QuietGetIsTheMap`). Iterators are not
  affected.
- The log is not changed when a memtable is flushed, so a torn log may also miss what is in tables. If it does not,
  opening gives the map after the surviving operations; if it does, a replayed version can surface over the tables
  (`TornLogs.TornReopen`, exactly when; `TornOpen.OpenTorn`, from the bytes), and a deletion that was flushed and
  compacted away is undone (`DeletedKey.DeletedKeyReturns`).
- `DBIter::Next` after a reverse move goes on from the entry behind the current key. It returns the next key if that
  entry's successor has the current key, and the current key once more if not (`DbIterator.DBIter.Next`, both
  branches). `RepeatedKey.NextShowsTheKeyAgain` is such a call, on a state that two batches and a snapshot
  reach. At the last sequence it is always right (`IteratorStack.TurnsFreelyAtLast`).
- A log cut in the middle of a record always yields exactly the records before the cut, but Open succeeds only if the
  cut is clean (`LogRecovery.TornTailStatus`, `TornOpen.OpenTorn`): a cut inside a header, or behind the first
  fragment of a record, is reported as corruption (`LogRecovery.CutInHeader`).
- Replacing or erasing a cache key whose entry a client holds leaves that entry listed and charged for good
  (`Caches.EraseWhileHeld`, `CacheStates.StuckStays`). After any history of calls the clean picture (every entry
  mapped, one reference exactly on the LRU list, more exactly on the other) holds if and only if no call did that
  (`CacheStates.CleanIffNoneTaken`, `Caches.LRUCache.History`).
- With the smallest snapshot at the largest sequence number a compaction would drop every entry
  (`CompactionWork.NothingSurvivesAtMaxSequence`), so a compaction is only started below it.

## Model
| member | source | states |
|---|---|---|
| Safety.ReadsAreTheMap | db/db_impl.cc:158-259 | in every state any run of write, freeze, flush, trivial move, compaction pick and install, snapshot, release and reopen can reach, reading the newest stored version at the last sequence or at a live snapshot gives what the map held after the writes up to it |
| Safety.ReachableInv | db/db_impl.cc:158-686 | every reachable state keeps the invariant: stored versions are history, newer versions lie in newer sources, levels are in order, the logs cover what is not in tables, the MANIFEST rebuilds memory, a compaction in flight stays closed |
| Safety.StepKeepsInv | db/db_impl.cc:158-686 | each kind of step keeps that invariant |
| Safety.HistoryIsWritten | db/db_impl.cc:158-196 | the versions of a run are its operations in order, numbered from 1 without gaps, whatever background work happened |
| Safety.ReadIsLookup | db/write_batch.cc:45-115 | reading numbered versions at sequence n is looking up the map after the first n operations |
| SafetyMemory.WriteKeepsInv | db/db_impl.cc:158-196 | a write keeps the invariant |
| SafetyMemory.PickKeepsInv | db/db_impl.cc:254-259 | fixing the smallest snapshot when a compaction is picked keeps the invariant |
| SafetyFlush.FreezeKeepsInv | db/db_impl.cc:531-543 | switching to a new memtable keeps the invariant |
| SafetyFlush.FlushKeepsInv | db/db_impl.cc:545-573 | turning the frozen memtable into a level-0 table keeps the invariant, also while a compaction is in flight |
| SafetyCompaction.MoveKeepsInv | db/version_set.cc:217-224 | a trivial move keeps the invariant |
| SafetyCompaction.InstallKeepsInv | db/db_impl.cc:827-840 | replacing the inputs of a compaction by its outputs, after any flushes and writes in between, keeps the invariant |
| SafetyRewrite.RewriteKeepsNewerAbove | db/version_set.cc:1103-1161 | rewriting a closed selection one level down never leaves a version above a newer one of its key |
| SafetyRewrite.RewriteKeepsDisjoint | db/version_set.cc:618-641 | the output level stays sorted and disjoint |
| SafetyReopen.ReopenKeepsInv | db/db_impl.cc:276-427 | closing and opening again, replaying the logs over the recovered version although flushed versions come twice, keeps the invariant at the same last sequence |
| SafetyReopen.LiveLogIsCurrent | db/db_impl.cc:545-573 | the logs a reopen replays are exactly the current one: the log number never passes unflushed entries |
| SafetyReopen.ReplayEffect | db/db_impl.cc:368-427 | each replayed memtable becomes a level-0 table with its size and bounds, numbered in order, and no other level changes |
| TablesAlone.ReachableStands | db/db_impl.cc:545-573 | in every reachable state some first n operations are flushed: memory holds exactly the versions after them, and the tables alone read as the map after those n |
| TornLogs.TornReopen | db/db_impl.cc:276-427 | opening with the current log cut to its first versions: if the cut keeps all that is flushed, the store reads as the map after the surviving operations; if not, a key reads as after the flushed ones if and only if no version left in the log is newer than all its versions in the tables and says something else |
| TornOpen.OpenTorn | db/db_impl.cc:276-427 | from the bytes: for a run of Write calls and other steps, and the current log cut at any byte, Open's replay succeeds if and only if the cut is clean; then its tables and last sequence are those of the engine's reopening step, and the store reads as the operations of the calls up to the last whose log lies within the cut, with the condition of TornReopen if more was flushed |
| TornOpen.LogHolds | db/db_impl.cc:158-196 | in every reachable state the current log holds the versions of exactly the batches written since it was begun, each numbered on from those before |
| TornOpen.WholeBatches | db/db_impl.cc:368-427 | what any cut of its bytes leaves are the operations of whole calls, up to the last whose record ends within the cut |
| TornOpen.LogWrite | db/db_impl.cc:173-177 | numbering a batch and adding it as a record makes the log that of one call more |
| DeletedKey.DeletedKeyReturns | db/db_impl.cc:276-427 | a run after which such an opening brings a deleted key back |
| CompactionWork.CompactionPreservesReads | db/db_impl.cc:842-937 | for each key and each sequence from the smallest snapshot on, outputs and untouched files read as inputs and untouched files did |
| CompactionWork.KeptSorted | db/db_impl.cc:873-914 | the merge loop emits a strictly sorted run, also when versions repeat in the input |
| CompactionWork.DroppedHidesOlder | db/db_impl.cc:877-892 | a version is never dropped while an older one of its key is kept |
| CompactionWork.NewestDroppedIsTombstone | db/db_impl.cc:884-890 | the newest visible version is only ever dropped as a tombstone with nothing below it |
| CompactionWork.NothingSurvivesAtMaxSequence | db/db_impl.cc:857-892 | with the smallest snapshot at the largest sequence number the loop would drop everything |
| CompactionWork.DoCompactionWork | db/db_impl.cc:842-937 | the loop writes in all its outputs together exactly the kept entries, cut into outputs where the specification cuts them, each with its bounds |
| CompactionWork.DropEntry | db/db_impl.cc:877-892 | the drop test as the loop makes it |
| CompactionWork.KeptExactly | db/db_impl.cc:877-892 | and so what survives a merge is every version above the smallest snapshot and, of each key, the newest one not above it unless that is a tombstone with nothing below: exactly these |
| CompactionWork.Compaction.IsBaseLevelForKey | db/version_set.cc:237-256 | for nondecreasing keys the moving cursors answer as a scan of all deeper files does |
| CompactionWork.Compaction.ShouldStopBefore | db/version_set.cc:258-275 | an output is cut exactly when the grandparents passed since the last cut weigh more than the limit |
| CompactionWork.ConcatSorted | db/db_impl.cc:863-914 | the pieces of a cut run are sorted and follow each other |
| CompactionWork.CutExactlyWhenDue | db/db_impl.cc:863-914 | an output ends exactly where its size has reached the limit or the grandparents passed since the last cut weigh too much |
| CompactionWork.PiecesAreSmall | db/db_impl.cc:907-914 | no output reaches the size limit before its last entry, and none is empty |
| CompactionWork.StopsIff | db/version_set.cc:258-275 | an output is stopped exactly when the grandparents that end between the entry reached and the one that stopped the last output, or the first of the input, weigh more than the limit |
| CompactionWork.PiecesCutAsDue | db/db_impl.cc:863-914 | the outputs of a whole merge hold the kept entries in order, and each ends before the next kept entry exactly if its size has reached the limit or an entry on the way there stops it |
| Runs.MergeRunsSorted | db/version_set.cc:1083-1098 | the merged input of a compaction is in order, and a version repeats in it only if two files share it |
| InputSelection.SelectionIsClosed | db/version_set.cc:1103-1161 | no file left on the level holds an older version of a chosen key, no file left on the next level overlaps the chosen range |
| InputSelection.SetupOtherInputs | db/version_set.cc:1103-1161 | the chosen inputs are closed, before and after the expansion, with the same lower files; the wider choice is taken exactly if it adds files, fits the limit and needs no more lower files; the grandparents are the files below that overlap all of them |
| InputSelection.NeededIsClear | db/version_set.cc:1103-1117 | no lower file left out of the inputs has a user key of the upper ones |
| InputSelection.ExpansionKeepsLowerInputs | db/version_set.cc:1140-1150 | an adopted expansion never changes the lower files |
| InputSelection.GetOverlappingInputs | db/version_set.cc:363-408 | the overlapping files; on level 0 of the least closed range around the one asked for (the restart loop ends) |
| InputSelection.AddBoundaryInputs | db/version_set.cc:132-147 | appends, nearest first, all files the last key runs on into, and ends |
| InputSelection.FindSmallestBoundaryFile | db/version_set.cc:113-128 | the nearest file that goes on with the user key, or none exists |
| InputSelection.ChainExtendsInterval | db/version_set.cc:132-147 | in a disjoint level boundary files are the neighbours to the right as long as they touch |
| InputSelection.OverlapInterval | db/version_set.cc:363-408 | in a disjoint level the overlapping files are neighbours |
| InputSelection.GetRange | db/version_set.cc:1058-1073 | the smallest and largest key of the inputs |
| InputSelection.ChooseBelow | db/version_set.cc:1116-1117 | the lower files: those overlapping the range, then boundary files |
| InputSelection.ExpandAcross | db/version_set.cc:1127-1128 | the wider upper files contain the narrower ones and are again a closed pick |
| Versions.EveryRunIsDurable | db/version_set.cc:708-834 | after any run of logged edits, handed-out numbers and recoveries, replaying the MANIFEST rebuilds every level in order, the log number and the last sequence |
| Versions.LogAndApplyIsDurable | db/version_set.cc:708-768 | right after an edit is logged, replay equals memory, next file number included |
| Versions.LogEffect | db/version_set.cc:574-661 | what logging an edit does to each level: deleted files gone, added files there, the rest untouched |
| Versions.SaveLevelProperties | db/version_set.cc:618-641 | the merged level is sorted by smallest key and holds exactly the surviving and the added files |
| Versions.SaveTo | db/version_set.cc:618-641 | the two-cursor merge computes that level |
| Versions.SaveOntoEmpty | db/version_set.cc:836-859 | replaying a snapshot of a level restores it, order included |
| Versions.SnapshotRestores | db/version_set.cc:836-859 | a snapshot record applied to an empty version set restores all levels and the last sequence |
| Versions.RecoveredStartsAfresh | db/version_set.cc:716-729 | the first edit after a reopen starts the MANIFEST afresh, with a snapshot, under the number it had |
| CompactPointers.PointersSurvive | db/version_set.cc:593-598 | in every reachable state replaying the MANIFEST gives back the compact pointers in memory, but for the one a compaction in flight has moved |
| VersionSets.VersionSet.LogAndApplyEdit | db/version_set.cc:708-768 | the method takes the version set to the state the specification gives, compact pointers and MANIFEST records included |
| VersionSets.VersionSet.Recover | db/version_set.cc:770-834 | rebuilds levels, counters and compact pointers from the records of the MANIFEST |
| VersionSets.VersionSet.ApplyVersionEdit | db/version_set.cc:861-882 | levels, counters and compact pointers after one edit |
| VersionSets.VersionSet.SortEdit | db/version_set.cc:593-615 | sets the compact pointers and sorts the edit by level; a file added again is not deleted |
| VersionSets.VersionSet.WriteSnapshot | db/version_set.cc:836-859 | one record with every compact pointer and every file of every level |
| VersionSets.VersionSet.NewFileNumber | db/version_set.cc:894-896 | hands out numbers one by one |
| VersionSets.VersionSet.MarkFileNumberUsed | db/version_set.cc:898-902 | never hands out a number seen on disk |
| VersionSets.VersionSet.PickFiles | db/version_set.cc:921-976 | a size compaction starts at the first file beyond the level's pointer, or at the first if none is, a seek compaction at its file; on level 0 with all it overlaps |
| VersionSets.VersionSet.FilesInRange | db/version_set.cc:978-1003 | a manual compaction takes the files of the range, below level 0 only up to the one with which their total size reaches the limit |
| DbImpl.DBImpl.WriteBatch | db/db_impl.cc:158-196 | on a store reached by a run, appends the operations to that run; room is made first, so a frozen or full memtable becomes a level-0 table, and then log and memtable hold the versions of the batch, in order; an empty batch changes nothing |
| DbImpl.DBImpl.MakeRoomForWrite | db/db_impl.cc:531-543 | the frozen memtable, or the full one, becomes a level-0 table and is emptied, the versions are those after that flush, and operations, sequence and snapshots stay |
| DbImpl.DBImpl.FlushMemTable | db/db_impl.cc:545-573 | the frozen memtable becomes one more level-0 table, logged with the current log and the last sequence, and is empty; the active one stays |
| DbImpl.DBImpl.GetSnapshot | db/db_impl.cc:236-240 | the snapshot is the last sequence and is live; nothing else changes |
| DbImpl.DBImpl.DropSnapshot | db/db_impl.cc:242-252 | one holder of the sequence less; nothing else changes |
| DbImpl.DBImpl.SmallestSnapshot | db/db_impl.cc:254-259 | the oldest live snapshot, or the last sequence |
| DbImpl.DBImpl.StartCompaction | db/db_impl.cc:650-686 | closes the selection around the picked files, widened where that pays within the limit given, and leaves no lower file behind with one of their user keys; a lone file with light grandparents is moved down, anything else becomes the compaction in flight; the compact pointer of the level is the largest key of the inputs; operations, sequence, memtables and snapshots stay |
| DbImpl.DBImpl.FinishCompaction | db/db_impl.cc:665-686 | reading, merging and installing ends the compaction in flight and leaves a store that a run reaches; its inputs are replaced by files that hold exactly the kept entries, each with its size and bounds, cut exactly where file-size limit and grandparent limit say; operations, sequence, memtables and snapshots stay |
| DbImpl.DBImpl.InstallCompactionResults | db/db_impl.cc:827-840 | one edit takes exactly the inputs out of the two levels and puts the outputs, under fresh numbers, into the lower one |
| DbImpl.DBImpl.MoveFile | db/db_impl.cc:665-680 | a trivial move takes the file from its level and puts it one level down, and sets the compact pointer |
| DbImpl.DBImpl.PickFor | db/db_impl.cc:842-860 | the selection becomes the compaction in flight, with the smallest snapshot of the moment; the levels stay as they are |
| DbImpl.DBImpl.Reopen | db/db_impl.cc:276-427 | recovering, replaying and logging loses no operation and keeps the last sequence; the state is that of the reopening step |
| DbImpl.DBImpl.RecoverVersions | db/db_impl.cc:276-366 | the version set, log list and last sequence after a reopen |
| DbImpl.DBImpl.Get | db/db_impl.cc:198-219 | at the last sequence always what the map holds; at a live snapshot what it held then if and only if the value is not lost at a file boundary, and the newest visible version if and only if that is not lost; always right on a store whose compactions were all picked without old snapshots |
| ReadPaths.GetIsTheMap | db/db_impl.cc:198-219 | in every reachable state Get at a live sequence is the lookup in the map, unless it loses its version at a file boundary |
| ReadPaths.GetIsTheMapIff | db/db_impl.cc:198-219 | in every reachable state Get at a live sequence is the lookup in the map if and only if no level is passed by, or what the first deeper level that is neither split nor without visible versions holds reads like the version missed, or that is a deletion and there is no such level |
| ReadPaths.GetAtLastIsTheMap | db/db_impl.cc:198-219 | in every reachable state Get at the last sequence is the lookup in the map, with no condition |
| ReadPaths.ScanIsTheMap | db/db_iter.cc:54-221 | in every reachable state the shown entries of the stored versions are exactly the map, each key once and in order |
| PointLookup.GetFindsNewest | db/version_set.cc:439-516 | memtables, then level 0 newest file first, then one searched file a level: finds the newest version over everything stored, unless the search passes a level by whose files split the visible versions of the key |
| PointLookup.GetCorrectIff | db/version_set.cc:439-516 | for each key and readable sequence: it finds the newest version if and only if no level is passed by so, or the first deeper level that is neither split for the key nor without visible versions of it holds a copy of the version missed |
| PointLookup.LosesIfStoredOnce | db/version_set.cc:439-516 | such copies come from a reopen alone: for a version written since, or stored at one place, passing a level by is losing |
| PointLookup.NothingLostAtLast | db/db_impl.cc:198-219 | at the last sequence no level is ever passed by |
| PointLookup.GetAgreesWithRead | db/db_impl.cc:198-219 | if the version is not lost, Get agrees with a brute-force read |
| PointLookup.GetAgreesIff | db/db_impl.cc:198-219 | Get agrees with a brute-force read if and only if no level is passed by, or the first deeper level that is neither split nor without visible versions reads like the version missed, or that is a deletion and there is no such level |
| PointLookup.LevelGetCorrectIff | db/version_set.cc:410-432 | the search of a level is right for a key at a sequence if and only if no file boundary separates the versions visible there from newer ones |
| PointLookup.SeparatedIff | db/version_set.cc:410-432 | and for all keys and sequences if and only if no two neighbouring files share a user key |
| PointLookup.FindFileInLevel | db/version_set.cc:410-432 | the binary search finds the file a scan finds |
| PointLookup.LookUpVersion | db/version_set.cc:439-516 | the lookup loops compute the specified search |
| SplitKey.GetCanLoseASnapshotRead | db/version_set.cc:410-432 | a reachable state in which Get at a live snapshot misses a value that was written: a compaction cut its output between two versions of one key, where the merge loop cuts it under a small file size |
| Undivided.QuietGetIsTheMap | db/db_impl.cc:198-219 | if every compaction was picked with inputs as SetupOtherInputs leaves them and no snapshot older than the last sequence live, Get is the map at the last sequence and at every live snapshot |
| Undivided.QuietStaysApart | db/db_impl.cc:842-937 | on such a store no level from 1 on has a user key in two files |
| Undivided.KeptOnePerKey | db/db_impl.cc:873-892 | a merge whose smallest snapshot is not below its input keeps one version of each key |
| MemTables.MemTable.Add | db/memtable.cc:119-144 | one version more, in key order |
| MemTables.MemTable.Get | db/memtable.cc:146-188 | the newest version not above the sequence, or none exists |
| IteratorStack.StackShowsTheMap | db/db_impl.cc:221-234 | in every reachable state, reopened or not, the union of all memtables and tables shows exactly the map at a live sequence |
| IteratorStack.ScanForward | db/db_iter.cc:54-119 | SeekToFirst and Next on the whole stack list exactly that map in key order |
| IteratorStack.ScanBackward | db/db_iter.cc:74-126 | SeekToLast and Prev list the same pairs from the back |
| IteratorStack.NewDBIterator | db/db_impl.cc:221-234 | one child for each memtable and table, merged: the iterator runs over all stored versions |
| IteratorStack.UnionMembers | db/version_set.cc:518-528 | the children together hold exactly the stored versions |
| IteratorStack.TurnsFreelyAtLast | db/db_iter.cc:54-72 | an iterator at the last sequence may change direction at will |
| IteratorStack.ReadInput | db/version_set.cc:1083-1098 | reading the merging iterator over the files of a compaction to its end gives their merged run |
| DbIterator.DBIter.Next | db/db_iter.cc:54-72 | the next shown key; after a reverse move that, or the same key again, decided by whether the entry resumed at has the key |
| DbIterator.DBIter.Prev | db/db_iter.cc:74-95 | the previous shown key, from either direction |
| DbIterator.DBIter.Seek | db/db_iter.cc:97-108 | the first shown key not before the target |
| DbIterator.DBIter.SeekToFirst | db/db_iter.cc:110-119 | the first shown key |
| DbIterator.DBIter.SeekToLast | db/db_iter.cc:121-126 | the last shown key |
| DbIterator.DBIter.FindNextUserEntry | db/db_iter.cc:152-181 | skips invisible, hidden and deleted entries, and nothing else |
| DbIterator.DBIter.FindPrevUserEntry | db/db_iter.cc:183-221 | the last shown entry before the position, its value saved |
| DbIterator.ShownIsRead | db/db_iter.cc:152-221 | a key is shown exactly if a read at the sequence finds a value, with that value |
| DbIterator.ShownAscend | db/db_iter.cc:152-181 | no key is shown twice |
| DbIterator.TurningIsSafe | db/db_iter.cc:56-71 | without versions above the sequence Next after a reverse move is right |
| DbIterator.TurningCanRepeat | db/db_iter.cc:56-71 | with one such version between, it can show the same key again |
| RepeatedKey.NextShowsTheKeyAgain | db/db_iter.cc:54-72 | a reachable state and a live snapshot at which SeekToLast and then Next of the iterator both show the same key |
| Merger.MergingIterator.Next | db/merger.cc:58-73 | the next entry of the sorted union; after a reverse move, the next key |
| Merger.MergingIterator.Prev | db/merger.cc:75-92 | the previous entry; after a forward move, the previous key |
| Merger.MergingIterator.Seek | db/merger.cc:50-56 | the lower bound in the union |
| Merger.MergingIterator.SeekToFirst | db/merger.cc:34-40 | the first entry of the union |
| Merger.MergingIterator.SeekToLast | db/merger.cc:42-48 | the last entry of the union |
| Merger.MergingIterator.FindSmallest | db/merger.cc:120-130 | selects a child at the next entry of the union |
| Merger.MergingIterator.FindLargest | db/merger.cc:132-142 | selects a child at the entry before |
| Merger.NextAtSplit | db/merger.cc:120-130 | once q entries are consumed in order, the least head has the key of entry q, however often keys repeat |
| Merger.LastAtSplit | db/merger.cc:132-142 | the same going back |
| Merger.MergeAllCounts | db/merger.cc:50-56 | the runs of the children sum up: where each child finds a key adds up to where the union has it |
| Merger.IteratorWrapper.Next | db/iterator_wrapper.h:64-68 | the cached key and validity follow the iterator |
| Merger.IteratorWrapper.Prev | db/iterator_wrapper.h:70-74 | the cached key and validity follow the iterator |
| Merger.IteratorWrapper.Update | db/iterator_wrapper.h:77-82 | the cache agrees with the iterator |
| TwoLevel.TwoLevelIterator.Seek | db/two_level_iterator.cc:64-71 | the lower bound in the concatenation of all blocks, empty blocks included |
| TwoLevel.TwoLevelIterator.Next | db/two_level_iterator.cc:73-77 | the next entry of the concatenation |
| TwoLevel.TwoLevelIterator.Prev | db/two_level_iterator.cc:79-83 | the previous entry |
| TwoLevel.TwoLevelIterator.SeekToFirst | db/two_level_iterator.cc:46-53 | the first entry |
| TwoLevel.TwoLevelIterator.SeekToLast | db/two_level_iterator.cc:55-62 | the last entry |
| TwoLevel.TwoLevelIterator.SkipEmptyDataBlocksForward | db/two_level_iterator.cc:115-127 | skips empty blocks and keeps the place |
| TwoLevel.TwoLevelIterator.SkipEmptyDataBlocksBackward | db/two_level_iterator.cc:129-141 | skips empty blocks going back |
| TwoLevel.SeekBoth | db/two_level_iterator.cc:64-71 | seeking the index, then the block found, finds the place in the whole |
| TwoLevel.OneBlockFindsUserKey | db/table.cc:167-201 | looking into one block only meets the user key exactly if the first entry not before the target has it |
| Blocks.BlockBuilder.Add | db/block_builder.cc:42-73 | one pair more; shares with the previous key all it can except at restart points |
| Blocks.BlockBuilder.Finish | db/block_builder.cc:33-40 | the bytes are the cells, the restart offsets and their number |
| Blocks.CellDecodes | db/block.cc:16-44 | decoding at a cell gives back its lengths and bytes |
| BlockReader.FinishedParses | db/block.cc:173-200 | a finished block parses to exactly the pairs added |
| BlockReader.FinishedOpens | db/block.cc:223-257 | a finished block is found well formed, with its restart array |
| BlockReader.BlockIter.Seek | db/block.cc:68-117 | from any prior position, reuse of the position included, lands on the linear-scan lower bound |
| BlockReader.BlockIter.Next | db/block.cc:119-122 | the next pair |
| BlockReader.BlockIter.Prev | db/block.cc:124-140 | the previous pair |
| BlockReader.BlockIter.SeekToFirst | db/block.cc:57-60 | the first pair |
| BlockReader.BlockIter.SeekToLast | db/block.cc:62-66 | the last pair |
| BlockReader.BlockIter.ParseNextKey | db/block.cc:173-200 | rebuilds the next key from the shared prefix, or ends |
| TableFormat.HandleRoundTrip | db/format.cc:12-24 | a block handle decodes to itself whatever follows |
| TableFormat.FooterRoundTrip | db/format.cc:26-61 | a footer has its fixed length and decodes to itself |
| TableFormat.HeldBlockReads | db/format.cc:63-111 | a written block reads back, checksum verified or not |
| TableFormat.ReadIsHeld | db/format.cc:63-111 | with checksums verified, a block is read exactly if the file holds it there, type byte and checksum included |
| TableFormat.FooterHasMagic | db/format.cc:38-50 | only what ends in the magic number is a footer |
| Tables.TableBuilder.Add | db/table_builder.cc:69-97 | one pair more, with the index entry of the block before set under a separator; the open block is written exactly when it has reached the block size |
| Tables.TableBuilder.FlushBlock | db/table_builder.cc:99-115 | the open block, if it has pairs, goes to the file as it is, its index entry pending |
| Tables.TableBuilder.WriteRawBlock | db/table_builder.cc:129-145 | block and trailer are appended where the handle says |
| Tables.TableBuilder.Finish | db/table_builder.cc:147-197 | the file opens as a table of exactly the added pairs, with an empty metaindex |
| Tables.TableOpens | db/table.cc:61-103 | footer, index and blocks of such a file lead back to the added pairs, in order and fenced by the index keys |
| Tables.NewTableIterator | db/table.cc:158-165 | a cursor over exactly the added entries |
| Tables.InternalGetFindsUserKey | db/table.cc:167-201 | without a filter, reports an entry of the user key exactly if the first entry not before the target is one, and then that one |
| Comparators.SeparatorBetween | util/comparator.cc:19-38 | a separator is the start itself or strictly between start and limit, and not longer |
| Comparators.SeparatorIsLeast | util/comparator.cc:31-37 | if the first byte that differs can be raised below the limit's, the separator is the least of the shortest strings strictly between the two |
| Comparators.SeparatorElse | util/comparator.cc:27-37 | in every other case it is the start |
| Comparators.FindShortestSeparator | util/comparator.cc:19-38 | the loop computes it |
| Comparators.SuccessorNotBefore | util/comparator.cc:40-50 | a successor is not before the key, and not longer |
| Comparators.SuccessorIsLeast | util/comparator.cc:40-50 | of a key with a byte that can be raised the successor is the least of the shortest strings strictly behind it, of others the key itself |
| Comparators.FindShortSuccessor | util/comparator.cc:40-50 | the loop computes it |
| Comparators.InternalSeparatorBetween | db/dbformat.cc:110-123 | last key of a block <= index key < first key of the next, on internal keys |
| Comparators.InternalSuccessorNotBefore | db/dbformat.cc:125-136 | the last index key is not before the last key |
| Comparators.InternalSeparatorShortens | db/dbformat.cc:110-123 | an internal key gives way to a shorter one, first of all versions of its user key, exactly if its user key has a shorter separator |
| Comparators.InternalSuccessorShortens | db/dbformat.cc:125-136 | the same for successors |
| Comparators.InternalLessIsLess | db/dbformat.cc:92-104 | comparing packed bytes is comparing user key, then sequence and type downwards |
| Comparators.BytewiseIsLawful | util/comparator.cc:11-50 | its separators lie at or behind the first key and before the second, its successors not before the key, and neither is longer |
| Comparators.InternalIsLawful | db/dbformat.cc:92-136 | the same for the internal key comparator over packed keys |
| Comparators.InternalKeyRoundTrip | db/dbformat.cc:39-55 | packing and parsing an internal key |
| Keys.RankPreservesOrder | util/comparator.cc:11-13 | byte strings embed into the reals in their bytewise order, both ways |
| Coding.Fixed32RoundTrip | util/coding.cc:14-34 | four bytes give the number back |
| Coding.Fixed64RoundTrip | util/coding.cc:36-64 | eight bytes give the number back |
| Coding.UnfixedRoundTrip | util/coding.cc:14-64 | the number gives the bytes back |
| Coding.Varint32RoundTrip | util/coding.cc:66-107 | a varint of at most five bytes decodes to itself whatever follows |
| Coding.Varint64RoundTrip | util/coding.cc:110-151 | the same for 64 bits and ten bytes |
| Coding.PrefixedRoundTrip | util/coding.cc:153-173 | a length-prefixed slice, whatever follows |
| Coding.PutVarint | util/coding.cc:66-124 | the loop appends the varint |
| Coding.GetVarint32Ptr | util/coding.cc:76-90 | the loop decodes as the specification does, truncated and overlong input included |
| Coding.VarintReads | util/coding.cc:76-152 | truncated and overlong numbers are refused, exactly those without a last byte among the first five, or ten |
| Coding.PrefixedTruncated | util/coding.cc:160-180 | no slice is read from less than all of its bytes |
| Crc.MaskRoundTrip | util/crc32c.cc:56-63 | unmasking undoes masking, on 32-bit words |
| Crc.UnmaskRoundTrip | util/crc32c.cc:56-63 | and the other way round |
| Crc.ExtendLoop | util/crc32c.cc:40-50 | the byte loop computes the fold |
| Crc.OneByteShows | util/crc32c.cc:40-50 | changing a single byte always changes the checksum, for any table whose entries differ in their top bytes |
| Crc.LeadingZeroCounts | util/crc32c.cc:40-50 | a leading zero byte changes the checksum, the register being inverted first |
| Crc.ExtendComposes | util/crc32c.cc:40-54 | the checksum of a header extended by the payload is that of both |
| LogRecovery.LogRoundTrip | db/log_reader.cc:23-148 | an intact log reads back as it was written |
| LogRecovery.TornTail | db/log_reader.cc:23-148 | a log cut at any byte reads back as exactly the records whose last byte is still there, none made up |
| LogRecovery.TornTailStatus | db/log_reader.cc:78-121 | and without an error exactly if the cut falls right behind a record or its padding, or inside the payload of a first fragment |
| LogRecovery.CutInHeader | db/log_reader.cc:78-108 | a cut that is not clean: one record cut inside its header reads as nothing, with an error |
| LogRecovery.OnlyWhatIsThere | db/log_reader.cc:78-148 | of any file, a fragment is returned only if it is there byte for byte, with its length and checksum |
| LogRecovery.StrayFragmentFails | db/log_reader.cc:23-76 | a record that does not begin with its first fragment is an error |
| LogRecovery.ZerosEnd | db/log_reader.cc:100-133 | zeros where a header should be end the log without an error |
| LogRecovery.RecordReads | db/log_reader.cc:23-76 | a record read from its first byte, or from a later fragment, in a file cut anywhere |
| LogRecovery.SurvivorsEndInside | db/log_writer.cc:22-68 | which records survive a cut |
| Logs.Writer.AddRecord | db/log_writer.cc:22-68 | appends the fragments of the record, block borders and padding respected |
| Logs.Writer.EmitPhysicalRecord | db/log_writer.cc:70-92 | appends header and payload |
| Logs.Reader.ReadRecord | db/log_reader.cc:23-76 | block-wise buffering reads what the file holds from the position on |
| Logs.Reader.ReadPhysicalRecord | db/log_reader.cc:78-148 | the next fragment, the end, or a bad record |
| Logs.Reader.ReadRecords | db/db_impl.cc:368-427 | all records up to the first that cannot be read, and whether the end was clean |
| WalReplay.RecoverLogFile | db/db_impl.cc:368-427 | whatever the file holds: records are replayed up to the first that is refused (short, miscounted, malformed, or with sequence numbers out of range); flushed tables and memtable hold their versions in order, the memtable being flushed behind exactly the batches that fill it; success if and only if all are accepted and reading ends without an error |
| WalReplay.StretchesAre | db/db_impl.cc:368-427 | the stretches of versions so flushed are all of them in order, each fills a memtable, and what is left behind a batch does not |
| WalReplay.CutLogReplays | db/db_impl.cc:368-427 | of a log of batches cut at any byte exactly the batches that survive are replayed, all accepted, and reading ends without an error if and only if the cut is clean |
| WriteBatches.ReplayRoundTrip | db/write_batch.cc:45-115 | iterating over the records replays exactly the operations |
| WriteBatches.ReplayStops | db/write_batch.cc:69-115 | bytes behind the operations that are no record end the replay in an error, after those operations |
| WriteBatches.ParsedType | db/write_batch.cc:79-108 | records of unknown type are malformed, and each other one stands for an operation of its type |
| WriteBatches.WriteBatch.PutOp | db/write_batch.cc:45-50 | one operation more |
| WriteBatches.WriteBatch.DeleteOp | db/write_batch.cc:52-56 | one operation more |
| WriteBatches.WriteBatch.Clear | db/write_batch.cc:58-63 | no operations, sequence zero |
| WriteBatches.WriteBatch.SetSequence | db/write_batch.cc:122-126 | changes the sequence number and no operation |
| WriteBatches.WriteBatch.SetContents | db/write_batch.cc:149-151 | bytes that encode some operations are the batch of those |
| WriteBatches.MemTableInserter.Handle | db/write_batch.cc:153-162 | one version more, and the next sequence number |
| WriteBatches.WriteBatch.Append | db/write_batch.cc:164-169 | the operations of both batches, also when a batch is appended to itself |
| WriteBatches.WriteBatch.Iterate | db/write_batch.cc:69-115 | hands out the operations, and reports malformed bytes or a wrong count |
| WriteBatches.InsertInto | db/write_batch.cc:153-162 | the operations get consecutive sequence numbers |
| EditCodec.EditRoundTrip | db/version_edit.cc:112-242 | an edit decodes to itself, in whatever order its deleted files are written |
| EditCodec.FieldRoundTrip | db/version_edit.cc:153-242 | each record decodes to itself whatever follows |
| EditCodec.DecodedIsProper | db/version_edit.cc:153-242 | whatever is decoded is a proper record under its own tag: unknown tags, levels and keys are refused |
| EditCodec.MalformedFails | db/version_edit.cc:153-242 | bytes that are no record make the whole edit malformed, whatever proper records stand before them |
| EditCodec.VersionEdit.EncodeTo | db/version_edit.cc:112-151 | appends the records of the edit |
| EditCodec.VersionEdit.DecodeFrom | db/version_edit.cc:153-242 | replaces the edit by what the bytes say, or reports a malformed record |
| SkipLists.SkipList.FindGreaterOrEqual | db/skiplist.cc:93-117 | the lower bound, and on every level the true predecessor |
| SkipLists.SkipList.FindLessThan | db/skiplist.cc:119-141 | the last node before the key, or the head |
| SkipLists.SkipList.FindLast | db/skiplist.cc:143-163 | the last node, or the head |
| SkipLists.SkipList.Insert | db/skiplist.cc:177-203 | adds exactly one entry, on as many levels as its height; every level stays a sorted part of the one below |
| SkipLists.SkipList.Link | db/skiplist.cc:198-202 | after each level linked, all searches are right |
| SkipLists.SkipList.Contains | db/skiplist.cc:205-210 | exactly the stored keys |
| SkipLists.SkipListIterator.Seek | db/skiplist.cc:53-56 | the lower bound |
| SkipLists.SkipListIterator.Prev | db/skiplist.cc:42-51 | the previous entry |
| SkipReaders.SearchIsAtomic | db/skiplist.cc:93-117 | a search whose loads interleave with the pointer stores of insertions answers as a search at one moment during it would |
| SkipReaders.RunKeepsOk | db/skiplist.cc:177-203 | every intermediate state keeps readers on the list, and no entry disappears |
| HandleTables.HandleTable.Lookup | util/cache.cc:42-44 | the entry the map has for the key |
| HandleTables.HandleTable.Insert | util/cache.cc:46-58 | updates the map, and returns the entry replaced; the table is rehashed exactly when there are more entries than buckets |
| HandleTables.HandleTable.Remove | util/cache.cc:60-69 | removes the key from the map |
| HandleTables.HandleTable.Resize | util/cache.cc:71-94 | rehashing changes nothing, and leaves a bucket for each entry, with no power of two to spare |
| Caches.LRUCache.Insert | util/cache.cc:125-170 | in place of its key's entry the new one, held and mapped; then exactly the shortest run of oldest evictable entries that makes the usage fit goes, from table and list, and nothing else changes; refused without capacity or charge |
| Caches.LRUCache.Evict | util/cache.cc:125-170 | evicting while the usage is over the capacity and an entry is evictable: the oldest first, out of table, list and usage |
| Caches.LRUCache.Lookup | util/cache.cc:172-182 | a hit hands out the mapped entry and moves it to the held ones with one reference more, changing no other count; a miss changes nothing |
| Caches.LRUCache.Release | util/cache.cc:184-187 | one reference less; the last client to let go of a mapped entry makes it the youngest evictable one |
| Caches.LRUCache.Erase | util/cache.cc:194-209 | unmaps the key; its entry is freed if only the cache refers to it, else keeps its list and its reference count |
| Caches.LRUCache.History | util/cache.cc:125-209 | the object after any calls: lists and counts are the clean picture exactly if no call replaced or erased a held key, the LRU list is in the order of last releases, and each entry has one reference more than clients hold handles |
| CacheStates.CleanIffNoneTaken | util/cache.cc:125-209 | over histories of Insert, Lookup, Release and Erase: every entry mapped, one reference exactly on the LRU list and more exactly on the other, if and only if no call replaced or erased a key whose entry a client held just before |
| CacheStates.ReferencesCount | util/cache.cc:125-230 | over every history: a listed entry has one reference more than handles are out to it, counting insertions and hits less releases; an evictable or freed one has none out |
| CacheStates.ErasedWhileHeld | util/cache.cc:125-209 | a failing input: after insert, erase and release of any entry it is still listed and charged, with one reference, unmapped |
| Caches.EraseWhileHeld | util/cache.cc:125-209 | the same calls made on a cache object |
| CacheStates.StuckStays | util/cache.cc:125-209 | such an entry stays listed and unmapped whatever is called |
| CacheStates.RunIsWellFormed | util/cache.cc:125-209 | after any history both lists are without repeats and disjoint, evictable entries have one reference and are mapped, and the table maps listed entries under their own keys |
| CacheStates.EvictTakes | util/cache.cc:154-165 | the entries that go are a prefix of the LRU list, none of it needless, with their keys, counts and charges |
| CacheStates.InsertTakes | util/cache.cc:125-170 | what an insertion leaves in table, lists, counts and usage |
| CacheStates.LruIsInReleaseOrder | util/cache.cc:184-187 | after any history the LRU list is in the order in which its entries were last released |
| LiveVersions.VersionList.PinnedFilesStay | db/version_set.cc:293-319 | a version in use keeps all its files, whatever was installed since |
| LiveVersions.VersionList.Install | db/version_set.cc:574-661 | a new current version of kept and of fresh files; reference counts add up, and the version before goes unless pinned |
| LiveVersions.VersionList.Pin | db/version_set.cc:303-305 | one reference more |
| LiveVersions.VersionList.Unpin | db/version_set.cc:307-319 | the last reference takes the version off the list and releases its files; no file appears |
| LiveVersions.VersionList.AddLiveFiles | db/version_set.cc:1005-1014 | exactly the files of listed versions |
| LiveVersions.VersionList.RemoveObsoleteTables | db/db_impl.cc:429-506 | never removes a table of a listed version or a pending output, and removes all others |
| LiveVersions.VersionList.AppendVersion | db/version_set.cc:1163-1176 | the new version is current and on the list |
| Bloom.CreateFilter | util/bloom.cc:38-61 | appends a filter of at least 64 bits, so many a key, and k; exactly the bits are set that some probe of some key falls on, so a key may match if and only if each of its probes is a probe of some key |
| Bloom.MatchesIff | util/bloom.cc:64-94 | reading such a filter matches a key exactly if each of its probes is one of a key it was made from |
| Bloom.MatchesItsKeys | util/bloom.cc:38-94 | so it matches every key it was made from, and made from none it matches none |
| Bloom.ProbesStep | util/bloom.cc:52-60 | the probes of a hash are as far apart as its turned self, in 32-bit arithmetic |
| Bloom.DeltaRotates | util/bloom.cc:53 | the turned self of a hash is its rotation by 17 bits |
| FilterBlocks.FilterBlockBuilder.Finish | db/filter_block.cc:35-48 | at an offset its filters serve the finished block lets through exactly the keys each of whose probes is one of a key added for it, so every added key; beyond them all keys |
| FilterBlocks.FilterBlockBuilder.StartBlock | db/filter_block.cc:22-28 | closes filters, empty ones included, up to the block's offset |
| FilterBlocks.FilterBlockBuilder.GenerateFilter | db/filter_block.cc:50-71 | closes one filter over the keys collected, or an empty one |
| FilterBlocks.FilterBlockBuilder.AddKey | db/filter_block.cc:30-33 | one key more for the filter of the open block |
| Versions.StepKeepsSound | db/version_set.cc:708-834 | each such step keeps levels sorted, file numbers fresh, and the MANIFEST equal to memory |
| DbImpl.DBImpl.SwitchMemTable | db/db_impl.cc:531-543 | the active memtable becomes the frozen one and a new one is empty; nothing else changes |
| DbImpl.DBImpl.LiveEntries | db/db_impl.cc:276-366 | the versions in the logs from the log number on |
| DbImpl.DBImpl.FlushReplayed | db/db_impl.cc:368-427 | each replayed memtable becomes a level-0 table |
| DbImpl.DBImpl.Search | db/db_impl.cc:198-219 | memtable, frozen memtable, then the current version |
| MemTables.RunGetAtBound | db/memtable.cc:146-188 | the entry at the lower bound of the lookup key decides |
| SkipLists.SkipListIterator.Next | db/skiplist.cc:35-40 | the next entry |
| SkipLists.SkipListIterator.SeekToFirst | db/skiplist.cc:58-61 | the first entry |
| SkipLists.SkipListIterator.SeekToLast | db/skiplist.cc:63-70 | the last entry |
| Tables.TableBuilder.AddIndexEntry | db/table_builder.cc:69-97 | the index entry of the last block gets its key when the next block begins |
| Tables.BlocksInOrder | db/table_builder.cc:69-182 | index keys fence the blocks, which together are the added entries in order |
| BlockReader.NewIterator | db/block.cc:248-257 | an iterator over exactly the pairs of the block |
| BlockReader.BlockIter.ScanTo | db/block.cc:68-117 | the linear scan from a restart point before the target ends at the lower bound |

## Left out

- Threads: background scheduling, mutexes and memory ordering. Steps are atomic; a compaction is split into pick and
  install with anything but another compaction in between. Skip-list readers interleave with single pointer stores
  (`SkipReaders`), on values.
- Failing I/O, a torn MANIFEST, what happens after a store with a torn log was opened, and a crash inside Open, in
  particular while the first edit after a reopen rewrites the MANIFEST.
- The MANIFEST of `VersionSets` is a sequence of edits; `EditCodec` and `Logs` prove its bytes separately. The logs of
  `Engine` hold versions; `TornOpen` joins them to bytes.
- User keys of the engine are real numbers, standing for byte strings in bytewise order (`Keys.RankPreservesOrder`).
- Checksum tables and strength beyond `Crc.OneByteShows` (in logs and tables the checksum is a function of its bytes),
  hash values, random heights, file names, the Bloom filter's number of probes from bits per key, compaction scores,
  seek statistics, and the choice of the level to compact.
- `std::sort` is a stable insertion sort here; the source's order on equal keys is unspecified.
- VersionSets.VersionSet.WriteSnapshot: without the comparator name the source writes; there is one comparator, bytewise
  order.
- VersionSets.VersionSet.LogAndApplyEdit: the same.
- VersionSets.VersionSet.ApplyVersionEdit: does not compare that name.
- VersionSets.VersionSet.Recover: does not compare that name.
- A merging iterator over one child wraps it, where the source returns the child itself.
- Compaction outputs take their file numbers when they are installed, not when they are opened.
- Corrupt blocks and keys, beyond checksums being compared and malformed numbers, records, batches, edits and footers
  being refused as the source does.
- Block and table caches, and tables with a filter block: filters are built on whole internal keys, so
  `Tables.InternalGet` is stated without one.
- `MergingIterator` and `TwoLevelIterator` have `Cursor` objects as children. The iterators that stand there in the
  source (`SkipListIterator`, `BlockIter`, and `TwoLevelIterator` for a table) are proved to move as a `Cursor` does.
- The cache's destructor, which asserts that no entry is listed as held (an entry erased while held violates that), and
  its counter of ids.
- Hash chains, the two LRU lists and the list of versions are sequences of entries, not links; the skip list has its
  links.
- The memtables of `DBImpl` are sorted sequences; `MemTables.MemTable` is proved to hold such a sequence.
- LiveVersions.VersionList.Install: the order of the new version's files, which `Versions.SaveLevelProperties` covers.
- LiveVersions.VersionList.RemoveObsoleteTables: tables only, not logs, MANIFESTs and temporary files.
- DbImpl.DBImpl.StartCompaction: needs the last sequence to be below the largest sequence number, see above.
- DbImpl.DBImpl.PickFor: needs the last sequence below the largest sequence number, as StartCompaction does.
- DbImpl.DBImpl.Reopen: where the replayed memtable is flushed on the way is a parameter; `TornOpen.OpenTorn` takes it
  from the size test.
- Tables.TableBuilder.Add: blocks must stay below four gigabytes, the width of the offsets in a block.
- Tables.TableBuilder.Finish: for a table below half the range of 64-bit offsets, without filter block.
- FilterBlocks.FilterBlockBuilder.Finish: for filter blocks below four gigabytes.
- WriteBatches.WriteBatch.PutOp: keys and values below four gigabytes, as the source asserts (util/coding.cc:154), and
  fewer operations than a signed count holds.
- WriteBatches.WriteBatch.DeleteOp: the same for keys and count.
- Arena layout, slices that alias memory, status texts, cleanup callbacks, and memtables freed under live iterators.
