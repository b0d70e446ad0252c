# A verified model of qdocdb's storage

qdocdb keeps its documents in a vendored LevelDB 1.18. This project models that engine, and qdocdb's own document
snapshots, in Dafny, and proves that the parts do what their documentation and tests promise. It verifies with `dafny
verify dfyconfig.toml` (Dafny 4.11).

Everything turns on one question: what does a read of a user key at a sequence number return? `Visibility` answers it
for any collection of entries (the newest entry at or below the sequence number decides), and the searches, cursors,
files and background work are each proved to agree with that answer. Where the original changes state in place, the
model is a class with the same fields, and each method's contract ties the new state to the old; loops are loops, with
the original's branches.

## The parts

- **Multi-version reads.** `Keys` and `Visibility` define entries and reads. `DropRule`, `Boundary` and `Compaction`
  cover what a compaction drops and when reads notice, `OutputCuts` where it ends its files, `PointReads` what
  undecodable keys make of that; `Version` the search of the levels; `DbIter`, `Merger`, `TwoLevel` and `Cursors` the
  iterators, each proved to move like a plain index into a sorted sequence. `Database` is the whole engine as a step
  machine (writes, memtable switches, moves, snapshots, and flushes and compactions that begin in one step and are
  installed in another), with an invariant kept by every step, and `Background` the operations that make its steps;
  `InternalIterator` puts an iterator over the whole database together.
- **Levels and the manifest.** `CompactionInputs`, `LevelMoves` and `VersionBuilder` keep levels above 0 sorted and
  disjoint, and `FlushInGaps` says which flushes in the middle of a compaction would not. `VersionEdit` and `Manifest`
  encode, decode and replay version edits, and `VersionSet` hands out file numbers and writes the manifest.
- **Byte formats.** `Coding`, `LogFormat`, `LogWriter`, `LogReader`, `LogRecovery` (truncation), `LogDamage` (detected
  corruption) and `LogFailures` (failed appends); `BlockFormat`, `BlockBuilder` and `BlockIter` (prefix-compressed
  blocks); `Bloom` and `FilterBlock`; `Comparator` and `DbFormat` (byte-level keys and separators); `TableFormat`,
  `TableBuilder` and `Table`; `WriteBatch`. `Formats` fixes the bytes themselves, which round trips leave open.
- **Linked structures and the write protocol.** `SkipList`, `SkipReaders` (searches interleaved with inserts) and
  `MemTable`; `Rings`, `Snapshots`, `HandleTable` and `LruCache`; `GroupCommit` and `WriteQueue` (every interleaving
  of the writer queue), `CrashRecovery` (replaying what is left of a log) and `DurableQueue`, which joins the queue to
  its log file.
- **Document snapshots.** `QDocKVMap` and `QDocCollection`.

## What the code does not do

Seven properties that a reader would expect do not hold of the code as it stands. Each is kept as it is, with an input
that shows it and the condition proved, which is exact in all but some torn log fragments:

- A deletion that compaction drops as obsolete can change reads when an undecodable key comes behind it in the
  compaction's input. An iterator passes over such keys. It finds an older value again exactly when the undecodable
  key stands between the two, because such a key resets the rule that would have dropped the value
  (`DropRule.PreservedExactly`, `PointReads.IterationPreservedExactly`, `DropRule.UndecodableKeyBringsBack`). A point
  read stops at such a key and reports corruption, so there it does not find that value
  (`PointReads.PointReadOfBroughtBack`). In a sorted run it turns from not found into corruption, and changes at all,
  exactly when the entry it found was an obsolete deletion and the first surviving entry behind it does not decode,
  whether or not there is an older value (`PointReads.RunReadExactly`, `PointReads.DeletionHidesUndecodable`).
  `PointReads.CleanPointReadsChange` says so level by level, for any files left behind, and
  `PointReads.CompactionTurnsCorrupt` gives a version where it happens.
- This version takes no boundary files into a compaction, and a read stops at the first level that knows the key. When
  a user key straddles two files of a level and only the newer one goes down, whether compacted or moved as it is,
  reads find the older entry in the other file first; no deletion is needed for that. And when the key is not known at
  the upper input level, a dropped deletion of the lower one uncovers a value in a file left behind there. `Boundary`
  proves exactly which reads change (`CompactionChangesReads`, `MoveChangesReads`) and gives two versions in order
  where some do, without a deletion and with one (`BoundaryFileOvertakes`, `BoundaryFileBringsBack`). `Database` takes
  a compaction as a step when the two input levels keep no older entry of the compacted user keys.
- A memtable flushed in the middle of a compaction is placed by looking at the files there are, not at the outputs to
  come. It may go into a gap between the inputs, at the level the outputs go to, and the level is then no longer
  disjoint (`FlushInGaps.FlushIntoTheGap`). It stays apart from every output exactly when it lies before or behind all
  surviving entries (`FlushInGaps.ApartFromEveryCut`); `Database` asks that it lie outside the inputs.
- The log writer moves its offset on when an append fails, and the database goes on with the same log. What is
  appended later, and synced, may not be read again (`LogFailures.LostAfterFailedAppend`). When the file ends with a
  whole record, all of it reads back exactly when the writer's offset is where the file ends
  (`LogFailures.LaterRecordsReadBack`); at that offset whole fragments of an unfinished record do no harm
  (`LogFailures.UnfinishedIsHarmless`). Behind a fragment cut short the next record may be lost even there
  (`LogFailures.TornPayloadLosesNext`, `LogFailures.TornHeaderLosesNext`, `LogFailures.TornAtTrueOffset`). What was
  acknowledged before any failure is safe (`DurableQueue.SyncedWritesSurvive`).
- Without paranoid checks, the last sequence number recovered from a log may lie below a recovered entry: a record's
  updates are inserted though its header counts fewer (`CrashRecovery.ShortCountEscapes`). For one record it lies at
  or above all entries exactly when the header counts no fewer (`CrashRecovery.ClaimCovers`); for a log it does when
  that goes for every record, and with paranoid checks always (`CrashRecovery.RecoverLogFile`).
- `VersionEdit::Clear` keeps the compaction pointers, so decoding gives back the encoded edit exactly when the
  receiver had none (`VersionEdits.EditRoundTrip`, `VersionEdits.ClearedEditKeepsPointer`).
- A log does not read back in full once damaged, and an intact record may be lost with a damaged one
  (`LogDamage.ZeroedHeaderLosesNext`); what it reads back is characterised exactly (`LogDamage.DamagedLog`).

## Model

| member | source | states |
|---|---|---|
| Visibility.NewestExists | qdocdb/leveldb/leveldb/db/version_set.cc:259-272 | whatever the data, if some entry for a user key is at or below a sequence number, one of them is newest |
| Visibility.SameReadableSameLookup | qdocdb/leveldb/leveldb/db/version_set.cc:323-420 | two collections that hold the same entries for a key at or below a sequence number answer that read alike |
| DropRule.PreservedExactly | qdocdb/leveldb/leveldb/db/db_impl.cc:896-940 | for reads that pass over undecodable keys, as an iterator does: dropping entries leaves every read of a user key at or above the smallest snapshot as it was exactly when no undecodable key stands between an obsolete deletion and an older value of it (that value is kept and comes back) |
| PointReads.IterationPreservedExactly | qdocdb/leveldb/leveldb/db/db_iter.cc:177-207 | what an iterator lists for a user key, from the smallest snapshot on, stays the same under that very condition |
| DropRule.UndecodableKeyBringsBack | qdocdb/leveldb/leveldb/db/db_impl.cc:896-904 | an input of a deletion, an undecodable key and an older value, all of one user key, after which an iterator, which passes over the undecodable key, finds the value that it did not find before |
| PointReads.RunReadExactly | qdocdb/leveldb/leveldb/db/db_impl.cc:896-940 | a point read of one sorted run, which stops at an undecodable key, changes at or above the smallest snapshot exactly when the entry it found is an obsolete deletion and the first entry behind it that is not dropped does not decode, and then from not found to corruption |
| PointReads.DeletionHidesUndecodable | qdocdb/leveldb/leveldb/db/version_set.cc:259-272 | an input of a deletion and an undecodable key of one user key, with no older value: lists stay the same, and the point read goes from not found to corruption |
| PointReads.DeletionHidesUndecodableNeighbour | qdocdb/leveldb/leveldb/db/version_set.cc:259-272 | the undecodable key may as well be one of the next user key |
| PointReads.PointReadOfBroughtBack | qdocdb/leveldb/leveldb/db/version_set.cc:259-272 | where the iterator finds the deleted value again, a point read goes from not found to corruption |
| DropRule.CompactionPreservesReads | qdocdb/leveldb/leveldb/db/db_impl.cc:896-940 | with decodable keys, newer data above and, below, no data for the input's base keys, compaction changes no read at or above the smallest snapshot |
| DropRule.KeptIsSorted | qdocdb/leveldb/leveldb/db/db_impl.cc:941-962 | what survives stays in internal-key order |
| DropRule.SurvivorsExactly | qdocdb/leveldb/leveldb/db/db_impl.cc:896-940 | of decodable input, exactly those entries survive that some read at or above the smallest snapshot finds, except deletions at or below it whose user key no deeper file covers |
| DropRule.NothingOverwrittenSurvives | qdocdb/leveldb/leveldb/db/db_impl.cc:919-924 | of decodable input no two survivors of one user key lie at or below the smallest snapshot: whatever is overwritten is gone |
| DropRule.OverwrittenSurvivesBehindUndecodable | qdocdb/leveldb/leveldb/db/db_impl.cc:896-924 | of any input an entry that is overwritten at or below the smallest snapshot survives only right behind an undecodable key of its user key |
| Boundary.CompactionChangesReads | qdocdb/leveldb/leveldb/db/version_set.cc:1297-1347 | for every version in order, every legal choice of inputs and every read at or above the smallest snapshot, level by level as the code reads: it changes if and only if no higher level knows the key and either a file left behind at the input level holds the next older entry, with another outcome, or that level does not know the key and a file left behind at the next level holds a value that a dropped deletion hid |
| Boundary.MoveChangesReads | qdocdb/leveldb/leveldb/db/db_impl.cc:686-705 | moving one file down as it is changes a read if and only if no higher level knows the key and the newest entry moves past an older one, of another outcome, in a file left behind |
| Boundary.NothingOlderNothingExposed | qdocdb/leveldb/leveldb/db/version_set.cc:1297-1347 | when no file left behind at the two levels holds an older entry of a compacted user key, no read changes |
| Boundary.KeptSettles | qdocdb/leveldb/leveldb/db/db_impl.cc:906-940 | of what a read at or above the smallest snapshot can see, the drop rule keeps the newest entry of a user key, unless that is an obsolete deletion, and then it keeps nothing |
| Boundary.BoundaryFileBringsBack | qdocdb/leveldb/leveldb/db/version_set.cc:1297-1347 | a version in order, with a legal choice of inputs, in which compacting one of two files that share a user key brings a deleted value back |
| Boundary.BoundaryFileOvertakes | qdocdb/leveldb/leveldb/db/version_set.cc:1297-1347 | a version in order where nothing is deleted or dropped, and yet moving or compacting one of two files that share a user key makes reads return the older value |
| PointReads.CleanPointReadsChange | qdocdb/leveldb/leveldb/db/version_set.cc:345-417 | with undecodable keys anywhere, for every version in order, every legal choice of inputs and every point read at or above the smallest snapshot that met none of them before: it reports corruption afterwards exactly when no higher level knows the key and an undecodable key that a table hands over comes first either in what is left behind at the input level, or, where that does not know the key, among what is left behind and what survives at the next; and it changes exactly when that is so or the read is exposed as for decodable keys |
| PointReads.CompactionChangesPointReads | qdocdb/leveldb/leveldb/db/version_set.cc:345-417 | whatever the read met before: it changes exactly when just one of the searches, before and after, is struck by an undecodable key, or neither is and the read is exposed |
| PointReads.StruckIsCorruption | qdocdb/leveldb/leveldb/db/version_set.cc:397-410 | a point read reports corruption exactly when some level strikes and all levels above it find nothing |
| PointReads.ZeroLevelStrikes | qdocdb/leveldb/leveldb/db/version_set.cc:348-366 | level 0 strikes exactly when a table in reach of the key hands over an undecodable key and all newer tables in reach find nothing |
| PointReads.SortedLevelStrikes | qdocdb/leveldb/leveldb/db/version_set.cc:366-384 | a deeper level strikes exactly when its first entry at or after the lookup key does not decode and is handed over, which an entry of the sought user key always is |
| PointReads.OutputLevelStrikes | qdocdb/leveldb/leveldb/db/db_impl.cc:834-853 | the level a compaction wrote to strikes exactly when, of what was left behind there and what survived, the first entry at or after the lookup key does not decode and is handed over |
| PointReads.CompactionTurnsCorrupt | qdocdb/leveldb/leveldb/db/version_set.cc:406-409 | a version in order in which compacting one file turns a point read from not found into corruption, whatever the tables |
| Compactions.DecideDrop | qdocdb/leveldb/leveldb/db/db_impl.cc:896-932 | the per-key bookkeeping (current user key, last sequence for it) drops an entry exactly when it is shadowed at the smallest snapshot or an obsolete deletion at its base level |
| Compactions.DoCompactionWork | qdocdb/leveldb/leveldb/db/db_impl.cc:855-988 | the output files hold in order exactly the entries that survive the drop rule: of decodable input, no overwritten value and no deletion that nothing deeper needs, and all that reads at or above the smallest snapshot may find; they are sorted and disjoint, carry the file numbers handed out to them in turn, and are cut where they should be; the compaction succeeds when nothing goes wrong, and only without input errors, shutdown and failed files |
| Compactions.OnlyWhatItMust | qdocdb/leveldb/leveldb/db/db_impl.cc:896-940 | files with the survivors hold exactly what must be kept, told by reads and by the ranges of deeper files alone |
| Compactions.CompactionState.Add | qdocdb/leveldb/leveldb/db/db_impl.cc:941-962 | an entry that is not dropped goes to the open output, or opens one under the next number, and the output is finished once its table is big enough; fails exactly when one of these steps does |
| Compactions.CompactionState.FinishCompactionOutputFile | qdocdb/leveldb/leveldb/db/db_impl.cc:782-831 | the open output joins the finished ones, unless writing it fails |
| Compactions.Compaction.IsBaseLevelForKey | qdocdb/leveldb/leveldb/db/version_set.cc:1434-1453 | asked for nondecreasing user keys, the forward-only pointers answer as a full scan of all deeper levels would |
| Compactions.Compaction.ShouldStopBefore | qdocdb/leveldb/leveldb/db/version_set.cc:1455-1475 | an output stops exactly when the grandparent files passed since the last stop add up to more than the limit |
| Compactions.SortedPieces | qdocdb/leveldb/leveldb/db/db_impl.cc:782-831 | files cut from a sorted stream are each sorted and mutually disjoint |
| OutputCuts.Closes | qdocdb/leveldb/leveldb/db/version_set.cc:1455-1475 | in every output finished, the grandparents that end within it hold no more bytes than the limit, and no smaller table of its first entries was big enough |
| OutputCuts.PassesTo | qdocdb/leveldb/leveldb/db/version_set.cc:1455-1475 | before each key exactly the grandparents that end before it are passed, and an output ends when those passed since the last such cut hold too much |
| OutputCuts.Grows | qdocdb/leveldb/leveldb/db/db_impl.cc:941-970 | an output that gets one more entry stays within the limits, and ends, for its size, when its table is big enough |
| CompactionInputs.GetOverlappingInputs | qdocdb/leveldb/leveldb/db/version_set.cc:522-563 | terminates; the files that meet the range and, at level 0, the files that meet the least overlap-closed range around it |
| CompactionInputs.GetRange | qdocdb/leveldb/leveldb/db/version_set.cc:1176-1196 | the least internal-key range around all the files |
| CompactionInputs.SetupOtherInputs | qdocdb/leveldb/leveldb/db/version_set.cc:1297-1347 | the next level's inputs are all its files that meet the hull of the choice; the choice grows, as far as the two levels' files reach, exactly when that takes in more files, not too many bytes, and no more files of the next level; the grandparents are all files two levels down that meet the hull of all inputs |
| CompactionInputs.GrowsOrStays | qdocdb/leveldb/leveldb/db/version_set.cc:1312-1347 | the guards decide between the starting choice and the one grown, which the inputs determine |
| CompactionInputs.AroundIsUnique | qdocdb/leveldb/leveldb/db/version_set.cc:522-563 | the files that a range takes in are determined by it |
| CompactionInputs.NoMoreIsSame | qdocdb/leveldb/leveldb/db/version_set.cc:1325-1330 | a wider range that meets as many files of a level meets the same |
| CompactionInputs.PickInputs | qdocdb/leveldb/leveldb/db/version_set.cc:1282-1290 | the picked file alone, or at level 0 the files that meet the least overlap-closed range around it: a starting choice in which no file that meets its hull is left out |
| CompactionInputs.CompactRangeInputs | qdocdb/leveldb/leveldb/db/version_set.cc:1364-1390 | a manual compaction takes the files of the range; above level 0, only up to the one with which they reach the size of an output; the choice is a valid start |
| CompactionInputs.LeftOutsideTheHull | qdocdb/leveldb/leveldb/db/version_set.cc:1297-1347 | every next-level file that is left out lies outside the hull of all the inputs, in internal-key order |
| CompactionInputs.SomeFileOverlapsRange | qdocdb/leveldb/leveldb/db/version_set.cc:112-147 | true exactly when some file meets the user-key range, by binary search on disjoint files and by scan at level 0 |
| CompactionInputs.PickLevelForMemTableOutput | qdocdb/leveldb/leveldb/db/version_set.cc:493-519 | a flushed file goes to level 0 when it meets a file there, and otherwise to the deepest of the levels up to 2 that it may pass down to: each meets none of its range, and the level below each meets it in no more bytes than the limit |
| LevelMoves.NextLevelApart | qdocdb/leveldb/leveldb/db/version_set.cc:702-748 | after a compaction, any two files of the next level lie apart, whatever the outputs' cuts |
| LevelMoves.MovedDownInOrder | qdocdb/leveldb/leveldb/db/db_impl.cc:834-853 | moving files down keeps levels sorted, disjoint above 0, newer above older, with unique numbers |
| LevelMoves.AddedFileInOrder | qdocdb/leveldb/leveldb/db/db_impl.cc:486-494 | adding a flushed file keeps the levels in order |
| LevelMoves.ChoiceStandsApart | qdocdb/leveldb/leveldb/db/version_set.cc:1297-1347 | what is left behind at the next level lies outside all inputs and shares no user key with those of the upper level |
| LevelMoves.AddedFileKeepsReady | qdocdb/leveldb/leveldb/db/db_impl.cc:885-895 | a file flushed in the middle of a compaction leaves its inputs fit to be installed, if at the level the compaction writes to it lies outside all of them |
| LevelMoves.AddedFileHoldsBase | qdocdb/leveldb/leveldb/db/db_impl.cc:885-895 | a file flushed in the middle of a compaction never lies below it with one of its user keys, so what counted as a base level still does |
| LevelMoves.InputsAreSurrounded | qdocdb/leveldb/leveldb/db/db_impl.cc:921-931 | inputs chosen from one version meet what the drop rule needs of the data around them in the version they are installed in |
| VersionBuilder.SaveLevel | qdocdb/leveldb/leveldb/db/version_set.cc:702-748 | the merge of base and added files is sorted by smallest key and holds exactly the files not deleted, whether or not they overlap; the checks made on the way hold, above level 0, exactly when each file begins behind the one before |
| VersionBuilder.MaybeAddFile | qdocdb/leveldb/leveldb/db/version_set.cc:750-763 | a deleted file is skipped and any other goes to the end; the check holds exactly at level 0, for the first file, and where the file begins behind the last one |
| VersionBuilder.Builder.Apply | qdocdb/leveldb/leveldb/db/version_set.cc:656-699 | one edit changes each level's files as set difference and union say, with added files no longer deleted |
| VersionBuilder.Builder.SaveTo | qdocdb/leveldb/leveldb/db/version_set.cc:702-748 | every level's list holds exactly the gathered files, sorted; all checks hold exactly when, above level 0, each file begins behind the one before |
| VersionBuilder.BehindIsDisjoint | qdocdb/leveldb/leveldb/db/version_set.cc:755-759 | comparing each file with the one before is enough: all files of the level are disjoint |
| VersionBuilder.SortedListIsItsSet | qdocdb/leveldb/leveldb/db/version_set.cc:594-625 | a level's file list is determined by its set of files |
| Versions.FindFile | qdocdb/leveldb/leveldb/db/version_set.cc:77-96 | binary search finds the first file that ends at or after the key |
| Versions.FirstFromIsNewest | qdocdb/leveldb/leveldb/db/version_set.cc:259-272 | the first entry at or after the lookup key is the newest one for that user key at that sequence, if it is of that user key and decodes; if it is of another, there is none |
| Versions.SearchLevelZero | qdocdb/leveldb/leveldb/db/version_set.cc:348-366 | trying overlapping level-0 files newest first settles the read of all of level 0 |
| Versions.SearchSortedLevel | qdocdb/leveldb/leveldb/db/version_set.cc:366-384 | the one file that may start with the key settles the read of the level, even when the key straddles two files |
| Versions.Get | qdocdb/leveldb/leveldb/db/version_set.cc:323-420 | the first level that knows the key answers, unless an undecodable key is handed over first, which is reported as corruption; with decodable keys, and while smaller levels hold newer data, this is the newest entry at or below the snapshot across all files, or not found for a deletion |
| Versions.PointReadAnswers | qdocdb/leveldb/leveldb/db/version_set.cc:345-417 | a point read that reports no corruption finds what the first level that knows the key says, and with decodable keys none does |
| Versions.LevelReadIsLookup | qdocdb/leveldb/leveldb/db/version_set.cc:345-417 | while smaller levels hold newer data, a read that goes level by level finds what a read of all files at once finds |
| Database.StepKeepsInvariant | qdocdb/leveldb/leveldb/db/db_impl.cc:655-738 | each write, memtable switch, snapshot taken or released, trivial move, and each beginning, installation or abandoning of a flush or a compaction, in any interleaving, keeps the levels in order, what is under way fit to be installed, and every live read equal to what the history of writes says |
| Database.RunKeepsInvariant | qdocdb/leveldb/leveldb/db/db_impl.cc:655-738 | so does every run of such steps from an empty database |
| Database.ReadsFollowHistory | qdocdb/leveldb/leveldb/db/db_impl.cc:1077-1122 | at every point of every run, a read at a live snapshot or at the last sequence finds what the history of all writes holds |
| Database.SnapshotIsFrozen | qdocdb/leveldb/leveldb/db/db_impl.cc:1143-1151 | between any two points of a run where a snapshot is live, its reads answer the same |
| Database.HistoryOnlyGrows | qdocdb/leveldb/leveldb/db/db_impl.cc:1162-1233 | later entries all carry sequence numbers above every earlier one |
| Database.InstallReclaims | qdocdb/leveldb/leveldb/db/db_impl.cc:834-853 | whenever a compaction is installed in a run, its outputs hold of its inputs exactly what reads at or above its smallest snapshot may still find |
| Background.Get | qdocdb/leveldb/leveldb/db/db_impl.cc:1077-1122 | memtable, immutable memtable, then files: the read returns what the history of writes holds at the snapshot |
| InternalIterators.IterationFollowsHistory | qdocdb/leveldb/leveldb/db/db_impl.cc:1035-1064 | the pairs that an iterator over the merged memtables, level-0 files and concatenated deeper levels lists at a live snapshot are exactly those the history of writes holds there |
| InternalIterators.MergedRuns | qdocdb/leveldb/leveldb/db/version_set.cc:225-243 | these runs can be merged, and merged they are one sorted list of every entry of the database |
| InternalIterators.LevelBounds | qdocdb/leveldb/leveldb/db/version_set.cc:154-223 | the largest keys of a sorted level's files bound the files as an index bounds its blocks |
| Background.CompactMemTable | qdocdb/leveldb/leveldb/db/db_impl.cc:503-534 | the immutable memtable becomes a file at the level picked for it, as the machine's flush does; with nothing to write, a failed table or log, or a shutdown, the flush is abandoned and the memtable kept |
| Background.InstallCompactionResults | qdocdb/leveldb/leveldb/db/db_impl.cc:834-853 | the new levels are those of the moment without the inputs and with the outputs at the next level |
| Background.BeginCompaction | qdocdb/leveldb/leveldb/db/version_set.cc:1297-1347 | choosing the inputs fixes them, the smallest snapshot and the version that base levels are looked up in; the choice grows if it can; it is a step of the machine when the input levels keep no older entry of the compacted user keys |
| Background.RunCompaction | qdocdb/leveldb/leveldb/db/db_impl.cc:855-1014 | a compaction begun earlier, run over its input and installed in the database as it is by then, is an installation step of the machine; a failed one is abandoned, and it fails only when something goes wrong |
| Background.MoveDown | qdocdb/leveldb/leveldb/db/db_impl.cc:686-705 | a lone input that meets nothing below moves there unchanged |
| FlushInGaps.ApartFromEveryCut | qdocdb/leveldb/leveldb/db/db_impl.cc:885-895 | a file at the level a compaction writes to stays apart from its outputs, wherever they are cut, if and only if it lies before or behind all entries that survive |
| FlushInGaps.OutsideInputsSuffices | qdocdb/leveldb/leveldb/db/db_impl.cc:885-895 | lying outside all inputs is enough for that |
| FlushInGaps.FlushIntoTheGap | qdocdb/leveldb/leveldb/db/version_set.cc:493-519 | a version in which a memtable flushed in the middle of a compaction is picked for the very level, and into the very range, of the output, so that the level is no longer disjoint |
| DbIters.PairsAreReads | qdocdb/leveldb/leveldb/db/db_iter.cc:38-56 | the iterator's view holds a pair exactly when a read of that key at its sequence finds that value |
| DbIters.PairsSorted | qdocdb/leveldb/leveldb/db/db_iter.cc:38-56 | the view's user keys strictly increase |
| DbIters.DBIter.Key | qdocdb/leveldb/leveldb/db/db_iter.cc:70-73 | the key at the iterator's index in the view, moving either way |
| DbIters.DBIter.Value | qdocdb/leveldb/leveldb/db/db_iter.cc:74-77 | the value at the iterator's index in the view, moving either way |
| DbIters.DBIter.FindNextUserEntry | qdocdb/leveldb/leveldb/db/db_iter.cc:177-207 | stops at the first visible entry beyond the user keys to skip |
| DbIters.DBIter.FindPrevUserEntry | qdocdb/leveldb/leveldb/db/db_iter.cc:236-276 | ends with the last visible entry at or before where it started saved, or not valid |
| DbIters.DBIter.Next | qdocdb/leveldb/leveldb/db/db_iter.cc:150-175 | moves one index forward in the view, after any change of direction |
| DbIters.DBIter.Prev | qdocdb/leveldb/leveldb/db/db_iter.cc:209-234 | moves one index back in the view, after any change of direction |
| DbIters.DBIter.Seek | qdocdb/leveldb/leveldb/db/db_iter.cc:278-290 | lands on the first user key of the view at or after the target |
| DbIters.DBIter.SeekToFirst | qdocdb/leveldb/leveldb/db/db_iter.cc:292-301 | lands on index 0 of the view |
| DbIters.DBIter.SeekToLast | qdocdb/leveldb/leveldb/db/db_iter.cc:303-308 | lands on the last index of the view |
| Cursors.Cursor.Seek | qdocdb/leveldb/leveldb/db/version_set.cc:154-202 | lands on the first entry at or after the key |
| Merger.MergeAllSorted | qdocdb/leveldb/leveldb/table/merger.cc:14-25 | the merge of sorted runs without shared keys is sorted |
| Merger.MergeAllMembers | qdocdb/leveldb/leveldb/table/merger.cc:14-25 | the merge holds exactly the entries of the runs |
| Merger.MergingIterator.FindSmallest | qdocdb/leveldb/leveldb/table/merger.cc:155-168 | with all children at a cut of the merge, the chosen child holds the entry behind the cut |
| Merger.MergingIterator.FindLargest | qdocdb/leveldb/leveldb/table/merger.cc:170-183 | with all children just behind a cut, the chosen child holds the entry before it |
| Merger.MergingIterator.Next | qdocdb/leveldb/leveldb/table/merger.cc:59-83 | moves one place forward in the sorted merge, from either direction |
| Merger.MergingIterator.Prev | qdocdb/leveldb/leveldb/table/merger.cc:85-112 | moves one place back in the sorted merge, from either direction |
| Merger.MergingIterator.Seek | qdocdb/leveldb/leveldb/table/merger.cc:51-57 | lands on the first entry of the merge at or after the key |
| Merger.MergingIterator.SeekToFirst | qdocdb/leveldb/leveldb/table/merger.cc:35-41 | lands on the first entry of the merge |
| Merger.MergingIterator.SeekToLast | qdocdb/leveldb/leveldb/table/merger.cc:43-49 | lands on the last entry of the merge |
| TwoLevel.FlatSorted | qdocdb/leveldb/leveldb/table/two_level_iterator.cc:18-30 | the blocks in index order, one behind the other, are sorted |
| TwoLevel.SeekInFlat | qdocdb/leveldb/leveldb/table/two_level_iterator.cc:91-96 | seeking the index and then its block is seeking the concatenation |
| TwoLevel.TwoLevelIterator.SkipEmptyDataBlocksForward | qdocdb/leveldb/leveldb/table/two_level_iterator.cc:125-136 | passing exhausted blocks does not move the place in the concatenation |
| TwoLevel.TwoLevelIterator.SkipEmptyDataBlocksBackward | qdocdb/leveldb/leveldb/table/two_level_iterator.cc:138-149 | lands on the entry just before, skipping empty blocks, or becomes invalid |
| TwoLevel.TwoLevelIterator.Next | qdocdb/leveldb/leveldb/table/two_level_iterator.cc:112-116 | moves one place forward in the concatenation |
| TwoLevel.TwoLevelIterator.Prev | qdocdb/leveldb/leveldb/table/two_level_iterator.cc:118-122 | moves one place back in the concatenation |
| TwoLevel.TwoLevelIterator.Seek | qdocdb/leveldb/leveldb/table/two_level_iterator.cc:91-96 | lands on the first entry of the concatenation at or after the key |
| TwoLevel.TwoLevelIterator.SeekToFirst | qdocdb/leveldb/leveldb/table/two_level_iterator.cc:98-103 | lands on the first entry of the concatenation |
| TwoLevel.TwoLevelIterator.SeekToLast | qdocdb/leveldb/leveldb/table/two_level_iterator.cc:105-110 | lands on the last entry of the concatenation |
| TwoLevel.TwoLevelIterator.InitDataBlock | qdocdb/leveldb/leveldb/table/two_level_iterator.cc:156-170 | the data iterator is the one of the index entry, kept when the handle has not changed |
| LogWriter.Writer.AddRecord | qdocdb/leveldb/leveldb/db/log_writer.cc:27-73 | until a call on the file fails, the file is the encoding of all records so far, fragments never crossing a block; after a failure an undisturbed call still adds a record's fragments as they fall from where the writer believes to be, and nothing ever takes bytes away |
| LogWriter.Writer.EmitPhysicalRecord | qdocdb/leveldb/leveldb/db/log_writer.cc:75-100 | appends a header and a payload, or a prefix of the two when a call fails; the block offset moves past both either way |
| LogWriter.EmissionExtends | qdocdb/leveldb/leveldb/db/log_writer.cc:27-100 | from the true offset, what is emitted for a record makes the log of the records before into the log with that record |
| LogFailures.LaterRecordsReadBack | qdocdb/leveldb/leveldb/db/log_writer.cc:75-100 | for any checksum function and any records so far, with a file that ends with a whole record: every list of records added later reads back if and only if the writer's offset is where the file ends |
| LogFailures.UnfinishedIsHarmless | qdocdb/leveldb/leveldb/db/log_writer.cc:75-100 | behind any whole fragments, even of a record that was never finished, whatever is added at the true offset reads back |
| LogFailures.TornPayloadLosesNext | qdocdb/leveldb/leveldb/db/log_writer.cc:75-100 | behind a payload cut short, at any offset with room for a header, the file's end or not, an empty record added next does not read back as the next record |
| LogFailures.TornHeaderLosesNext | qdocdb/leveldb/leveldb/db/log_writer.cc:75-100 | behind a header cut short, at any offset with room for twelve bytes behind the next header, some record added next does not read back, whatever the checksum function |
| LogFailures.TornAtTrueOffset | qdocdb/leveldb/leveldb/db/log_writer.cc:75-100 | a torn first record and an offset that came round to the file's end: a record added without a failure is not read |
| LogFailures.LostAfterFailedAppend | qdocdb/leveldb/leveldb/db/log_writer.cc:75-100 | a log on which, after one failed append, a record appended without any failure is all there and is not read |
| LogReader.Reader.ReadPhysicalRecord | qdocdb/leveldb/leveldb/db/log_reader.cc:181-263 | the physical record at the reader's position, the bytes it takes up and the drop it reports, however blocks were buffered |
| LogReader.Reader.ReadRecord | qdocdb/leveldb/leveldb/db/log_reader.cc:59-164 | the record that the fragments from the reader's position on make up, and every drop reported on the way |
| LogReader.ReadLog | qdocdb/leveldb/leveldb/db/log_reader.cc:59-164 | reading to the end yields what the record-by-record specification of the whole file says |
| LogRecovery.TruncatedLog | qdocdb/leveldb/leveldb/db/log_reader.cc:59-263 | any byte prefix of a written log reads back as exactly the records that lie whole in it, in order, with no corruption reported |
| LogRecovery.WholeLog | qdocdb/leveldb/leveldb/db/log_writer.cc:27-100 | a complete log reads back as the records written, for any records |
| LogRecovery.WholeRecords | qdocdb/leveldb/leveldb/db/log_writer.cc:27-73 | every length of a prefix falls between the ends of two consecutive records, so the truncation result covers them all |
| LogRecovery.ParseInvertsHeader | qdocdb/leveldb/leveldb/db/log_reader.cc:200-263 | parsing inverts the header written, with the masked checksum checked |
| LogDamage.DetectedDamage | qdocdb/leveldb/leveldb/db/log_reader.cc:213-249 | a bad length, zero type or wrong checksum makes the reader drop the rest of the block |
| LogDamage.ReportedExactly | qdocdb/leveldb/leveldb/db/log_reader.cc:211-247 | at any position of any file: a bad length in a whole block and a wrong checksum, and nothing else, are reported, with the bytes from the header to the end of the block |
| LogDamage.DamageIsReported | qdocdb/leveldb/leveldb/db/log_reader.cc:211-247 | in a damaged log, such damage of every fragment that the reader gets to is among the reported drops |
| LogDamage.NothingLostUnreported | qdocdb/leveldb/leveldb/db/log_reader.cc:59-164 | whatever the file holds, the bytes of the records returned, those reported and those of the record cut short by the end of the file add up to all payload and reported damage read |
| LogDamage.StepBalances | qdocdb/leveldb/leveldb/db/log_reader.cc:80-160 | no step of reassembly loses a byte unreported |
| LogDamage.DamagedLog | qdocdb/leveldb/leveldb/db/log_reader.cc:59-164 | when the reader detects all the damage that it gets to look at, and wherever the log was cut, reading returns exactly the records of which every fragment can be reached, whole and in order: fragments are never joined across damage |
| LogDamage.ZeroedHeaderLosesNext | qdocdb/leveldb/leveldb/db/log_reader.cc:225-239 | a log of two records with the first header zeroed: the second record is intact and nothing is read |
| Coding.UnmaskInvertsMask | qdocdb/leveldb/leveldb/util/crc32c.h:31-40 | masking and unmasking undo each other, on all 32-bit values |
| Coding.StoredChecksum | qdocdb/leveldb/leveldb/util/crc32c.h:31-40 | a checksum stored masked and little-endian is read back unmasked |
| Coding.Fixed32RoundTrip | qdocdb/leveldb/leveldb/util/coding.cc:9-18 | a 32-bit number is read back from the front of any bytes |
| Coding.Fixed64RoundTrip | qdocdb/leveldb/leveldb/util/coding.cc:20-33 | a 64-bit number is read back from the front of any bytes |
| Coding.VarintRoundTrip | qdocdb/leveldb/leveldb/util/coding.cc:112-158 | a number below 128^k is read back from its varint in at most k bytes, leaving what follows |
| Coding.Varint32RoundTrip | qdocdb/leveldb/leveldb/util/coding.cc:112-141 | every 32-bit number survives its varint |
| Coding.Varint64RoundTrip | qdocdb/leveldb/leveldb/util/coding.cc:143-170 | every 64-bit number survives its varint |
| Coding.PutVarint | qdocdb/leveldb/leveldb/util/coding.cc:81-96 | the loop appends the recursive encoding |
| Coding.GetVarintPtr | qdocdb/leveldb/leveldb/util/coding.cc:143-158 | the shift loop computes the recursive parse, and fails exactly when it does |
| Coding.LengthPrefixedRoundTrip | qdocdb/leveldb/leveldb/util/coding.cc:98-101 | a length-prefixed string is read back, leaving what follows |
| Formats.LittleEndian32 | qdocdb/leveldb/leveldb/util/coding_test.cc:55-75 | fixed 32-bit numbers are little-endian |
| Formats.LittleEndian64 | qdocdb/leveldb/leveldb/util/coding_test.cc:55-75 | fixed 64-bit numbers are little-endian |
| Formats.VarintIsBase128 | qdocdb/leveldb/leveldb/util/coding.cc:81-96 | a varint is its number in base 128, lowest digit first, only its last byte with the top bit clear |
| Formats.VarintEndsAtClearBit | qdocdb/leveldb/leveldb/util/coding.cc:143-158 | of any bytes it takes those up to the first with a clear top bit |
| Formats.EndlessVarint | qdocdb/leveldb/leveldb/util/coding.cc:143-158 | without one among the first bytes it takes none |
| Formats.MaskedChecksums | qdocdb/leveldb/leveldb/util/crc32c.h:24-34 | masked values of three checksums, which fix the rotation and the constant |
| Formats.HeaderFields | qdocdb/leveldb/leveldb/doc/log_format.txt:5-10 | a fragment header holds the masked checksum of type and payload, the length and the type |
| Formats.TypesOfFragments | qdocdb/leveldb/leveldb/doc/log_format.txt:26-37 | FULL is 1, FIRST 2, MIDDLE 3 and LAST 4 |
| Formats.DocumentedExample | qdocdb/leveldb/leveldb/doc/log_format.txt:39-51 | the documented example of three records is laid out as documented, trailer included |
| Formats.UpdateBytes | qdocdb/leveldb/leveldb/db/write_batch.cc:98-109 | a put is tag 1, key and value, a deletion tag 0 and key, each string behind its length |
| Formats.UpdatesAreTagged | qdocdb/leveldb/leveldb/db/write_batch.cc:42-80 | no other tag is taken for an update, and what is taken for one stands in the bytes |
| Formats.BatchHeader | qdocdb/leveldb/leveldb/db/write_batch.cc:5-14 | a batch is sequence number, count and updates |
| Formats.FieldBytes | qdocdb/leveldb/leveldb/db/version_edit.cc:14-24 | the tags and bytes of all fields of an edit |
| Formats.UnknownField | qdocdb/leveldb/leveldb/db/version_edit.cc:195-197 | any other tag makes an edit undecodable |
| Formats.EntryFields | qdocdb/leveldb/leveldb/table/block_builder.cc:15-20 | a block entry is three varints, the rest of the key and the value |
| Formats.StoredFields | qdocdb/leveldb/leveldb/table/format.h:83-84 | behind a block stand type 0 and the masked checksum of block and type |
| Formats.OnlyIntactBlocks | qdocdb/leveldb/leveldb/table/format.cc:66-143 | with checksums verified, only contents whose stored checksum matches are read |
| WriteBatches.BatchRoundTrip | qdocdb/leveldb/leveldb/db/write_batch.cc:42-80 | iterating over a batch gives back its updates in order, and the header its count and sequence |
| WriteBatches.RecordRoundTrip | qdocdb/leveldb/leveldb/db/write_batch.cc:98-109 | one encoded update is parsed back, leaving what follows |
| WriteBatches.IterateRecords | qdocdb/leveldb/leveldb/db/write_batch.cc:42-80 | updates are numbered consecutively up to the first malformed one, whatever the bytes |
| WriteBatches.WriteBatch.Put | qdocdb/leveldb/leveldb/db/write_batch.cc:98-103 | one more update; count, sequence and bytes agree |
| WriteBatches.WriteBatch.Delete | qdocdb/leveldb/leveldb/db/write_batch.cc:105-109 | one more deletion; count, sequence and bytes agree |
| WriteBatches.WriteBatch.Append | qdocdb/leveldb/leveldb/db/write_batch.cc:141-145 | the updates of both batches in order, under the first batch's sequence number |
| WriteBatches.WriteBatch.InsertInto | qdocdb/leveldb/leveldb/db/write_batch.cc:112-134 | of a well-formed batch, at the sequence number of any of its updates a reader finds of every key what the last update of it so far says: the value put, or nothing once deleted; the sequence numbers are consecutive; it fails on malformed bytes or a wrong count |
| WriteBatches.LastDecides | qdocdb/leveldb/leveldb/db/write_batch.cc:117-124 | entries that say what updates say, in the order of their sequence numbers, read as the last visible update of each key |
| WriteBatches.WriteBatch.SetSequence | qdocdb/leveldb/leveldb/db/write_batch.cc:94-96 | the updates stay, under a new first sequence number |
| GroupCommit.BuildBatchGroup | qdocdb/leveldb/leveldb/db/db_impl.cc:1237-1282 | the group is the longest run of the queue that may join the first writer and fits; its batch is their updates in order, the caller's own batch being used only when it is alone |
| GroupCommit.AppendTo | qdocdb/leveldb/leveldb/db/db_impl.cc:1263-1276 | the first append switches to the temporary batch, so no caller's batch is changed |
| GroupCommit.TakeGroup | qdocdb/leveldb/leveldb/db/db_impl.cc:1181-1184 | the batch written holds the group's updates, well formed, numbered from behind the last sequence number; the new last one counts them in |
| WriteQueue.StepKeepsInvariant | qdocdb/leveldb/leveldb/db/db_impl.cc:1162-1233 | joining the queue and every step of the leader keep completion order, sequence numbering, the log and the memtable in agreement |
| WriteQueue.RunKeepsInvariant | qdocdb/leveldb/leveldb/db/db_impl.cc:1162-1233 | so does every run of the queue |
| WriteQueue.CompletedOnceInOrder | qdocdb/leveldb/leveldb/db/db_impl.cc:1214-1226 | each queued writer completes exactly once, in order of arrival |
| WriteQueue.NumbersNeverReused | qdocdb/leveldb/leveldb/db/db_impl.cc:1181-1210 | sequence ranges of numbered writes never overlap, not even after a failed group |
| WriteQueue.VisibleWritesAreWhole | qdocdb/leveldb/leveldb/db/db_impl.cc:1200-1210 | the memtable entries at or below the last sequence are exactly those of the completed successful writes, in order |
| WriteQueue.AcknowledgedReadsBack | qdocdb/leveldb/leveldb/db/db_impl.cc:1162-1233 | at any point of any run a reader of the memtable at the last sequence number finds, of every key, what the last acknowledged update of it says |
| WriteQueue.AcknowledgedWriteReadsBack | qdocdb/leveldb/leveldb/db/db_impl.cc:1162-1233 | an acknowledged put reads back as its value, and an acknowledged deletion as nothing, until a later acknowledged update of the key |
| WriteQueue.SyncedBeforeAcknowledged | qdocdb/leveldb/leveldb/db/db_impl.cc:1185-1205 | a successful sync write lies in a log record that was synced |
| WriteQueue.LeaderProgresses | qdocdb/leveldb/leveldb/db/db_impl.cc:1170-1226 | every leader step shortens the queue or moves its group closer to completion |
| WriteQueue.LeaderCanStep | qdocdb/leveldb/leveldb/db/db_impl.cc:1170-1226 | while the queue is not empty the leader has a step to take |
| WriteQueue.FailureIsFinal | qdocdb/leveldb/leveldb/db/db_impl.cc:1203-1208 | after an error on sync no group starts any more |
| CrashRecovery.RecoverLogFile | qdocdb/leveldb/leveldb/db/db_impl.cc:362-455 | replays the records of a log into memtable entries; without paranoid checks corruption is passed over, with them any of it makes the replay fail. The last sequence number recovered lies at or above every entry when no record counts too few updates, and is the largest of theirs and the one started with when all are well formed and none is empty |
| CrashRecovery.ClaimCovers | qdocdb/leveldb/leveldb/db/db_impl.cc:427-432 | the number a record claims lies at or above all its entries exactly when its header counts no fewer updates than it holds (or counts none from 0 on) |
| CrashRecovery.ShortCountEscapes | qdocdb/leveldb/leveldb/db/db_impl.cc:414-432 | a record of two updates that counts one: without paranoid checks, an entry above the last sequence number recovered |
| CrashRecovery.LogIsRecovered | qdocdb/leveldb/leveldb/db/db_impl.cc:395-432 | replaying a log of the queue recovers the number of its last update, or the one started with, and at it every key reads as the last update of it says |
| CrashRecovery.CrashRecovers | qdocdb/leveldb/leveldb/db/db_impl.cc:362-455 | so does recovery of such a log cut anywhere, for the groups that lie whole in what is left |
| CrashRecovery.DamageFailsRecovery | qdocdb/leveldb/leveldb/db/db_impl.cc:373-386 | with paranoid checks, recovery fails on every log with a wrong checksum, or a bad length in a whole block, in a fragment that the reader gets to |
| CrashRecovery.WrongChecksumFails | qdocdb/leveldb/leveldb/db/log_reader.cc:236-247 | a file of one record whose checksum does not match is reported as a whole; nothing is read, and paranoid recovery fails |
| CrashRecovery.ReplayInvertsWriting | qdocdb/leveldb/leveldb/db/db_impl.cc:395-423 | replaying the batches a leader logged gives back their entries, under their sequence numbers |
| CrashRecovery.CrashLosesWholeGroups | qdocdb/leveldb/leveldb/db/db_impl.cc:362-455 | a crash that cuts an unspoiled log anywhere loses whole groups from its end: replay finds exactly the entries of the groups that lie whole in what is left, and no corruption |
| CrashRecovery.CrashKeepsWhole | qdocdb/leveldb/leveldb/db/db_impl.cc:362-455 | whatever follows in the file, the records at its front that a crash keeps whole are read |
| DurableQueue.StepKeepsInvariant | qdocdb/leveldb/leveldb/db/db_impl.cc:1181-1210 | every step of the queue and its log file, with appends that fail and leave anything behind, keeps the records appended before the first failure in the file and, while nothing has failed, the file their exact encoding |
| DurableQueue.AddGroup | qdocdb/leveldb/leveldb/db/log_writer.cc:27-73 | the writer does to the file what that machine allows |
| DurableQueue.SyncedWritesSurvive | qdocdb/leveldb/leveldb/db/db_impl.cc:1185-1205 | in every run, a sync write acknowledged before any call on the log file failed is read again after any crash that keeps the bytes synced, whatever fails later, and replay gives back its updates in order under their sequence numbers |
| DurableQueue.SoundFileLosesWholeGroups | qdocdb/leveldb/leveldb/db/db_impl.cc:362-455 | in every run, while no call on the log file has failed, a crash anywhere leaves exactly the first groups of the queue's log, with no corruption |
| DurableQueue.SoundFileRecovers | qdocdb/leveldb/leveldb/db/db_impl.cc:362-455 | in every run, while no call on the log file has failed, recovery after a crash anywhere succeeds: every key reads as the last update of it in the groups left says, at a last sequence number above all that is recovered |
| DurableQueue.StaysAppendedInRun | qdocdb/leveldb/leveldb/db/db_impl.cc:1185-1205 | what stood in the file before the first failure stands there at every later point |
| SkipLists.SkipList.FindGreaterOrEqual | qdocdb/leveldb/leveldb/db/skiplist.h:262-281 | the least node at or after the key and, at every level, the last node before it |
| SkipLists.SkipList.FindLessThan | qdocdb/leveldb/leveldb/db/skiplist.h:285-302 | the last node before the key |
| SkipLists.SkipList.FindLast | qdocdb/leveldb/leveldb/db/skiplist.h:305-322 | the last node |
| SkipLists.SkipList.Contains | qdocdb/leveldb/leveldb/db/skiplist.h:373-380 | true exactly when an entry has that key |
| SkipLists.SkipList.Link | qdocdb/leveldb/leveldb/db/skiplist.h:362-369 | after each per-level publication all levels are strictly sorted and each skips nodes of the one below; nothing is lost |
| SkipLists.SkipList.Insert | qdocdb/leveldb/leveldb/db/skiplist.h:337-370 | the new entry is at exactly the levels below its height, the rest as before |
| SkipLists.LinkKeepsLevels | qdocdb/leveldb/leveldb/db/skiplist.h:362-369 | two pointer writes at one level keep every level a sorted chain that skips nodes of the level below |
| SkipLists.Iterator.Seek | qdocdb/leveldb/leveldb/db/skiplist.h:225-227 | lands on the first entry at or after the key |
| SkipLists.Iterator.Prev | qdocdb/leveldb/leveldb/db/skiplist.h:214-222 | steps to the entry before, by search; invalid before the first |
| SkipReaders.RunStaysOnTrack | qdocdb/leveldb/leveldb/db/skiplist.h:258-281 | a search interleaved with any links stays on a path to its target |
| SkipReaders.SearchIsAtomic | qdocdb/leveldb/leveldb/db/skiplist.h:262-281 | what a concurrent search finds are the neighbours of its target in the list as it is at the end |
| SkipReaders.LinkIsStep | qdocdb/leveldb/leveldb/db/skiplist.h:362-369 | each publication of a node at one level is a step that searches may see in between |
| MemTables.MemTable.Add | qdocdb/leveldb/leveldb/db/memtable.cc:82-106 | the table holds one more entry |
| MemTables.MemTable.Get | qdocdb/leveldb/leveldb/db/memtable.cc:108-143 | finds the newest entry for the user key at or below the sequence; a deletion counts as found without a value |
| MemTables.SeekSettles | qdocdb/leveldb/leveldb/db/memtable.cc:108-143 | comparing the user key of the entry sought to is enough to settle a read |
| BlockFormat.DecodeInvertsEntry | qdocdb/leveldb/leveldb/table/block.cc:53-74 | an entry's header is decoded back, by the short path or the varint path |
| BlockBuilders.BlockBuilder.Add | qdocdb/leveldb/leveldb/table/block_builder.cc:73-107 | one more item; a key between restart points leaves out the longest prefix it shares with the key before it, and restart points come every interval |
| BlockBuilders.SharesMore | qdocdb/leveldb/leveldb/table/block_builder.cc:79-91 | sharing the longest prefix, or starting anew, keeps every key of the block cut by all it shares |
| BlockBuilders.BlockBuilder.Finish | qdocdb/leveldb/leveldb/table/block_builder.cc:63-71 | the bytes are a block of exactly the items added, with restart points every interval and every other key cut by all it shares with the one before |
| BlockIters.DecodeEntry | qdocdb/leveldb/leveldb/table/block.cc:53-74 | the header at the front of any bytes, or none when it does not fit |
| BlockIters.ParseItem | qdocdb/leveldb/leveldb/table/block.cc:226-253 | at an entry's offset, with the previous key (or any, at a restart), parsing yields that item's key and value |
| BlockIters.BlockIter.ParseNextKey | qdocdb/leveldb/leveldb/table/block.cc:226-253 | moves to the next item, rebuilding its key; on malformed bytes becomes invalid |
| BlockIters.BlockIter.Next | qdocdb/leveldb/leveldb/table/block.cc:139-142 | the next item of the block |
| BlockIters.BlockIter.Prev | qdocdb/leveldb/leveldb/table/block.cc:144-163 | the previous item, by going back to a restart point and scanning: it undoes Next |
| BlockIters.BlockIter.Seek | qdocdb/leveldb/leveldb/table/block.cc:165-203 | binary search over restarts and a scan land on the first item at or after the target |
| BlockIters.BlockIter.SeekToFirst | qdocdb/leveldb/leveldb/table/block.cc:205-208 | the first item |
| BlockIters.BlockIter.SeekToLast | qdocdb/leveldb/leveldb/table/block.cc:210-215 | the last item |
| BlockIters.BlockIter.Key | qdocdb/leveldb/leveldb/table/block.cc:130-133 | the key of the current item of an intact block |
| BlockIters.BlockIter.Value | qdocdb/leveldb/leveldb/table/block.cc:134-137 | the value of the current item of an intact block |
| Bloom.WithBitSets | qdocdb/leveldb/leveldb/util/bloom.cc:56-57 | setting a bit sets that bit and no other |
| Bloom.BloomFilterPolicy.CreateFilter | qdocdb/leveldb/leveldb/util/bloom.cc:35-61 | the filter has the least whole number of bytes for its bits, ends with the probe count, and answers yes for a hash value exactly when each of its probes falls on one for some key |
| Bloom.HoldsAtPositions | qdocdb/leveldb/leveldb/util/bloom.cc:76-86 | the bits probed are those of the hash value and multiples of its rotation added to it in 32 bits |
| Bloom.DeltaRotates | qdocdb/leveldb/leveldb/util/bloom.cc:54 | the rotation swaps the high 15 and the low 17 bits |
| Bloom.BloomFilterPolicy.KeyMayMatch | qdocdb/leveldb/leveldb/util/bloom.cc:63-87 | whether all probed bits, with 32-bit wrap-around, are set; always for probe counts kept for later use |
| FilterBlocks.FilterBlockBuilder.StartBlock | qdocdb/leveldb/leveldb/table/filter_block.cc:22-28 | makes filters up to the one of the block's offset, some of them empty |
| FilterBlocks.FilterBlockBuilder.AddKey | qdocdb/leveldb/leveldb/table/filter_block.cc:30-34 | the key counts as added at the current block offset |
| FilterBlocks.FilterBlockBuilder.GenerateFilter | qdocdb/leveldb/leveldb/table/filter_block.cc:52-76 | the pending keys become one filter that matches all of them |
| FilterBlocks.FilterBlockBuilder.Finish | qdocdb/leveldb/leveldb/table/filter_block.cc:36-50 | no key is denied in a block it was added for, and the answer for a block is exactly that of a filter for the keys added for blocks beginning in the same 2 KB, and no when there are none |
| FilterBlocks.BlockAnswers | qdocdb/leveldb/leveldb/doc/table_format.txt:61-91 | filter number i answers for the blocks that begin in the i-th 2 KB |
| FilterBlocks.FilterBlockReader.KeyMayMatch | qdocdb/leveldb/leveldb/table/filter_block.cc:78-109 | the answer of the filter block's bytes, also when they are malformed |
| FilterBlocks.Matches | qdocdb/leveldb/leveldb/table/filter_block.cc:95-109 | the filter found by offset is the one made of the keys of that offset |
| DbFormat.CompareIsLess | qdocdb/leveldb/leveldb/db/dbformat.cc:50-66 | comparing encoded internal keys is comparing user key ascending, then sequence and type descending |
| DbFormat.EncodedKeyOf | qdocdb/leveldb/leveldb/db/dbformat.h:176-186 | an encoded internal key parses back to its user key, sequence and type |
| DbFormat.FindShortestSeparator | qdocdb/leveldb/leveldb/db/dbformat.cc:68-85 | the start key itself, or a shorter key with the maximal tag whose user key lies strictly between, no user key between being shorter; shortened whenever the user keys leave room at their first difference |
| DbFormat.FindShortSuccessor | qdocdb/leveldb/leveldb/db/dbformat.cc:87-99 | the key itself, or a shorter one with the maximal tag whose user key is greater, no greater user key being shorter; shortened whenever a byte before the last is below 255 |
| Comparator.RankKeepsOrder | qdocdb/leveldb/leveldb/util/comparator.cc:25-27 | ranking byte strings as numbers keeps their bytewise order, in both directions |
| Comparator.FindShortestSeparator | qdocdb/leveldb/leveldb/util/comparator.cc:29-51 | the start with the byte at its first difference from the limit raised by one and cut there, when that stays below the limit: no string strictly between is shorter; otherwise the start |
| Comparator.FindShortSuccessor | qdocdb/leveldb/leveldb/util/comparator.cc:53-65 | the key with its first byte below 255 raised by one and cut there: no later string is shorter; the key itself when all its bytes are 255 |
| Comparator.ShortestBetween | qdocdb/leveldb/leveldb/util/comparator.cc:29-51 | no string strictly between two others ends before their first difference |
| Comparator.ShortestAfter | qdocdb/leveldb/leveldb/util/comparator.cc:53-65 | no string after one that begins with so many bytes 255 ends within them |
| TableFormat.HandleRoundTrip | qdocdb/leveldb/leveldb/table/format.cc:15-30 | a block handle survives its encoding |
| TableFormat.ReadsBack | qdocdb/leveldb/leveldb/table/format.cc:66-143 | a stored block is read back, with or without its checksum being verified |
| TableBuilders.TableBuilder.Add | qdocdb/leveldb/leveldb/table/table_builder.cc:92-121 | one more item in order; blocks, delayed index entry and filter agree with what was added, and the block is written exactly when it has reached the block size |
| TableBuilders.TableBuilder.Flush | qdocdb/leveldb/leveldb/table/table_builder.cc:123-137 | the current block is written and its index entry left pending; nothing added is lost |
| TableBuilders.TableBuilder.Finish | qdocdb/leveldb/leveldb/table/table_builder.cc:199-254 | the file is a table of exactly the items added: each index key separates its block from the next, and the filter denies no key |
| Tables.TableSeparates | qdocdb/leveldb/leveldb/table/table_builder.cc:92-121 | a finished table's index keys lie at or after the last key of their block and before the first of the next |
| Tables.EntriesAdded | qdocdb/leveldb/leveldb/table/table_builder.cc:92-121 | the blocks one behind the other hold the items added, in order |
| Tables.Table.InternalGet | qdocdb/leveldb/leveldb/table/table.cc:226-255 | hands over the first entry at or after the key, or nothing, but never nothing when that entry has the sought user key, with any cutting, separators and filter |
| Tables.Table.BlockGet | qdocdb/leveldb/leveldb/table/table.cc:233-247 | the block the index leads to answers for the whole table |
| Tables.NextBlockOnly | qdocdb/leveldb/leveldb/table/table.cc:226-255 | when the block has nothing at or after the key, later entries have another user key |
| Tables.Denied | qdocdb/leveldb/leveldb/table/table.cc:236-242 | when the filter denies the key, no entry of that user key is at or after it |
| VersionEdits.EditRoundTrip | qdocdb/leveldb/leveldb/db/version_edit.cc:41-210 | decoding into a cleared edit succeeds exactly when all levels are valid, and gives back the edit exactly when the receiver had no compaction pointers, which Clear keeps |
| VersionEdits.ClearedEditKeepsPointer | qdocdb/leveldb/leveldb/db/version_edit.cc:26-39 | an empty edit decoded into one that kept a compaction pointer differs from what was encoded |
| VersionEdits.BadLevel | qdocdb/leveldb/leveldb/db/version_edit.cc:98-107 | a field with a level out of range is refused |
| VersionEdits.VersionEdit.EncodeTo | qdocdb/leveldb/leveldb/db/version_edit.cc:41-86 | appends the encoding of the edit's fields |
| VersionEdits.VersionEdit.DecodeFrom | qdocdb/leveldb/leveldb/db/version_edit.cc:109-210 | fills the fields as the recursive decoder says, on any bytes |
| VersionEdits.VersionEdit.Clear | qdocdb/leveldb/leveldb/db/version_edit.cc:26-39 | resets all but the compaction pointers |
| Manifests.VersionIsUnique | qdocdb/leveldb/leveldb/db/version_set.cc:702-748 | a list of edits determines the file list of every level |
| Manifests.LogAndApply | qdocdb/leveldb/leveldb/db/version_set.cc:811-836 | one edit on the current version gives the version of the edits so far, and the checks made on saving hold exactly when the files above level 0 are in order; when the edits keep them apart, they do |
| Manifests.ApplyOneByOne | qdocdb/leveldb/leveldb/db/version_set.cc:811-836 | edits that add no file twice, applied one at a time, give the version of all of them, overlapping files or not |
| Manifests.Save | qdocdb/leveldb/leveldb/db/version_set.cc:702-748 | a builder that gathered the files of the edits saves their version; the checks on the way hold exactly when, above level 0, each file begins behind the one before, and levels that the edits keep apart come out disjoint |
| Manifests.Recover | qdocdb/leveldb/leveldb/db/version_set.cc:930-1006 | encoded edits that add no file twice, decoded and folded through one builder: every level lists exactly the files that some edit added there and no later one deleted; log, previous log, manifest and last sequence numbers are those said last, and the next file number is one above; it fails exactly when an edit names another comparator or one of these (but the previous log) is never said; the levels above 0 are disjoint when the files lie apart |
| Manifests.NumbersAreSaidLast | qdocdb/leveldb/leveldb/db/version_set.cc:1001-1005 | the numbers recovered, by the fields of the edits themselves |
| Manifests.FilesAreAddedAndKept | qdocdb/leveldb/leveldb/db/version_set.cc:656-699 | folding edits leaves at a level exactly what some edit added there and none after it deleted |
| Manifests.FileIsAsDescribed | qdocdb/leveldb/leveldb/db/version_edit.cc:180-190 | a recovered file has the edit's number and size, and as its bounds the keys that the edit's encoded internal keys stand for |
| Manifests.RecoverManifest | qdocdb/leveldb/leveldb/db/version_set.cc:896-1009 | a manifest cut anywhere recovers to the version and the numbers of the edits that lie whole in it |
| VersionSets.VersionSet.LogAndApply | qdocdb/leveldb/leveldb/db/version_set.cc:811-896 | the edit goes to the manifest with the numbers it left open, and its version becomes current; every file and log in the manifest keeps a number below the next file number said last |
| VersionSets.VersionSet.NewFileNumber | qdocdb/leveldb/leveldb/db/version_set.h:191 | hands out the next number, above all files and logs in use |
| VersionSets.VersionSet.ReuseFileNumber | qdocdb/leveldb/leveldb/db/version_set.h:194-200 | a number just handed out and not used comes next again |
| VersionSets.VersionSet.MarkFileNumberUsed | qdocdb/leveldb/leveldb/db/version_set.cc:1011-1015 | the next number lies beyond one found in use |
| VersionSets.VersionSet.Reopen | qdocdb/leveldb/leveldb/db/version_set.cc:896-1009 | reading back the manifest that any sequence of such calls wrote gives the current version, the log numbers, and the last edit's sequence and next file numbers; no file or log recovered has a number that is still to come |
| Manifests.LatestIsLast | qdocdb/leveldb/leveldb/db/version_set.cc:952-970 | the number recovered is that of the last edit that carries it |
| Snapshots.SnapshotList.New | qdocdb/leveldb/leveldb/db/snapshot.h:42-51 | the new snapshot goes to the newest end of the ring |
| Snapshots.SnapshotList.Delete | qdocdb/leveldb/leveldb/db/snapshot.h:53-58 | exactly that snapshot leaves the ring |
| Snapshots.SnapshotList.Oldest | qdocdb/leveldb/leveldb/db/snapshot.h:39 | the snapshot of least sequence number among those live |
| Snapshots.SnapshotList.SmallestSnapshot | qdocdb/leveldb/leveldb/db/db_impl.cc:868-872 | the greatest bound that no live snapshot lies below, or the last sequence when there is none |
| HandleTables.HandleTable.Lookup | qdocdb/leveldb/leveldb/util/cache.cc:58-60 | what the map that the table stands for holds at the key |
| HandleTables.HandleTable.Insert | qdocdb/leveldb/leveldb/util/cache.cc:62-76 | updates that map at the entry's key and hands back what it replaced |
| HandleTables.HandleTable.Remove | qdocdb/leveldb/leveldb/util/cache.cc:78-86 | takes exactly the entry of that key out |
| HandleTables.HandleTable.Resize | qdocdb/leveldb/leveldb/util/cache.cc:107-131 | moves every entry to its bucket among more buckets; the table's entries stay the same and are no more than its buckets |
| HandleTables.FindReplaced | qdocdb/leveldb/leveldb/util/cache.cc:62-76 | replacing an entry is updating the map at its key |
| HandleTables.FindRemoved | qdocdb/leveldb/leveldb/util/cache.cc:78-86 | removing an entry empties the map at its key and changes it nowhere else |
| HandleTables.MovedKeeps | qdocdb/leveldb/leveldb/util/cache.cc:116-126 | moving one chain's head to another keeps the entries, none of them twice |
| HandleTables.TotalIsSize | qdocdb/leveldb/leveldb/util/cache.cc:68-74 | the element count is the number of entries |
| LruCaches.LRUCache.Insert | qdocdb/leveldb/leveldb/util/cache.cc:225-256 | the new entry is newest and replaces its key's; the oldest go, no more than needed, until the charge fits or none is left; deleters run for those no caller holds |
| LruCaches.LRUCache.EvictExcess | qdocdb/leveldb/leveldb/util/cache.cc:248-253 | evicts a prefix of the recency list, the last of it only because the rest did not fit |
| LruCaches.LRUCache.Lookup | qdocdb/leveldb/leveldb/util/cache.cc:209-218 | finds the entry of the key, if any, makes it newest and hands out one more reference |
| LruCaches.LRUCache.Release | qdocdb/leveldb/leveldb/util/cache.cc:220-223 | one handle less; the deleter runs exactly when no reference is left |
| LruCaches.LRUCache.Erase | qdocdb/leveldb/leveldb/util/cache.cc:258-265 | the key's entry leaves table and list; its deleter runs unless a caller holds it |
| LruCaches.LRUCache.Unref | qdocdb/leveldb/leveldb/util/cache.cc:186-194 | the last reference, and only it, frees the entry and takes its charge off the usage |
| LruCaches.LRUCache.Destroy | qdocdb/leveldb/leveldb/util/cache.cc:177-184 | with all handles released, every entry left is freed, once |
| LruCaches.ChargesWithout | qdocdb/leveldb/leveldb/util/cache.cc:186-194 | the charges of a set are those of an entry and of the rest |
| QDocKVMaps.PrefixesAreTogether | qdocdb/qdockvmap.cpp:11-21 | in an ordered store the keys with a common prefix are neighbours |
| QDocCollections.QDocCollection.GetJsonValue | qdocdb/qdoccollection.cpp:36-65 | the iterator's scan yields the document's newest version at or below the snapshot, and whether it is its only one |
| QDocCollections.ViewIsNewest | qdocdb/qdoccollection.cpp:36-65 | what a snapshot shows is the newest version at or before it, or nothing for a deleted document |
| QDocCollections.QDocCollection.PutJsonValue | qdocdb/qdoccollection.cpp:973-983 | changes one document's version at the current snapshot and no other version of any document |
| QDocCollections.QDocCollection.Insert | qdocdb/qdoccollection.cpp:1107-1176 | fails exactly when the document exists and must not be overwritten; otherwise it reads back at once |
| QDocCollections.QDocCollection.RemoveById | qdocdb/qdoccollection.cpp:1239-1272 | a document that exists is gone afterwards, by tombstone or deletion, and only its current version changes |
| QDocCollections.QDocCollection.NewSnapshot | qdocdb/qdoccollection.cpp:664-694 | names the current data and continues with a copy that reads the same |
| QDocCollections.QDocCollection.RevertToSnapshot | qdocdb/qdoccollection.cpp:717-782 | every document reads at that snapshot, and at earlier ones, as before, and the later versions are gone |
| QDocCollections.SnapshotIsIsolated | qdocdb/qdoccollection.cpp:664-694 | no run of inserts, removals, snapshots and reverts to later snapshots changes a document read at a named snapshot |
| QDocCollections.RevertRestores | qdocdb/qdoccollection.cpp:717-782 | after any such run, reverting shows every document as it was when the snapshot was taken |

## Left out

- Env, files, mmap, locks, loggers and ports: a file is a byte sequence. File operations of compactions and flushes,
  and appends to the log, may fail, by an oracle; reads of files succeed.
- User keys are real numbers above the byte level: the engine only compares them, and any countable order embeds into
  the reals (`Comparator.RankKeepsOrder` gives the embedding of the bytewise order).
- Background.RunCompaction: requires that sequence numbers had not reached 2^56 - 1 when it began, at which the drop
  rule's initial bound would drop every entry; its input is given as the sorted entries of the inputs.
- Background.BeginCompaction: is a step of the machine only when the two input levels keep no older entry of the
  compacted user keys; what happens to reads otherwise is stated for one compaction, in `Boundary`, and not over runs.
- Background.CompactMemTable: the file is built and installed in one step once its number is taken; only writes,
  snapshots and file numbers come in between in the source, since one background thread does all this work.
- Background.MoveDown: is a step of the machine under the same condition as BeginCompaction.
- Database.StepKeepsInvariant: a compaction or a move begins only when the two input levels keep no older entry of its
  user keys, and a file flushed in the middle of a compaction to the level it writes to lies outside all its inputs.
  Without the first, reads can change; without the second, the level can lose its disjointness; both are shown.
- Database.RunKeepsInvariant: over runs of those steps.
- Database.ReadsFollowHistory: over runs of those steps.
- Database.SnapshotIsFrozen: over runs of those steps.
- InternalIterators.IterationFollowsHistory: opening a file by the name in the index is a function, and gives its
  entries.
- The merging and two-level iterators drive plain cursors, and table and memtable iterators are proved to move as
  plain cursors do; the lists they move over are composed, but no object graph of all of them is built.
- IteratorWrapper's cached key and validity, iterator cleanup and status propagation.
- DbIters.DBIter.Seek: read sampling and the shrinking of a large saved value leave no trace in results and are not
  modelled.
- LogReader.Reader.ReadPhysicalRecord: an initial offset of 0 only, and no read errors.
- LogReader.Reader.ReadRecord: an initial offset of 0 only, and no read errors; old logs' bogus empty fragments are
  modelled.
- LogReader.ReadLog: an initial offset of 0 only, and no read errors.
- LogFailures.LaterRecordsReadBack: the file ends with a whole record; what torn fragments do is stated beside it.
- LogFailures.TornPayloadLosesNext: the writer's offset is not in the last six bytes of a block, where the zeros it
  fills in may happen to be what the payload lacks; what is read then turns on the checksum.
- LogFailures.TornHeaderLosesNext: the writer's offset is at least 19 bytes before the end of its block; closer to it,
  the bytes of three headers may be taken for one, and what is read turns on the checksum.
- PointReads.CleanPointReadsChange: reads that met an undecodable key before are covered by
  `CompactionChangesPointReads` alone; which undecodable keys of other user keys are handed over is up to the tables'
  filters.
- WriteQueue.StepKeepsInvariant: inserting a well-formed batch into the memtable does not fail; waiting for room is
  one step that succeeds or fails; the log is a list of records here, and a file of bytes in `DurableQueue`.
- WriteQueue.RunKeepsInvariant: over runs of those steps.
- DurableQueue.SyncedWritesSurvive: one log file; the updates are found among those replayed when no record that a
  failed append left behind claims sequence numbers beyond 2^56 - 1.
- CrashRecovery.RecoverLogFile: the memtable is not written out when it grows large on the way; one log file.
- The checksum is an uninterpreted function; CRC tables, snappy compression, and the block cache's use by tables.
- TableBuilders.TableBuilder.Finish: the meta index block and the footer are not written.
- BlockIters.DecodeEntry: the 32-bit wrap-around of the sum of two lengths in the bounds check is not modelled.
- Bloom.BloomFilterPolicy.CreateFilter: the number of probes comes from a floating-point product and is a parameter
  from 1 to 30; the hash function is uninterpreted.
- SkipLists.SkipList.Insert: heights come from a random source and are a parameter; entries are values, not bytes in
  an arena; publication is atomic, in program order.
- Tables.Table.InternalGet: opening a table from its footer; the saver callback is the value handed over.
- HandleTables.HandleTable.Resize: a bucket is the remainder of the hash by a power of two, for the source's bit mask.
- LruCaches.LRUCache.Insert: one shard; 32-bit reference counts do not overflow; sharding by hash and NewId.
- Seek-triggered and size-triggered compaction scores, approximate offsets, properties, repair and the C bindings.
- VersionSets.VersionSet.LogAndApply: writing the manifest succeeds; the snapshot edit that begins a manifest is
  given; file numbers do not run out.
- Manifests.RecoverManifest: the CURRENT file, records that are no encoded edits, and switching descriptors; obsolete
  file removal.
- QDocCollections.SnapshotIsIsolated: the in-memory store, no indexes or observers, ids nonempty, without a colon and
  prefix-free, fewer than 256 snapshots, one committed transaction an operation; the snapshot names are a field rather
  than a stored document.
- QDocCollections.QDocCollection.Insert: ids are given, and documents are opaque values; generated ids, read-only
  checks and index maintenance are left out.
- QDocCollections.QDocCollection.NewSnapshot: the snapshot names are a field, and indexes are left out.
- QDocCollections.QDocCollection.RevertToSnapshot: index records and the stored snapshot document are left out.
- removeSnapshot, queries, options, indexes, JSON, the client, server, connector and QML parts of qdocdb.
