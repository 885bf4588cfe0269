# A verified model of LevelDB and nanopb

LevelDB and nanopb are the storage engine and the wire format that the Demolition application carries in
its Pods.  This project models their logic in Dafny and proves what they are for: a read returns the newest
value written, whatever flushes and compactions have done in between; a crash loses nothing that was
acknowledged; an iterator walks exactly the live keys; a record, a block, a table, a manifest or a message
that was written is read back.

`dafny verify dfyconfig.toml` checks everything.

## How it is built

- Keys, versions and searches: `InternalKeys`, `Versions`, `Searches`.  A file carries the sorted entries
  of its table.  `Searches` shows that the conditions the search relies on are also necessary.
- Edits and manifests: `VersionEdits`, `ManifestReplay`, `ManifestRecords`, `EditCodecs`.
- Compaction: `Picking`, `DropRules`, `CompactionWork`, `OutputCuts`, `Installing`, `Flushing`.  `InstallReads` has the
  exact conditions under which an install is read right, `SplitKeys` databases that do not meet them.
- The database: `Batches`, `Database`.  `DbImpl` keeps the plain history of all writes as a ghost, and every
  step (writes, memtable switches, flushes also in the middle of a compaction, automatic and manual
  compactions, snapshots) keeps an invariant under which `Get` is a read of that history.
- Scans: `Cursors`, `TwoLevelIterators`, `IteratorWrappers`, `Mergers`, `DbIterators`, `Scans`.  The client's
  iterator runs over the merge, the merge over wrapped children, and those over memtables, files and levels.
- Concurrency: `SkipLists` (single loads and stores, any schedule), `GroupCommit` (the queue of writers).
- Durability: `Checksums`, `Crc32c`, `Logs`, `LogReaders`, `LogDamage`, `Recovery`, `CrashSafety`, `DurableCompactions`, `Reopening`,
  `WriteBatches`.  `Store` takes a step for every file written and every change in memory; a crash may come
  between any two.  `Reopening` joins it to the levels: `Open` takes the store's steps and returns a `DbImpl`.
- Tables and caches: `Codings`, `IntegerSizes`, `Comparators`, `KeyEncodings`, `Blocks`, `BlockIters`, `Filters`,
  `FilterBlocks`, `Formats`, `Tables`, `TableWriting`, `TableFiles`, `TableReads`, `HandleTables`, `Caches`.
  `Tables` is about items; `TableWriting` and `TableFiles` show the same of the bytes of the file.
- nanopb: `PbFields`, `PbEncoders`, `PbDecoders`, `PbFrames`, `PbRoundTrips`, `PbExtensions`.  `PbFrames` reads
  what is written by the Protocol Buffers encoding specification alone, as any other reader would.

## Model

| member | source | states |
|---|---|---|
| InternalKeys.TagOrder | Demolition/Pods/leveldb-library/db/dbformat.cc:50-66 | comparing user keys and then packed tags, larger tag first, is the order by user key, newest first |
| InternalKeys.SeekGetIsNewest | Demolition/Pods/leveldb-library/db/memtable.cc:108-143 | seeking the lookup key in a sorted list and keeping a hit of the same user key finds the newest entry at or below the sequence, or none |
| InternalKeys.InsertKeepsSorted | Demolition/Pods/leveldb-library/db/memtable.cc:82-106 | an entry of a new key goes to its place: the list stays sorted and gains just that entry |
| InternalKeys.NewestOfLayers | Demolition/Pods/leveldb-library/db/db_impl.cc:1126-1142 | if one body of data is newer than another key by key, looking in it first and in the other only on a miss finds the newest of both |
| Versions.FindFile | Demolition/Pods/leveldb-library/db/version_set.cc:86-105 | the binary search runs as specified on any list of files, and on a sorted level splits the files into those that end before the key and those that do not |
| Versions.SomeFileOverlapsRange | Demolition/Pods/leveldb-library/db/version_set.cc:121-156 | true exactly if some file of the level meets the range, for unsorted levels and for sorted ones searched by key |
| Versions.LevelZeroLookupIsNewest | Demolition/Pods/leveldb-library/db/version_set.cc:354-374 | trying the level 0 files that cover the key by descending number finds the newest match of the level |
| Versions.LevelLookupIsNewest | Demolition/Pods/leveldb-library/db/version_set.cc:375-391 | on a sorted level one binary search and one file find the newest match of the level, also where a key spans several files |
| Versions.Get | Demolition/Pods/leveldb-library/db/version_set.cc:332-429 | level by level with an early stop; on a valid version the result is the newest entry of the key at or below the sequence, or none |
| Versions.GetOverlappingInputs | Demolition/Pods/leveldb-library/db/version_set.cc:531-572 | the restarting scan ends; below level 0 it is a filter, at level 0 it gives the least set of files that holds all files meeting the range and every file that meets one of its own |
| Versions.PickLevelForMemTableOutput | Demolition/Pods/leveldb-library/db/version_set.cc:502-528 | the deepest level, one step at a time, to which no file on the way meets the range and at which not too many bytes of the next do |
| Searches.SearchesRightExactly | Demolition/Pods/leveldb-library/db/version_set.cc:332-429 | for well-formed files: the search answers rightly for every key and every sequence if and only if level 0 is numbered by age, deeper levels are sorted, and levels are newer the higher they are |
| VersionEdits.Builder.Apply | Demolition/Pods/leveldb-library/db/version_set.cc:665-709 | the builder takes an edit level by level: deletions, then additions, which lift a deletion of the same number |
| VersionEdits.Builder.SaveLevelTo | Demolition/Pods/leveldb-library/db/version_set.cc:711-757 | the merge by upper bounds yields base and added files in the order of smallest keys, without the deleted |
| VersionEdits.SaveLevelOrdered | Demolition/Pods/leveldb-library/db/version_set.cc:711-757 | the merge of two ordered lists that never stand level is ordered |
| VersionEdits.ReplayLevel | Demolition/Pods/leveldb-library/db/version_set.cc:603-757 | one builder fed with all edits gives a level the files that one builder per edit gives it, if no file number enters twice |
| ManifestReplay.RecoverVersion | Demolition/Pods/leveldb-library/db/version_set.cc:931-1012 | the loop of Recover builds, from no files, the version of all the edits of the manifest |
| ManifestReplay.ReplayIsLive | Demolition/Pods/leveldb-library/db/version_set.cc:905-1130 | replaying WriteSnapshot's edit and the edits after it gives, on all levels, the very version the running database had reached |
| ManifestReplay.RecoveredIsValid | Demolition/Pods/leveldb-library/db/version_set.cc:905-1130 | so a recovered version has sorted levels and right searches if the running one had |
| DropRules.DropsPreserveReads | Demolition/Pods/leveldb-library/db/db_impl.cc:938-971 | every read at or above the smallest snapshot is the same after the drops, if each older version outside the inputs is announced |
| DropRules.DropsPreserveReadsExactly | Demolition/Pods/leveldb-library/db/db_impl.cc:938-971 | and precisely: reads of a key survive if and only if no dropped deletion was its newest version while an older value lies outside |
| DropRules.SurvivorsAreWanted | Demolition/Pods/leveldb-library/db/db_impl.cc:938-971 | an entry survives if and only if some reader at or above the smallest snapshot finds it in the input, and it is not a deletion that all readers see with nothing below |
| DropRules.OneVersionSurvives | Demolition/Pods/leveldb-library/db/db_impl.cc:938-971 | when every snapshot sees the whole input, at most one version of a key survives |
| Picking.GetRange | Demolition/Pods/leveldb-library/db/version_set.cc:1224-1244 | the range is spanned by the files and no file reaches out of it |
| Picking.SetupOtherInputs | Demolition/Pods/leveldb-library/db/version_set.cc:1345-1411 | the first row is what was asked for, or all files of the level that meet both rows, and that if and only if it takes no more of the next level and keeps within the limit; the second row is all files that meet the first, the grandparents are just the files one level on that meet both; level 0 stays closed under overlap, and no gaps arise |
| Picking.PickCompaction | Demolition/Pods/leveldb-library/db/version_set.cc:1291-1343 | a choice exactly if a level or a file asks for one: for a level it starts from the first file that ends after the last compaction there, or from the beginning; it is a proper compaction without gaps |
| Picking.CompactRange | Demolition/Pods/leveldb-library/db/version_set.cc:1413-1446 | nothing is chosen exactly if no file of the level meets the range; otherwise all files that do, below level 0 up to the one with which they reach the limit, and a proper compaction of them, gaps allowed |
| CompactionWork.Compaction.IsBaseLevelForKey | Demolition/Pods/leveldb-library/db/version_set.cc:1484-1503 | asked about keys in order, the cursors that only move forward answer like a scan of all deeper files |
| CompactionWork.Compaction.ShouldStopBefore | Demolition/Pods/leveldb-library/db/version_set.cc:1505-1526 | an output stops when the grandparents passed since it began are too many bytes, counted from the second key on; what that is for is in OutputCuts |
| CompactionWork.CollateSorted | Demolition/Pods/leveldb-library/db/version_set.cc:1258-1289 | the merged input is sorted and holds exactly the entries of the input files |
| CompactionWork.ShadowedByPrevious | Demolition/Pods/leveldb-library/db/db_impl.cc:944-957 | looking only at the entry just before decides rule (A) |
| CompactionWork.Decide | Demolition/Pods/leveldb-library/db/db_impl.cc:938-971 | one round of the loop drops an entry exactly if it is not among the survivors |
| CompactionWork.DoCompactionWork | Demolition/Pods/leveldb-library/db/db_impl.cc:887-1047 | the output files are sorted, disjoint in order and fresh in number, whatever numbers flushes draw in between; they hold exactly the survivors, and are cut just where sizes and grandparents say |
| OutputCuts.OutputsWellCut | Demolition/Pods/leveldb-library/db/version_set.cc:1505-1526 | no output runs over more than the limit of grandparents, or beyond the entry with which it is large enough; and outputs that end before that are paid for, each by more than the limit of grandparents of its own |
| OutputCuts.GrandparentsSorted | Demolition/Pods/leveldb-library/db/version_set.cc:1391-1396 | the grandparents of every choice are a sorted level, which is what OutputsWellCut asks of them |
| Installing.EditedLevel | Demolition/Pods/leveldb-library/db/version_set.cc:711-757 | a level after one edit holds the files not deleted and those added, in order, with distinct numbers |
| Installing.CompactionReplaces | Demolition/Pods/leveldb-library/db/db_impl.cc:866-885 | the edit of a compaction takes its inputs out of two levels, puts the outputs in, and touches nothing else |
| Installing.InstalledIsValid | Demolition/Pods/leveldb-library/db/db_impl.cc:866-885 | if what stays in the first row is newer than the outputs, and what stays beside them stands clear, the new version is valid |
| Installing.CompactionKeepsValid | Demolition/Pods/leveldb-library/db/db_impl.cc:866-885 | installing a pending compaction gives a valid version that holds the outputs and all that was not input |
| Installing.CompactionPreservesReads | Demolition/Pods/leveldb-library/db/db_impl.cc:887-1047 | and every reader at or above the smallest snapshot, with any newer memtables on top, reads what it read before |
| Installing.DisjointLeavesNothingOlder | Demolition/Pods/leveldb-library/db/version_set.cc:1291-1411 | while no key is cut between files of a level, a pick never leaves anything older behind |
| Installing.CompactionKeepsDisjoint | Demolition/Pods/leveldb-library/db/db_impl.cc:887-1047 | with no snapshot older than the inputs, outputs cut no key, so levels stay disjoint by user key |
| Flushing.FlushAdds | Demolition/Pods/leveldb-library/db/db_impl.cc:485-532 | the edit of a flush adds its file to one level and touches nothing else |
| Flushing.FlushKeepsValid | Demolition/Pods/leveldb-library/db/db_impl.cc:485-532 | a newer table put at level 0, or where nothing down to its level meets it, leaves a valid version that holds it too |
| Flushing.FlushKeepsPending | Demolition/Pods/leveldb-library/db/db_impl.cc:917-927 | a flush in the middle of a compaction without gaps leaves that compaction installable |
| InstallReads.InstallReadsRightExactly | Demolition/Pods/leveldb-library/db/db_impl.cc:866-885 | after an install every search is right if and only if what stays in the first row is newer than the outputs and what stays in the output level stands clear of them |
| InstallReads.MoveReadsRightExactly | Demolition/Pods/leveldb-library/db/db_impl.cc:717-735 | a trivial move is read right afterwards if and only if it leaves nothing older of its keys behind |
| InstallReads.MergeReadsRightExactly | Demolition/Pods/leveldb-library/db/db_impl.cc:887-1047 | a merging compaction is read right afterwards if and only if every key it cuts at the edge of its first row, keeping the newer part, is dropped altogether |
| InstallReads.InstallKeepsDataExactly | Demolition/Pods/leveldb-library/db/db_impl.cc:866-885 | the data itself reads as before, from the smallest snapshot on, if and only if no dropped deletion uncovers an older value outside the inputs |
| InstallReads.NothingOlderIsEnough | Demolition/Pods/leveldb-library/db/db_impl.cc:866-885 | leaving nothing older behind gives both: right searches, and the old answers |
| InstallReads.LateInstallReadsRightExactly | Demolition/Pods/leveldb-library/db/db_impl.cc:887-1047 | with flushes in between, searches stay right if and only if, besides, every newcomer to the output level stands clear of every output |
| InstallReads.GaplessIsEnough | Demolition/Pods/leveldb-library/db/db_impl.cc:917-927 | a newcomer flushed beside a choice without gaps always stands clear |
| SplitKeys.OldSnapshotSplitsKey | Demolition/Pods/leveldb-library/db/db_impl.cc:983-1003 | two level 0 tables, merged while a snapshot is live, come out as two files of one level that share a user key |
| SplitKeys.SplitKeyIsMisread | Demolition/Pods/leveldb-library/db/db_impl.cc:717-735 | the left of the two is then moved down alone, and the search finds the older version first |
| SplitKeys.SplitDeletionIsUndone | Demolition/Pods/leveldb-library/db/version_set.cc:1484-1503 | a deletion cut from the value it hides is dropped, and the value can be read again |
| SplitKeys.GapInvitesFlush | Demolition/Pods/leveldb-library/db/version_set.cc:502-528 | the inputs of a manual compaction leave a gap, and a flush into the gap goes to the output level |
| SplitKeys.ManualGapHidesFlush | Demolition/Pods/leveldb-library/db/db_impl.cc:887-1047 | the compaction's one output is installed over the flushed file, whose key no search finds any more |
| Batches.BatchSequences | Demolition/Pods/leveldb-library/db/write_batch.cc:112-134 | the entries of a batch take consecutive sequence numbers, one each |
| Database.InsertInto | Demolition/Pods/leveldb-library/db/write_batch.cc:112-134 | the operations of a batch go into the memtable one by one, numbered from the first |
| Database.InsertOpsSorted | Demolition/Pods/leveldb-library/db/write_batch.cc:112-134 | and leave it sorted, with exactly the batch's entries added |
| Database.LayeredSearch | Demolition/Pods/leveldb-library/db/db_impl.cc:1126-1142 | memtable, immutable memtable and tables in turn give the newest entry of all three |
| Database.DbImpl.Write | Demolition/Pods/leveldb-library/db/db_impl.cc:1194-1265 | the history grows by the batch, at the next sequence numbers, the memtable by its entries; every invariant holds |
| Database.DbImpl.SwitchMemTable | Demolition/Pods/leveldb-library/db/db_impl.cc:1356-1376 | the memtable is set aside whole and an empty one takes its place |
| Database.DbImpl.WriteLevel0Table | Demolition/Pods/leveldb-library/db/db_impl.cc:485-532 | the table holds the memtable, under a fresh number, and goes to the deepest level it may |
| Database.DbImpl.CompactMemTable | Demolition/Pods/leveldb-library/db/db_impl.cc:534-565 | the version gains just that table at that level; nothing held changes; also in the middle of a compaction every invariant holds, if the compaction has no gaps or the table lands beside it |
| Database.DbImpl.BeginCompaction | Demolition/Pods/leveldb-library/db/db_impl.cc:686-735 | the pick is the one PickCompaction describes, at the level's compact pointer, which moves to its end; it is moved at once exactly if it is a trivial move, or set to work; a pick that leaves nothing older behind, which every pick does while no key is split, keeps all invariants |
| Database.DbImpl.MoveDown | Demolition/Pods/leveldb-library/db/db_impl.cc:717-735 | the one file leaves its level and enters the next, and nothing else changes |
| Database.DbImpl.BeginManualCompaction | Demolition/Pods/leveldb-library/db/db_impl.cc:691-712 | the same for CompactRange, which never moves and may leave gaps, with the choice cut by size |
| Database.DbImpl.FinishCompaction | Demolition/Pods/leveldb-library/db/db_impl.cc:887-1047 | the outputs, which hold just the survivors and are cut where sizes and grandparents say, take the place of the inputs in whatever version is current by then, and nothing else of it changes; every invariant holds, and only snapshots below the smallest one are given up |
| Database.DbImpl.Get | Demolition/Pods/leveldb-library/db/db_impl.cc:1109-1154 | in every reachable state a read at a live snapshot, or at the last write, is the read of the plain history of all writes |
| Database.DbImpl.GetSnapshot | Demolition/Pods/leveldb-library/db/db_impl.cc:1175-1178 | the snapshot is the last sequence, and is served from then on |
| Database.DbImpl.ReleaseSnapshot | Demolition/Pods/leveldb-library/db/db_impl.cc:1180-1183 | one snapshot goes, the rest stay served |
| DbIterators.DBIter.Next | Demolition/Pods/leveldb-library/db/db_iter.cc:146-203 | whichever way the iterator came, one step on in the list of live keys |
| DbIterators.DBIter.Prev | Demolition/Pods/leveldb-library/db/db_iter.cc:205-272 | whichever way the iterator came, one step back, and off the end from the first |
| DbIterators.DBIter.Seek | Demolition/Pods/leveldb-library/db/db_iter.cc:274-286 | at the first live key at or after the target |
| DbIterators.DBIter.SeekToFirst | Demolition/Pods/leveldb-library/db/db_iter.cc:288-297 | at the first live key |
| DbIterators.DBIter.SeekToLast | Demolition/Pods/leveldb-library/db/db_iter.cc:299-304 | at the last live key |
| DbIterators.ViewIsReads | Demolition/Pods/leveldb-library/db/db_iter.cc:173-203 | a pair is in the list walked exactly if a read of the key at the same sequence gives the value |
| DbIterators.KeysIncrease | Demolition/Pods/leveldb-library/db/db_iter.cc:173-203 | live keys come once each, in increasing order |
| Mergers.MergingIterator.Next | Demolition/Pods/leveldb-library/table/merger.cc:59-83 | one entry on in the union of the children, lists or two-level iterators each in its wrapper, also after moving back |
| Mergers.MergingIterator.Prev | Demolition/Pods/leveldb-library/table/merger.cc:85-112 | one entry back in the union of the children, also after moving on |
| Mergers.MergingIterator.Seek | Demolition/Pods/leveldb-library/table/merger.cc:51-57 | at the union's first entry at or after the target |
| Mergers.MergingIterator.SeekToFirst | Demolition/Pods/leveldb-library/table/merger.cc:35-41 | at the union's first entry |
| Mergers.MergingIterator.SeekToLast | Demolition/Pods/leveldb-library/table/merger.cc:43-49 | at the union's last entry |
| TwoLevelIterators.TwoLevelIterator.Next | Demolition/Pods/leveldb-library/table/two_level_iterator.cc:112-136 | one entry on in all blocks end to end, empty blocks passed over |
| TwoLevelIterators.TwoLevelIterator.Prev | Demolition/Pods/leveldb-library/table/two_level_iterator.cc:118-149 | one entry back in all blocks end to end |
| TwoLevelIterators.TwoLevelIterator.Seek | Demolition/Pods/leveldb-library/table/two_level_iterator.cc:91-96 | at the first entry at or after the target, whichever block that is in |
| TwoLevelIterators.ConcatenatingLevel | Demolition/Pods/leveldb-library/db/version_set.cc:163-232 | over the files of a sorted level the two-level iterator walks their entries end to end |
| IteratorWrappers.IteratorWrapper.Seek | Demolition/Pods/leveldb-library/table/iterator_wrapper.h:44-54 | what the wrapper remembers is what the iterator below says, and that stands at its first entry at or after the target |
| IteratorWrappers.IteratorWrapper.Next | Demolition/Pods/leveldb-library/table/iterator_wrapper.h:42-54 | the same one entry on, whichever kind of iterator is below |
| IteratorWrappers.IteratorWrapper.Prev | Demolition/Pods/leveldb-library/table/iterator_wrapper.h:43-54 | the same one entry back, and off the end from the first |
| Scans.LevelChild | Demolition/Pods/leveldb-library/db/version_set.cc:227-232 | the wrapped two-level iterator over the files of a sorted level is a cursor over their entries end to end |
| Scans.AddIterators | Demolition/Pods/leveldb-library/db/version_set.cc:234-255 | one wrapped iterator for each level 0 file, a two-level iterator for each deeper level: together they hold what the version holds, no key twice |
| Scans.NewInternalIterator | Demolition/Pods/leveldb-library/db/db_impl.cc:1067-1096 | with the memtables in front, merged: a merging iterator over exactly what the database holds |
| Scans.NewIterator | Demolition/Pods/leveldb-library/db/db_impl.cc:1156-1166 | in every reachable state a client gets an iterator over that merge, and the list it walks is, key for key in increasing order, what reads of the history at that sequence give |
| SkipLists.Insertion.Step | Demolition/Pods/leveldb-library/db/skiplist.h:337-371 | each single store keeps the list well formed, and the key is reachable from the first publishing store on |
| SkipLists.Search.Step | Demolition/Pods/leveldb-library/db/skiplist.h:262-281 | each single load keeps the reader before its target on a level as it is now |
| SkipLists.Interleave | Demolition/Pods/leveldb-library/db/skiplist.h:262-371 | for every schedule of loads, stores and new insertions, list, reader and writer stay good and only keys being inserted appear |
| SkipLists.AnswerIsFirst | Demolition/Pods/leveldb-library/db/skiplist.h:262-281 | the answer is first at or after the target among keys that include all there at the start and none not there at the end |
| SkipLists.Insert | Demolition/Pods/leveldb-library/db/skiplist.h:337-371 | an insertion run to its end adds exactly its key |
| SkipLists.Find | Demolition/Pods/leveldb-library/db/skiplist.h:256-323 | with nobody writing, a search stops at the last node before the target and the first at or after it |
| SkipLists.Contains | Demolition/Pods/leveldb-library/db/skiplist.h:373-380 | true exactly if the key is reachable |
| SkipLists.Iterator.Prev | Demolition/Pods/leveldb-library/db/skiplist.h:214-222 | at the greatest key below the current one, or off the list |
| SkipLists.Iterator.SeekToLast | Demolition/Pods/leveldb-library/db/skiplist.h:235-240 | at the greatest key, or off an empty list |
| Checksums.RotateBack | Demolition/Pods/leveldb-library/util/crc32c.h:31-40 | masking a checksum can be undone |
| Checksums.Fixed32RoundTrip | Demolition/Pods/leveldb-library/util/coding.cc:9-18 | four little-endian bytes read back as the number |
| Crc32c.ExtendByTables | Demolition/Pods/leveldb-library/util/crc32c.cc:284-346 | the bytewise and four byte steps by tables, from any alignment, compute the checksum that shifting bit by bit defines |
| Crc32c.TableEntries | Demolition/Pods/leveldb-library/util/crc32c.cc:18-282 | the entry of 128, halving and exclusive or fix all entries of the first table; each other table is the one before with a byte more shifted out |
| Logs.Writer.AddRecord | Demolition/Pods/leveldb-library/db/log_writer.cc:36-109 | the file grows by the record's fragments and trailers, laid out so that none crosses a block |
| Logs.SplitFills | Demolition/Pods/leveldb-library/db/log_writer.cc:36-75 | a record is cut only at the ends of blocks |
| LogReaders.Reader.ReadPhysicalRecord | Demolition/Pods/leveldb-library/db/log_reader.cc:199-281 | one read gives what the bytes at the reader's place say: a fragment, a bad record with its size, or the end |
| LogReaders.Reader.ReadRecord | Demolition/Pods/leveldb-library/db/log_reader.cc:60-182 | the loop over fragments returns the next whole record, and reports what it drops |
| LogReaders.ReadAll | Demolition/Pods/leveldb-library/db/log_reader.cc:60-182 | reading to the end returns all records the file shows |
| LogReaders.Truncation | Demolition/Pods/leveldb-library/db/log_reader.cc:60-281 | for every list of records and every cut of the file: exactly the records that end within the cut come back, and no loss is reported |
| LogReaders.RoundTrip | Demolition/Pods/leveldb-library/db/log_writer.cc:36-109 | an uncut file gives back every record |
| LogReaders.TornRecord | Demolition/Pods/leveldb-library/db/log_reader.cc:60-281 | a file cut inside its last record gives back all the others |
| LogDamage.OnlyStoredRecords | Demolition/Pods/leveldb-library/db/log_reader.cc:60-281 | on any bytes: every record returned stands in the file, fragment behind fragment, each with its header and its own right checksum |
| LogDamage.DamageIsLocal | Demolition/Pods/leveldb-library/db/log_reader.cc:60-281 | whatever happened to the bytes before a block boundary, all records that begin at or after it come back, and come last, unless damaged bytes pass for the end of the file |
| LogDamage.UnknownTypes | Demolition/Pods/leveldb-library/db/log_reader.cc:108-178 | a fragment of an unknown type is reported and passed over (`Demolition/Pods/leveldb-library/db/log_reader.cc:170-178`) | the reader uses the types 5 and 6 itself, for the end of the file and for bad records (`Demolition/Pods/leveldb-library/db/log_reader.h:82-90`), and takes a stored fragment of such a type for one of them: one of type 5 ends the reading, without a report, in front of whole records | LogDamage.DamageSpreads | LogDamage.UnknownTypes |
| LogDamage.DamageSpreads | Demolition/Pods/leveldb-library/db/log_reader.h:82-90 | a fragment of type 5 in the first block hides a whole record in the second, without a report |
| Recovery.ReadManifest | Demolition/Pods/leveldb-library/db/version_set.cc:931-985 | the loop over a manifest ends with the tables, log number, next file number and last sequence that its edits say |
| Recovery.DropsAreAlike | Demolition/Pods/leveldb-library/db/db_impl.cc:938-971 | tables after the drops read, from the last sequence on, like the tables before |
| ManifestRecords.NumbersFollow | Demolition/Pods/leveldb-library/db/version_set.cc:603-757 | an edit does to the live file numbers what it does to the files of the version, level by level |
| ManifestRecords.ReplayNumbers | Demolition/Pods/leveldb-library/db/version_set.cc:905-1130 | replaying a manifest as numbers, from its snapshot on, gives the numbers of the live version |
| ManifestRecords.RunningIsRecoverable | Demolition/Pods/leveldb-library/db/version_set.cc:820-1012 | whatever edits a running database logs after its snapshot, the disk it leaves can be opened again as the same version |
| Reopening.AllAtOnce | Demolition/Pods/leveldb-library/db/db_impl.cc:485-532 | one edit that adds all recovered tables at level 0 gives the version that flushing them one by one would give |
| Reopening.RecoverLogs | Demolition/Pods/leveldb-library/db/db_impl.cc:274-483 | the loop over the logs, oldest first, leaves tables that, on top of the version of the manifest, make up the history |
| Reopening.Open | Demolition/Pods/leveldb-library/db/db_impl.cc:1490-1532 | from whatever a crash leaves: a valid database whose history is the whole history of the disk; it has the version of the manifest with the recovered tables added at level 0 and nothing else changed, the new manifest describes it, and it can be opened again |
| CrashSafety.Store.Crash | Demolition/Pods/leveldb-library/db/db_impl.cc:1194-1265 | a crash keeps every invariant; it spares at most the one group whose record was whole and not yet acknowledged |
| CrashSafety.Store.Open | Demolition/Pods/leveldb-library/db/db_impl.cc:274-363 | from whatever a crash leaves, anywhere in a write, flush, compaction, clean-up or an earlier recovery, half-written tables included: no group is lost or made up, and every read of the recovered tables from the last sequence on is the read of the whole history |
| CrashSafety.Store.BeginRecoveredTable | Demolition/Pods/leveldb-library/db/db_impl.cc:485-506 | recovery begins a table, and may leave any part of it behind: nothing that counts refers to it |
| CrashSafety.Store.RecoverTable | Demolition/Pods/leveldb-library/db/db_impl.cc:402-450 | a table begun becomes whole, with some more records of the open log; what has been read and what is left is still the history |
| CrashSafety.Store.SetCurrent | Demolition/Pods/leveldb-library/db/version_set.cc:877-893 | once CURRENT names the new manifest, the tables alone read like the history and the sequence goes on from its end |
| CrashSafety.Store.AppendRecord | Demolition/Pods/leveldb-library/db/db_impl.cc:1225-1233 | when its record is whole, the group is part of the history |
| CrashSafety.Store.Acknowledge | Demolition/Pods/leveldb-library/db/db_impl.cc:1234-1246 | only a group whose record is whole is acknowledged, and its place is the last |
| CrashSafety.Store.LogFlush | Demolition/Pods/leveldb-library/db/version_set.cc:859-874 | with the edit's record whole, the tables carry the set-aside batches and their log is no longer needed |
| CrashSafety.Store.PrepareCompaction | Demolition/Pods/leveldb-library/db/db_impl.cc:866-885 | outputs that hold the survivors of the inputs, older versions being announced, may replace them: all invariants hold |
| CrashSafety.Store.LogCompaction | Demolition/Pods/leveldb-library/db/version_set.cc:859-874 | the manifest's record of a compaction loses no read of the latest data, whenever a crash comes |
| CrashSafety.Store.CollectTable | Demolition/Pods/leveldb-library/db/db_impl.cc:218-272 | a table goes only if no live version lists it and it is not being written |
| CrashSafety.Store.CollectLog | Demolition/Pods/leveldb-library/db/db_impl.cc:218-272 | a log goes only if the manifest needs no log that old |
| CrashSafety.Store.CollectManifest | Demolition/Pods/leveldb-library/db/db_impl.cc:218-272 | a manifest goes only if it is older than the one in use |
| CrashSafety.NothingLost | Demolition/Pods/leveldb-library/db/db_impl.cc:218-272 | in every reachable state no table of a live version is missing, and tables and memtables together read like the history |
| DurableCompactions.CompactionMayPrepare | Demolition/Pods/leveldb-library/db/db_impl.cc:866-885 | the tables of any pending compaction, as stored by number, meet what PrepareCompaction asks |
| GroupCommit.BuildBatchGroup | Demolition/Pods/leveldb-library/db/db_impl.cc:1269-1314 | the group is the largest run of waiting requests that size and sync admit, its batches joined in queue order |
| GroupCommit.WriteQueue.MakeRoomForWrite | Demolition/Pods/leveldb-library/db/db_impl.cc:1316-1379 | a switch is made only if none is pending, a log opens and level 0 is not too full, and just if it is forced or the memtable full; the writer sleeps once, waits only while it must, stops at the first failure, and otherwise makes room |
| GroupCommit.OneOutcome | Demolition/Pods/leveldb-library/db/db_impl.cc:1316-1379 | that leaves nothing open: what the writer asks for and sees settles what it does and what it answers |
| GroupCommit.WriteQueue.Lead | Demolition/Pods/leveldb-library/db/db_impl.cc:1194-1222 | once room is made the front writer takes the largest group it may, whose batch is there exactly if it brought one; if room is not to be had the group has no batch |
| GroupCommit.WriteQueue.Finish | Demolition/Pods/leveldb-library/db/db_impl.cc:1244-1263 | everyone in the group gets its status and leaves, nobody else does, and the sequence moves past the group |
| GroupCommit.IntervalsDisjoint | Demolition/Pods/leveldb-library/db/db_impl.cc:1209-1217 | groups take disjoint runs of sequence numbers, later groups later ones |
| GroupCommit.ExactlyOneGroup | Demolition/Pods/leveldb-library/db/db_impl.cc:1248-1257 | every answered call belongs to exactly one group |
| GroupCommit.WholeGroupsSeen | Demolition/Pods/leveldb-library/db/db_impl.cc:1219-1246 | a reader at the last sequence sees whole groups only, and of those just the ones that succeeded |
| GroupCommit.SwitchRequestRides | Demolition/Pods/leveldb-library/db/db_impl.cc:1288-1311 | a call without a batch right behind a group is taken along, though it asked for the memtable to be switched |
| GroupCommit.SwitchNotMade | Demolition/Pods/leveldb-library/db/db_impl.cc:1208-1213 | a queue of one write and one call without a batch: the group takes both, and writes what the write alone would |
| GroupCommit.SwitchRequestRidesExactly | Demolition/Pods/leveldb-library/db/db_impl.cc:1288-1311 | it is taken along unless it is synced and the leader is not |
| Codings.EncodeVarint64 | Demolition/Pods/leveldb-library/util/coding.cc:81-90 | the bytes of a varint |
| Codings.GetVarint | Demolition/Pods/leveldb-library/util/coding.cc:112-165 | the shift loop takes the varint at the front of the input, or nothing |
| Codings.TakenExactly | Demolition/Pods/leveldb-library/util/coding.cc:112-165 | on any input the loop takes the number in base 128 that stands there, if it ends within the bytes allowed, and nothing otherwise |
| Codings.Varint32RoundTrip | Demolition/Pods/leveldb-library/util/coding.cc:47-139 | a 32-bit varint is read back, and just its own bytes are used |
| Codings.Varint64RoundTrip | Demolition/Pods/leveldb-library/util/coding.cc:81-168 | a 64-bit varint is read back, and just its own bytes are used |
| Codings.SliceRoundTrip | Demolition/Pods/leveldb-library/util/coding.cc:98-192 | a length-prefixed slice is read back, and just its own bytes are used |
| EditCodecs.EncodeTo | Demolition/Pods/leveldb-library/db/version_edit.cc:41-86 | the bytes of an edit: its tagged fields in order |
| EditCodecs.DecodeFrom | Demolition/Pods/leveldb-library/db/version_edit.cc:109-210 | the loop accepts exactly the well-formed field lists and gives the edit they describe |
| EditCodecs.EditRoundTrip | Demolition/Pods/leveldb-library/db/version_edit.cc:41-210 | every edit whose fields fit their widths is read back as it was |
| WriteBatches.WriteBatch.Put | Demolition/Pods/leveldb-library/db/write_batch.cc:98-103 | the batch gains the operation and the count goes up |
| WriteBatches.WriteBatch.Append | Demolition/Pods/leveldb-library/db/write_batch.cc:141-145 | the batch gains all operations of the other, in order |
| WriteBatches.WriteBatch.Iterate | Demolition/Pods/leveldb-library/db/write_batch.cc:42-80 | operations are handed over in order; damage or a wrong count is an error |
| WriteBatches.WhatWentInComesOut | Demolition/Pods/leveldb-library/db/write_batch.cc:42-110 | iterating a batch hands over just what was put in |
| WriteBatches.CutIsRefused | Demolition/Pods/leveldb-library/db/write_batch.cc:42-80 | a batch of which any bytes at the end are missing is refused |
| Blocks.BlockBuilder.Add | Demolition/Pods/leveldb-library/table/block_builder.cc:73-107 | the entry is added, cut by all its key has in common with the one before, with a restart point after every full interval |
| Blocks.BlockBuilder.Finish | Demolition/Pods/leveldb-library/table/block_builder.cc:63-71 | the bytes are a block of exactly the entries added |
| BlockIters.BlockIter.constructor | Demolition/Pods/leveldb-library/table/block.cc:256-268 | an iterator over any bytes keeps within them; over a finished block it starts past the end |
| BlockIters.BlockIter.Next | Demolition/Pods/leveldb-library/table/block.cc:139-142 | on the next entry |
| BlockIters.BlockIter.Prev | Demolition/Pods/leveldb-library/table/block.cc:144-163 | by way of an earlier restart point, on the entry before |
| BlockIters.BlockIter.Seek | Demolition/Pods/leveldb-library/table/block.cc:165-203 | binary search over restart points and a scan: on the first entry not below the target |
| BlockIters.BlockIter.SeekToLast | Demolition/Pods/leveldb-library/table/block.cc:210-215 | on the last entry |
| BlockIters.BlockIter.InBounds | Demolition/Pods/leveldb-library/table/block.cc:130-137 | key and value are the entry's, with its shared prefix put back |
| Formats.HandleRoundTrip | Demolition/Pods/leveldb-library/table/format.cc:15-30 | a block handle is read back, and just its own bytes are used |
| Formats.FooterRoundTrip | Demolition/Pods/leveldb-library/table/format.cc:32-63 | a footer is read back from its 48 bytes, padding and magic number included |
| Formats.BlockIsRead | Demolition/Pods/leveldb-library/table/format.cc:65-142 | a block with its trailer is read back by its handle from wherever it stands in a file, its checksum checked or not |
| Formats.BlockIsChecked | Demolition/Pods/leveldb-library/table/format.cc:65-142 | with checksums on, a block is read if and only if just its frame, type and checksum included, stands at the handle |
| KeyEncodings.KeyBack | Demolition/Pods/leveldb-library/db/dbformat.cc:12-21 | an internal key is read back from its bytes |
| KeyEncodings.InternalLessOfKeys | Demolition/Pods/leveldb-library/db/dbformat.cc:50-66 | comparing the bytes is comparing user keys and then sequence numbers, newest first |
| KeyEncodings.InternalOrder | Demolition/Pods/leveldb-library/db/dbformat.cc:50-66 | the comparison is a strict order on all byte strings, keys or not |
| Comparators.FindShortestSeparator | Demolition/Pods/leveldb-library/util/comparator.cc:29-51 | the result is not below the start, and below the limit if the start is; it is shorter or other than the start exactly if a byte fits between the two where they first differ, and then no key between them is shorter |
| Comparators.FindShortSuccessor | Demolition/Pods/leveldb-library/util/comparator.cc:53-65 | the result is not below the key, and no key that is not below is shorter |
| Comparators.SeparateKeys | Demolition/Pods/leveldb-library/db/dbformat.cc:68-85 | the same for internal keys: the separator lies between two neighbours, is made exactly if a byte fits and the user key becomes shorter, and shares the limit's user key in no case but equality |
| Filters.CreateFilter | Demolition/Pods/leveldb-library/util/bloom.cc:35-61 | just the places probed for the keys are set, in no more bytes than the bits asked for need |
| Filters.KeyMayMatch | Demolition/Pods/leveldb-library/util/bloom.cc:63-86 | true exactly if all probes are set, or the probe count is reserved |
| Filters.FilterBlockBuilder.StartBlock | Demolition/Pods/leveldb-library/table/filter_block.cc:22-28 | filters are closed up to the stretch of the new block, and keep their keys |
| Filters.BlockMayMatch | Demolition/Pods/leveldb-library/table/filter_block.cc:95-109 | true exactly if the stretch has no filter yet or its filter lets the key through; damage is in FilterBlocks.MayMatchAt |
| FilterBlocks.KeyMayMatchIn | Demolition/Pods/leveldb-library/util/bloom.cc:63-86 | on any bytes: a match exactly if all probes are set or the probe count is reserved; on the bytes of a filter that is the answer of its bits |
| FilterBlocks.FinishFilterBlock | Demolition/Pods/leveldb-library/table/filter_block.cc:36-76 | the bytes are the filters end to end, the array of their offsets, its place and the stretch |
| FilterBlocks.MayMatchAt | Demolition/Pods/leveldb-library/table/filter_block.cc:78-111 | a block that cannot be right lets every key through; on one that was written the answer is that of the filters it was made from |
| Tables.TableBuilder.Add | Demolition/Pods/leveldb-library/table/table_builder.cc:92-121 | the entry is added, and the index key of the finished block lies between the two blocks |
| Tables.TableBuilder.Finish | Demolition/Pods/leveldb-library/table/table_builder.cc:199-254 | index, filters and blocks agree, and hold exactly what was added; the bytes are in TableWriting.TableWriter.Finish |
| Tables.InternalGet | Demolition/Pods/leveldb-library/table/table.cc:226-255 | index, filter and block together find the newest entry of the user key, and give nothing else under that user key |
| Tables.LookupIsAnswer | Demolition/Pods/leveldb-library/table/table.cc:226-255 | the place the index, the filter and a seek lead to is where the answer is, for every table and key |
| TableWriting.TableWriter.Add | Demolition/Pods/leveldb-library/table/table_builder.cc:92-137 | an entry goes into the data block as bytes, the block into the file as soon as it is large enough and not before, its handle into the index under a short separator |
| TableWriting.TableWriter.Finish | Demolition/Pods/leveldb-library/table/table_builder.cc:199-254 | the file is data blocks, filter block, metaindex, index and footer of a table that holds exactly what was added |
| TableFiles.OpenFile | Demolition/Pods/leveldb-library/table/table.cc:38-89 | opening any bytes keeps within them; a table file that was written is opened, with its filters if the policy is that of their writer |
| TableFiles.ReadMeta | Demolition/Pods/leveldb-library/table/table.cc:91-141 | filters are found by their policy's name in the metaindex; errors on the way only mean that there are none |
| TableFiles.GetFrom | Demolition/Pods/leveldb-library/table/table.cc:226-255 | on the bytes of a table file the lookup, block iterators and all, gives what the lookup on its items gives |
| TableReads.PlaceOrder | Demolition/Pods/leveldb-library/util/comparator.cc:25-27 | byte strings have places among the reals in the comparator's order, so keys taken as reals lose nothing |
| TableReads.BuildTable | Demolition/Pods/leveldb-library/db/builder.cc:17-86 | no entries give no file; otherwise the bytes are a table file of exactly the entries, and the metadata is valid, with the file's number, size and range |
| TableReads.Get | Demolition/Pods/leveldb-library/db/table_cache.cc:105-119 | a lookup in the bytes of the open table gives what the search of the file's entries gives |
| TableReads.OpenAndGet | Demolition/Pods/leveldb-library/db/table_cache.cc:45-119 | and so does opening the file first, for whatever filter policy the reader has |
| HandleTables.HandleTable.FindPointer | Demolition/Pods/leveldb-library/util/cache.cc:116-123 | the walk along a chain ends at the entry with this key, or at the end |
| HandleTables.HandleTable.Insert | Demolition/Pods/leveldb-library/util/cache.cc:80-94 | the new entry takes the place of one with its key, which is returned |
| HandleTables.HandleTable.Remove | Demolition/Pods/leveldb-library/util/cache.cc:96-104 | the entry with the key goes and is returned |
| HandleTables.HandleTable.Resize | Demolition/Pods/leveldb-library/util/cache.cc:125-150 | the same entries, spread over at least as many chains |
| Caches.LRUCache.Lookup | Demolition/Pods/leveldb-library/util/cache.cc:255-262 | a client gains a reference to the entry with the key, which leaves the unused list |
| Caches.LRUCache.Release | Demolition/Pods/leveldb-library/util/cache.cc:264-267 | a client gives up a reference; a last one outside the cache frees the entry, a last one inside makes it the newest unused |
| Caches.LRUCache.Insert | Demolition/Pods/leveldb-library/util/cache.cc:269-304 | the new entry replaces one with its key, and just as many unused entries go, oldest first, as the capacity asks |
| Caches.LRUCache.Erase | Demolition/Pods/leveldb-library/util/cache.cc:307-321 | the entry with the key leaves the cache, and is freed exactly if no client refers to it |
| Caches.LRUCache.Prune | Demolition/Pods/leveldb-library/util/cache.cc:323-335 | every unused entry is freed, oldest first, and none in use |
| Caches.LRUCache.Unref | Demolition/Pods/leveldb-library/util/cache.cc:229-240 | an entry is freed exactly when its last reference goes |
| PbFields.FieldIterator.Find | Demolition/Pods/nanopb/pb_common.c:78-97 | from wherever it stands the search finds the field with the tag, or comes back where it began |
| PbEncoders.OutputStream.Write | Demolition/Pods/nanopb/pb_encode.c:91-114 | all bytes are written and counted, or nothing is; nothing outside the stream's memory changes |
| PbEncoders.Encode | Demolition/Pods/nanopb/pb_encode.c:451-473 | the stream gains exactly the bytes of the message, or the call fails within the limit |
| PbFrames.EncodedFrames | Demolition/Pods/nanopb/pb_encode.c:451-473 | a reader that knows only the Protocol Buffers encoding splits the bytes into just the fields that are there, with their tags and values, in order |
| PbFrames.EncodesExactly | Demolition/Pods/nanopb/pb_encode.c:116-473 | a struct is written if and only if every array and byte string in it fits its memory and every integer has a size of 1, 2, 4 or 8 |
| PbEncoders.EncodeRepeated | Demolition/Pods/nanopb/pb_encode.c:116-201 | arrays, packed or not, are written as the format says |
| PbFrames.PackedElements | Demolition/Pods/nanopb/pb_encode.c:116-201 | the frame of a packed array holds its elements, each in the form it would have alone |
| PbEncoders.EncodeSubmessage | Demolition/Pods/nanopb/pb_encode.c:600-648 | sizing the message, writing the size and writing it again to a stream of that size cannot disagree |
| PbEncoders.GetEncodedSize | Demolition/Pods/nanopb/pb_encode.c:480-489 | the size is that of the bytes Encode writes |
| PbDecoders.ReadVarint32 | Demolition/Pods/nanopb/pb_decode.c:173-207 | the quick case and the loop read the varint, or fail with so many bytes used |
| PbDecoders.ReadField | Demolition/Pods/nanopb/pb_decode.c:356-429 | one field is decoded into its slot, single, packed or one more element |
| PbRoundTrips.NumberOfExactly | Demolition/Pods/nanopb/pb_decode.c:1165-1255 | a varint is taken exactly if the number it says, as two's complement, plain or zigzag, is one that the field can hold |
| PbRoundTrips.UnpackedIsRead | Demolition/Pods/nanopb/pb_decode.c:356-429 | an array of numbers is read as well when its elements come one by one |
| PbDecoders.AllSeenMeans | Demolition/Pods/nanopb/pb_decode.c:922-949 | the two words of marks pass the check exactly if every required field was seen and, with 32 of them, the undefined shift gives zero |
| PbDecoders.ReadMessage | Demolition/Pods/nanopb/pb_decode.c:852-967 | the whole decoder, substreams, unknown fields and marks included, does what the recursive description says; RoundTrip and OtherDescriptor bind that to the encoding |
| PbRoundTrips.RoundTrip | Demolition/Pods/nanopb/pb_decode.c:852-967 | what Encode wrote is decoded, with the same fields present and equal and all others at their defaults, if and only if every string present is terminated and no message present has 32 required fields under a shift that is not zero |
| PbExtensions.SkipIsTake | Demolition/Pods/nanopb/pb_decode.c:277-287 | on any input an unknown field of wire type 0, 1 or 5 is passed over as the encoding frames it, and the types 3, 4, 6 and 7 are refused |
| PbExtensions.ItemSkipped | Demolition/Pods/nanopb/pb_decode.c:277-287 | every element that can be written is passed over whole, by its wire type alone |
| PbExtensions.OtherDescriptor | Demolition/Pods/nanopb/pb_decode.c:852-967 | between programs with different descriptors: fields both know come out as they were, fields only the writer knows are passed over, fields only the reader knows have their defaults |
| PbRoundTrips.StringBackExactly | Demolition/Pods/nanopb/pb_decode.c:319-336 | a string, submessage or packed array is taken off the input as it was put there if and only if 32 bits can count its bytes |
| PbRoundTrips.RefusedThough | Demolition/Pods/nanopb/pb_decode.c:943-949 | a complete message with 32 required fields is refused where a shift by 32 does not give zero |
| PbRoundTrips.UnterminatedRefused | Demolition/Pods/nanopb/pb_decode.c:1299-1332 | a string that fills its memory is encoded, and refused when read back |

## Findings

Properties that the code, its comments or its callers count on and that do not hold in general.  For each
there is a database or a message that shows it, and the exact condition under which the property does hold.

| property | where it fails | shown by | holds exactly when |
|---|---|---|---|
| entries never hop across levels, so the first hit is the newest (`Demolition/Pods/leveldb-library/db/version_set.cc:346-347`) | a snapshot keeps two versions of a key, an output ends between them (`Demolition/Pods/leveldb-library/db/db_impl.cc:997-1003`), and the file with the newer one is moved down alone (`Demolition/Pods/leveldb-library/db/db_impl.cc:717-735`) | SplitKeys.OldSnapshotSplitsKey, SplitKeys.SplitKeyIsMisread | InstallReads.MoveReadsRightExactly, InstallReads.MergeReadsRightExactly |
| a deletion marker at the base level is obsolete (`Demolition/Pods/leveldb-library/db/db_impl.cc:958-969`) | only files two levels down and deeper are looked at (`Demolition/Pods/leveldb-library/db/version_set.cc:1484-1503`), while the value deleted may sit in the output level, in a file beside the inputs | SplitKeys.SplitDeletionIsUndone | InstallReads.InstallKeepsDataExactly, DropRules.DropsPreserveReadsExactly |
| a memtable may be flushed in the middle of a compaction (`Demolition/Pods/leveldb-library/db/db_impl.cc:917-927`) | the inputs of a manual compaction may leave a gap (`Demolition/Pods/leveldb-library/db/version_set.cc:1413-1446`), and a flush into the gap may go to the output level (`Demolition/Pods/leveldb-library/db/version_set.cc:502-528`) | SplitKeys.GapInvitesFlush, SplitKeys.ManualGapHidesFlush | InstallReads.LateInstallReadsRightExactly |
| a write without a batch switches the memtable (`Demolition/Pods/leveldb-library/db/db_impl.cc:1208-1213`, `Demolition/Pods/leveldb-library/db/db_impl.cc:621-624`) | behind a writer with a batch it is answered with that writer's group (`Demolition/Pods/leveldb-library/db/db_impl.cc:1288-1311`) | GroupCommit.SwitchRequestRides, GroupCommit.SwitchNotMade | GroupCommit.SwitchRequestRidesExactly |
| a fragment of an unknown type is reported and passed over (`Demolition/Pods/leveldb-library/db/log_reader.cc:170-178`), and damage is kept to its block (`Demolition/Pods/leveldb-library/db/log_reader.cc:254-265`) | the reader uses the types 5 and 6 for the end of the file and for bad records (`Demolition/Pods/leveldb-library/db/log_reader.h:82-90`), and takes a stored fragment of such a type for one of them | LogDamage.DamageSpreads | LogDamage.UnknownTypes, LogDamage.DamageIsLocal |
| a complete message passes the check of required fields (`Demolition/Pods/nanopb/pb_decode.c:943-949`) | with 32 required fields a word is shifted by 32, which C leaves undefined | PbRoundTrips.RefusedThough | PbDecoders.AllSeenMeans, PbRoundTrips.RoundTrip |
| what pb_encode wrote, pb_decode reads | a string that fills its memory is written (`Demolition/Pods/nanopb/pb_encode.c:739-763`), and refused for want of a terminator (`Demolition/Pods/nanopb/pb_decode.c:1299-1332`) | PbRoundTrips.UnterminatedRefused | PbRoundTrips.RoundTrip |

Where the code and a comment disagree the model follows the code.

## Left out

- User keys are places in the comparator's order, taken as reals, in the modules about versions and the database; `TableReads` shows that the bytewise order embeds there. Other comparators are not modelled.
- Database.DbImpl.Write: sequence numbers stop below 2^56, which `PackSequenceAndType` asserts and no release build checks.
- Scores are computed with doubles in the code; `PickCompaction` takes the level to compact, its pointer and the file with too many seeks as parameters. Seek statistics and RecordReadSample are not modelled.
- The list of snapshots is a sequence, not a linked list.
- Compact pointers are kept while the database runs; `Reopening.Open` is given those that the edits of the manifest carry.
- I/O errors, read-only options, paranoid checks, corrupt internal keys and background error states: calls into the environment succeed, except that a group's log write and the room for it may fail in `GroupCommit`.
- Database.DbImpl.CompactMemTable: its invariant is conditional when a manual compaction with gaps is under way, because of the third finding above.
- Database.DbImpl.BeginCompaction: its invariant is conditional when an old snapshot has split a key, because of the first finding above.
- Database.DbImpl.BeginManualCompaction: its invariant is conditional for the same reason.
- CrashSafety: a table is its entries by file number, and compaction begins from any set of tables; `DurableCompactions` and `Reopening` join it to levels. A record is whole or absent; that this is so is LogReaders.Truncation. prev_log_number, which is always zero, reuse_logs and the deletion of temporary files are not modelled.
- LogReaders: reading from an initial offset, and checksums switched off, are not modelled.
- SkipLists: loads and stores are taken in one order for all threads; weaker memory orders, the random choice of heights and the arena are not modelled.
- GroupCommit: what background work brings while MakeRoomForWrite waits, and whether a new log can be opened, are parameters.
- TableWriting: a single key and value, and what a table may grow to, are bounded by half a gigabyte and 2^63 bytes; block lengths are not wrapped at 2^32. Blocks are stored without Snappy, and read without the block cache.
- FilterBlocks: a damaged stretch exponent of 64 or more, whose shift C leaves undefined, gives stretch 0.
- TableReads.BuildTable: the file is not opened again to check that it is usable, and writing it does not fail.
- Caches: the destructor, locks, deleters and the sixteen shards of ShardedLRUCache are not modelled.
- PbRoundTrips.RoundTrip: submessages and packed arrays of 2^32 bytes or more, each of which StringBackExactly shows to be read wrongly, are excluded.
- PbExtensions.OtherDescriptor: the two descriptors differ in the fields of the message itself; a submessage that both know has one descriptor.
- WriteBatches: a batch holds fewer than 2^31 operations.
- nanopb: callbacks, extensions, pointer fields, proto3 singular fields, 64 and more required fields and the memory left after a failed decode are not modelled; size_t is unbounded. The shift by 32 has an arbitrary result.
- The other Pods, and the application itself, hold no logic that the storage engine or the wire format depends on.
