# LevelDB and nanopb in Dafny

A model of two libraries that the JamSession app ships, and proofs about them: the LevelDB storage engine
under `JamSession/Pods/leveldb-library`, and the Protocol Buffers library nanopb under
`JamSession/Pods/nanopb`.

For LevelDB, the database is stated by one idea: a read at a
snapshot returns the value of the newest entry of the key whose sequence number does not exceed the
snapshot, over a flat set of entries (`InternalKeys.Read`). Every faster or more stateful part of the
engine is shown to agree with that, or to keep it as it was.

* **Reads.** `MergingIterators` and `DatabaseIterator` are cursors with changing direction that refine a
  cursor on a sorted sequence. `Versions` and `Databases` are point lookups through levels and memtables.
* **Compaction.** `InputSelection` chooses the files, `DropRules` says what may be dropped, `Compactions` is
  the loop that rewrites them, `CompactionResults` puts the results in place, `MemTableFlush` adds a
  memtable. `DatabaseRuns` is the whole as a state machine, in which a compaction begins, takes file numbers and
  is installed while writes, flushes and snapshots go on, with snapshot isolation over every run.
* **Persistence.** `Logs`, `LogReaders` and `LogCrashes` are the log and what is left of it after a crash at
  any byte; `LogIntegrity` and `LogAccounts` say what a reader lets through and reports when the bytes are
  damaged; `VersionBuilder` and `VersionEdits` are the manifest; `GroupCommits` is the queue of concurrent writers;
  `Recovery` ties them together: which writes are there after a crash.
* **Formats.** `Spellings` says which bytes are numbers and strings, and `BatchSpellings`, `EditSpellings` and
  `BlockSpellings` exactly which bytes their readers accept, with the numbers that stand in the files written
  out.
* **Tables.** `Blocks` and `BlockIterators` are prefix-compressed blocks, `Separators` and `Tables` the index,
  `Blooms` and `FilterBlocks` the filters.
* **Structures.** `SkipLists` (every store of an insertion is safe for concurrent readers), `HandleTables`,
  `LruRings` and `LruCaches` (the reference-counted cache), `Snapshots` (the ring of snapshots), `Crc32c` and
  `CrcDetection` (the striped checksum and what it detects), `MemTables` (entries as bytes), `Coding`, `WriteBatches`, `Bytes` and `Options`.

For nanopb, a message type is a table of fields (`ProtobufFields.Descriptor`) and a message is a struct with the
layout that the table says. `ProtobufEncoders` writes to streams that may only count, `ProtobufInput` and
`ProtobufDecoders` read any bytes, and `ProtobufRoundTrips` shows that decoding undoes encoding for every
descriptor. `ProtobufSkips` and `ProtobufNumbers` tie the bytes to the format, `ProtobufSpellings` and
`ProtobufArrays` decode messages as other senders write them, with unknown, unpacked and missing fields, and
`ProtobufSafety` says what a decoded struct is like whatever the bytes were.

Three results differ from what the source's comments suggest.

* `SetupOtherInputs` extends only the inputs of the upper level by boundary files
  (`JamSession/Pods/leveldb-library/db/version_set.cc:1407-1411`), and deletions are dropped by looking only two
  levels down (`JamSession/Pods/leveldb-library/db/version_set.cc:1536`). `DropRules.ViewsKeptExactlyWhen` and
  `DatabaseRuns.InstallKeepsViewsExactlyWhen` give the exact condition under which a compaction keeps every view,
  and `SplitKey.IsolationCanFail` is a run in which it does not. `CompactionResults.NoBoundaryBelow` is
  the condition a caller could check: no unselected file of the lower level continues the last user key of the
  selection.
* `VersionEdit::Clear` keeps the compaction pointers
  (`JamSession/Pods/leveldb-library/db/version_edit.cc:26-39`), so decoding into a used edit adds to them;
  `VersionEdits.EditRoundTrip` is stated as an equivalence.
* `pb_enc_string` writes a string that fills its buffer without a terminator
  (`JamSession/Pods/nanopb/pb_encode.c:875-898`), and `pb_dec_string` wants room for one
  (`JamSession/Pods/nanopb/pb_decode.c:1490-1513`). `ProtobufRoundTrips.DecodeUndoesEncode` therefore is an
  equivalence with `ProtobufRoundTrips.Terminated`, which is false for the message of
  `ProtobufRoundTrips.UnterminatedIsRefused`.

What the proofs take for granted about the outside:

* A user comparator is a total order on countably many keys, so user keys are real numbers in the modules about
  reads and compaction, and byte strings with the bytewise order, or with an arbitrary rank, in those about
  formats. Numbers and sizes do not reach the width of
  their registers, and sequence numbers stay below kMaxSequenceNumber, unless a contract says otherwise.
* Files and tables keep what was written to them; a sequential read returns what is there up to its length.
  `File.entries` stands for the contents of a table file, and `sizeOf` for the size estimate of its builder.
* Levels above 0 are disjoint in the version a builder starts from and stay so with the files an edit adds; the
  source asserts this (`JamSession/Pods/leveldb-library/db/version_set.cc:746-750`) and the modules about
  compactions and flushes prove it for the edits they make. A (level, number) pair is not added again after it
  was deleted.
* Descriptors have distinct tags from 1 to 2^29 - 1, as the generator of nanopb makes them. Its sizes and counts
  are `pb_size_t` of 32 bits, without `PB_ENABLE_MALLOC`, and a whole encoded message is shorter than 2^32 bytes.
* A flush while a compaction is at work may put a file between those that the compaction took from the output
  level. `Builder::SaveTo` asserts that the outputs do not overlap it, and `DatabaseRuns.InstallsCompaction` takes
  that over as `OutputsFit`; `DatabaseRuns.UntouchedLevelFits` says when it cannot fail.
* Memory is sequentially consistent, and a section under the mutex is one step.

`dafny verify dfyconfig.toml` checks the whole project.

## Model

| member | source | states |
|---|---|---|
| InternalKeys.TagDeterminesKey | JamSession/Pods/leveldb-library/db/dbformat.cc:14-18 | two internal keys of one user key with the same packed tag are the same key |
| InternalKeys.Trichotomy | JamSession/Pods/leveldb-library/db/dbformat.cc:51-67 | the internal key order is total: any two keys compare one way or are equal |
| InternalKeys.LookupKeySplitsVersions | JamSession/Pods/leveldb-library/db/dbformat.cc:121-138 | the lookup key of a snapshot stands before exactly the versions of its user key that the snapshot sees |
| InternalKeys.ReadIsNewest | JamSession/Pods/leveldb-library/db/dbformat.cc:51-67 | the meaning of a read: the outcome of the newest visible entry decides it, whatever else is in the set |
| InternalKeys.NewestExists | JamSession/Pods/leveldb-library/db/dbformat.cc:51-67 | a set with a visible entry for a key has a newest one |
| InternalKeys.ReadLayers | JamSession/Pods/leveldb-library/db/db_impl.cc:1118-1136 | a layer whose entries are newer decides a read exactly when it has something visible for the key |
| InternalKeys.FirstVisibleIsNewest | JamSession/Pods/leveldb-library/db/dbformat.cc:51-67 | in a sorted run the first visible entry of a user key is the newest one and decides the read |
| InternalKeys.SortedIsDistinct | JamSession/Pods/leveldb-library/db/dbformat.cc:51-67 | a sorted run never holds the same internal key twice |
| MergingIterators.MergeExists | JamSession/Pods/leveldb-library/table/merger.cc:148-176 | any number of sorted, pairwise disjoint runs has a sorted merge with exactly their entries |
| MergingIterators.SortedRunUnique | JamSession/Pods/leveldb-library/table/merger.cc:148-176 | two sorted runs with the same entries are the same sequence, so the merged sequence is unique |
| MergingIterators.RunIterator.Seek | JamSession/Pods/leveldb-library/table/merger.cc:47-53 | a child lands on its first entry not below the target |
| MergingIterators.MergingIterator.FindSmallest | JamSession/Pods/leveldb-library/table/merger.cc:148-161 | with every child at its cut, the smallest child is the entry of the merged sequence at that place |
| MergingIterators.MergingIterator.FindLargest | JamSession/Pods/leveldb-library/table/merger.cc:163-176 | with the other children behind the current place, the largest child is the previous entry of the merged sequence |
| MergingIterators.MergingIterator.SeekToFirst | JamSession/Pods/leveldb-library/table/merger.cc:31-37 | the cursor is at the first entry of the merged sequence |
| MergingIterators.MergingIterator.SeekToLast | JamSession/Pods/leveldb-library/table/merger.cc:39-45 | the cursor is at the last entry of the merged sequence |
| MergingIterators.MergingIterator.Seek | JamSession/Pods/leveldb-library/table/merger.cc:47-53 | the cursor is at the first entry of the merged sequence that is not below the target |
| MergingIterators.MergingIterator.Next | JamSession/Pods/leveldb-library/table/merger.cc:55-79 | from any entry, after moves in either direction, the next entry of the merged sequence is current |
| MergingIterators.MergingIterator.Prev | JamSession/Pods/leveldb-library/table/merger.cc:81-108 | from any entry, after moves in either direction, the entry before it in the merged sequence is current, or none |
| MergingIterators.MergingIterator.RepositionAfterCurrent | JamSession/Pods/leveldb-library/table/merger.cc:56-76 | turning forward puts every other child on its first entry after the current key |
| MergingIterators.MergingIterator.RepositionBeforeCurrent | JamSession/Pods/leveldb-library/table/merger.cc:82-104 | turning back puts every other child on its last entry before the current key |
| MergingIterators.MergingIterator.LargestIsPrevious | JamSession/Pods/leveldb-library/table/merger.cc:163-176 | the largest of the children behind a place is the entry right before it |
| MergingIterators.MergingIterator.OthersStayBehind | JamSession/Pods/leveldb-library/table/merger.cc:81-108 | children that are not current stay strictly before the current entry while moving back |
| DatabaseIterator.HeadDecides | JamSession/Pods/leveldb-library/db/db_iter.cc:168-198 | the first visible version of a key decides its read, and the key is live exactly when that version is a value |
| DatabaseIterator.LiveHasHead | JamSession/Pods/leveldb-library/db/db_iter.cc:168-198 | every live key has a first visible version, and it is a value |
| DatabaseIterator.DBIter.FindNextUserEntry | JamSession/Pods/leveldb-library/db/db_iter.cc:168-198 | the forward scan ends on the least live key still wanted, or finds that there is none |
| DatabaseIterator.DBIter.ExamineEntry | JamSession/Pods/leveldb-library/db/db_iter.cc:173-192 | one turn of the forward scan skips exactly entries that a deletion or a newer version hides |
| DatabaseIterator.DBIter.FindPrevUserEntry | JamSession/Pods/leveldb-library/db/db_iter.cc:227-267 | the backward scan ends with the greatest live key still wanted and its newest visible value, or finds that there is none |
| DatabaseIterator.DBIter.ExamineBackward | JamSession/Pods/leveldb-library/db/db_iter.cc:232-252 | one turn of the backward scan keeps the newest version seen of the candidate key, and stops at a smaller key |
| DatabaseIterator.DBIter.Next | JamSession/Pods/leveldb-library/db/db_iter.cc:141-166 | the cursor moves to the least live key after the current one, from either direction |
| DatabaseIterator.DBIter.LeaveKey | JamSession/Pods/leveldb-library/db/db_iter.cc:204-219 | turning back leaves every version of the current key behind |
| DatabaseIterator.DBIter.Prev | JamSession/Pods/leveldb-library/db/db_iter.cc:200-225 | the cursor moves to the greatest live key before the current one, from either direction |
| DatabaseIterator.DBIter.Seek | JamSession/Pods/leveldb-library/db/db_iter.cc:269-281 | the cursor moves to the least live key not below the target |
| DatabaseIterator.DBIter.SeekToFirst | JamSession/Pods/leveldb-library/db/db_iter.cc:283-292 | the cursor moves to the least live key |
| DatabaseIterator.DBIter.SeekToLast | JamSession/Pods/leveldb-library/db/db_iter.cc:294-299 | the cursor moves to the greatest live key |
| DatabaseIterator.DBIter.ShowsRead | JamSession/Pods/leveldb-library/db/db_iter.cc:60-71 | whenever the cursor is valid, key and value are what a read of that key at the snapshot returns |
| DatabaseIterator.DBIter.Step | JamSession/Pods/leveldb-library/db/db_iter.cc:141-299 | one move, of any of the five kinds, is the move of a cursor over the sorted live keys |
| DatabaseIterator.DBIter.Run | JamSession/Pods/leveldb-library/db/db_iter.cc:141-299 | any sequence of moves, with any changes of direction, shows the keys of the abstract cursor and the values that reads return |
| DatabaseIterator.TurningRound | JamSession/Pods/leveldb-library/db/db_iter.cc:141-225 | going forward and back again, or back and forward, returns to the same key |
| DatabaseIterator.ForwardWalkShowsAll | JamSession/Pods/leveldb-library/db/db_iter.cc:141-292 | walking forward from the first key until the cursor is invalid shows every live key |
| DatabaseIterator.WalkGoesOn | JamSession/Pods/leveldb-library/db/db_iter.cc:141-299 | a walk extended by one more move of the abstract cursor is a walk |
| DatabaseIterator.AheadStep | JamSession/Pods/leveldb-library/db/db_iter.cc:168-198 | what is wanted stays ahead of the scan when it passes an entry that is hidden or not visible |
| DatabaseIterator.AheadFound | JamSession/Pods/leveldb-library/db/db_iter.cc:168-198 | the entry at which the forward scan stops is the first version of the least wanted key, and its value is what a read returns |
| DatabaseIterator.SeekPassesNothing | JamSession/Pods/leveldb-library/db/db_iter.cc:269-281 | seeking to the lookup key jumps over no version that a read from the target on could see |
| DatabaseIterator.BackStep | JamSession/Pods/leveldb-library/db/db_iter.cc:227-267 | passing one entry backwards keeps the account of the candidate and of what is still wanted |
| DatabaseIterator.BackFound | JamSession/Pods/leveldb-library/db/db_iter.cc:227-267 | the candidate at which the backward scan stops is the greatest wanted key with the value that a read returns |
| Versions.FindFile | JamSession/Pods/leveldb-library/db/version_set.cc:88-106 | binary search finds the first file whose largest key is not below the key |
| Versions.TableGet | JamSession/Pods/leveldb-library/db/version_set.cc:326-421 | a search of one file finds its first entry not below the lookup key |
| Versions.SearchFile | JamSession/Pods/leveldb-library/db/version_set.cc:263-276 | searching one file reports the newest visible entry of the user key in it, or that there is none |
| Versions.FilesToSearch | JamSession/Pods/leveldb-library/db/version_set.cc:345-371 | every file that could hold the user key is searched, and on level 0 newest file first |
| Versions.OnlyCandidate | JamSession/Pods/leveldb-library/db/version_set.cc:373-389 | on a level of disjoint files only the file that FindFile names can hold anything visible |
| Versions.FirstHitIsNewest | JamSession/Pods/leveldb-library/db/version_set.cc:326-421 | the first file with a hit holds the newest visible entry of the whole version |
| Versions.VersionDistinct | JamSession/Pods/leveldb-library/db/version_set.h:59-140 | no internal key stands in two places of a version |
| Versions.Get | JamSession/Pods/leveldb-library/db/version_set.cc:326-421 | the search of a version returns what a read over the flat set of all its entries returns, value or deletion or nothing |
| InputSelection.GetOverlappingInputs | JamSession/Pods/leveldb-library/db/version_set.cc:519-559 | terminates; on level 0 returns all files of the least closed range around the one asked for, elsewhere exactly the files that overlap it |
| InputSelection.WideningLowers | JamSession/Pods/leveldb-library/db/version_set.cc:548-556 | each restart leaves strictly fewer files sticking out of the range, so the scan terminates |
| InputSelection.WideningStaysLeast | JamSession/Pods/leveldb-library/db/version_set.cc:548-556 | a range closed under overlap that covers the range asked for also covers every widened range |
| InputSelection.ScanRestarts | JamSession/Pods/leveldb-library/db/version_set.cc:545-557 | after widening, the scan starts over with nothing selected and the least range so far |
| InputSelection.ScanTakes | JamSession/Pods/leveldb-library/db/version_set.cc:541-545 | a file that overlaps the range and does not stick out of it joins the selection in order |
| InputSelection.FindLargestKey | JamSession/Pods/leveldb-library/db/version_set.cc:1326-1341 | returns the largest key of the files, or none when there are no files |
| InputSelection.FindSmallestBoundaryFile | JamSession/Pods/leveldb-library/db/version_set.cc:1345-1363 | returns the file with the least smallest key among those that continue the user key of the given largest key |
| InputSelection.AddBoundaryInputs | JamSession/Pods/leveldb-library/db/version_set.cc:1380-1401 | terminates by a rising largest key; adds exactly the chain of boundary files, each continuing the user key of the one before |
| InputSelection.BoundaryChainIsRun | JamSession/Pods/leveldb-library/db/version_set.cc:1380-1401 | on a sorted disjoint level the chain extends a contiguous selection without a gap |
| InputSelection.NextBoundary | JamSession/Pods/leveldb-library/db/version_set.cc:1345-1363 | the boundary file of a run is the file right behind it |
| InputSelection.RunKeepsNewer | JamSession/Pods/leveldb-library/db/version_set.cc:1380-1401 | a contiguous selection without a boundary file leaves no older entry of a selected user key unselected |
| InputSelection.ClosedKeepsNewer | JamSession/Pods/leveldb-library/db/version_set.cc:519-559 | a selection of level 0 that is closed under overlap leaves no entry of its user keys unselected |
| InputSelection.ClosedHasNoBoundary | JamSession/Pods/leveldb-library/db/version_set.cc:1403-1411 | a closed selection of level 0 has no boundary file, so extending it adds nothing |
| InputSelection.RunGrows | JamSession/Pods/leveldb-library/db/version_set.cc:1424-1450 | widening the range of a contiguous selection selects a contiguous stretch around it |
| InputSelection.SelectIsRun | JamSession/Pods/leveldb-library/db/version_set.cc:519-559 | the files of a sorted disjoint level that overlap a range are contiguous |
| InputSelection.GetRange | JamSession/Pods/leveldb-library/db/version_set.cc:1204-1235 | the smallest and the largest key of the files |
| InputSelection.ExtendedIsGood | JamSession/Pods/leveldb-library/db/version_set.cc:1403-1411 | the upper inputs with their boundary files keep newer entries selected |
| InputSelection.OverlapIsPickable | JamSession/Pods/leveldb-library/db/version_set.cc:1464-1495 | what overlaps a user range can be picked for a compaction |
| InputSelection.SetupOtherInputs | JamSession/Pods/leveldb-library/db/version_set.cc:1403-1462 | what was picked and its boundary files, more of the level only as far as it may grow, exactly the files of the next level that overlap, and the grandparents that the whole range overlaps |
| InputSelection.GrowInputs | JamSession/Pods/leveldb-library/db/version_set.cc:1424-1450 | the inputs stay what they are, or take in more files of the level when as many of the next level overlap and the size limit allows it; nothing chosen is lost |
| InputSelection.PickCompaction | JamSession/Pods/leveldb-library/db/version_set.cc:1270-1322 | the file given, or the first one behind the pointer and else the first of all, is among the inputs; on level 0 with the least closed selection around it |
| InputSelection.PickRange | JamSession/Pods/leveldb-library/db/version_set.cc:1464-1495 | everything that overlaps the range; above level 0 the shortest stretch from the front that reaches the size limit; nothing exactly when nothing overlaps |
| VersionBuilder.Builder.Apply | JamSession/Pods/leveldb-library/db/version_set.cc:650-692 | one more edit is accumulated: the builder stands for the base files edited by every edit so far |
| VersionBuilder.Builder.SaveTo | JamSession/Pods/leveldb-library/db/version_set.cc:695-739 | the saved version has, level by level, exactly the edited set of files in order |
| VersionBuilder.MergeFiles | JamSession/Pods/leveldb-library/db/version_set.cc:700-727 | merging the base files and the added files by smallest key gives one sorted list of both |
| VersionBuilder.MaybeAddFiles | JamSession/Pods/leveldb-library/db/version_set.cc:741-754 | files marked deleted are left out and all others kept in order |
| VersionBuilder.LogAndApply | JamSession/Pods/leveldb-library/db/version_set.cc:801-824 | the next version follows from the current one by the edit, and each level has the last compaction pointer that the edit writes for it, or the one it had |
| VersionBuilder.Recover | JamSession/Pods/leveldb-library/db/version_set.cc:924-995 | replaying any history of edits through one builder gives the same files per level, and the same compaction pointers, as applying them one at a time: for each level the key of the last pair written for it, and what it had when there is none |
| VersionBuilder.PointersGoOn | JamSession/Pods/leveldb-library/db/version_set.cc:651-656 | one more edit: the pointers are those of the last pairs in all the edits so far |
| VersionBuilder.OneAtATime | JamSession/Pods/leveldb-library/db/version_set.cc:651-656 | applying the edits one at a time leads to the last pair written for each level |
| VersionBuilder.PointersOnce | JamSession/Pods/leveldb-library/db/version_set.cc:651-656 | what all the edits make of the pointers is unique |
| VersionBuilder.SortedFilesUnique | JamSession/Pods/leveldb-library/db/version_set.cc:593-605 | a level is determined by its set of files, since the order by smallest key and number is strict |
| VersionBuilder.FollowsOnce | JamSession/Pods/leveldb-library/db/version_set.cc:650-754 | what an edit makes of a version is unique |
| VersionBuilder.SameFiles | JamSession/Pods/leveldb-library/db/version_set.cc:924-995 | two replays of the same history agree on every level |
| DropRules.ViewKept | JamSession/Pods/leveldb-library/db/db_impl.cc:929-963 | dropping shadowed entries and obsolete deletions keeps what every snapshot at or above the smallest one reads, unless an older entry outside comes to light |
| DropRules.NewestNotShadowed | JamSession/Pods/leveldb-library/db/db_impl.cc:944-947 | the newest entry that a protected snapshot sees is never dropped by rule (A) |
| DropRules.DroppedMarkerStaysHidden | JamSession/Pods/leveldb-library/db/db_impl.cc:948-960 | a deletion that is dropped hides nothing that the rest of the database could show |
| DropRules.UncoveredIsRead | JamSession/Pods/leveldb-library/db/db_impl.cc:929-963 | an older entry outside that a dropped deletion covered can be read again |
| DropRules.ViewsKeptExactlyWhen | JamSession/Pods/leveldb-library/db/db_impl.cc:929-963 | exact condition: every protected view is kept if and only if no dropped deletion uncovers an entry outside the inputs |
| DropRules.KeptSorted | JamSession/Pods/leveldb-library/db/db_impl.cc:929-963 | what is kept is still sorted |
| Compactions.MakeInputIterator | JamSession/Pods/leveldb-library/db/version_set.cc:1237-1268 | the merged sequence of the input iterator has exactly the entries of the inputs, in order; level-0 files apart, other levels joined |
| Compactions.RunsAreSorted | JamSession/Pods/leveldb-library/db/version_set.cc:1237-1268 | the runs given to the merging iterator are sorted |
| Compactions.RunsAreDisjoint | JamSession/Pods/leveldb-library/db/version_set.cc:1237-1268 | no two runs share an internal key |
| Compactions.OneHome | JamSession/Pods/leveldb-library/db/version_set.cc:1237-1268 | an input entry stands in one run only |
| Compactions.Compaction.IsBaseLevelForKey | JamSession/Pods/leveldb-library/db/version_set.cc:1533-1552 | on ascending keys the moving pointers answer exactly whether no file two or more levels below covers the key |
| Compactions.Compaction.ShouldStopBefore | JamSession/Pods/leveldb-library/db/version_set.cc:1554-1576 | an output stops exactly when the grandparents passed since it was begun, none before the first key, exceed the limit; then the count restarts |
| Compactions.CompactionState.Add | JamSession/Pods/leveldb-library/db/db_impl.cc:975-991 | an entry joins the current output, whose bounds are its first and last key |
| Compactions.CompactionState.FinishCompactionOutputFile | JamSession/Pods/leveldb-library/db/db_impl.cc:811-858 | the open output joins the outputs with its number, bounds and entries; what was added so far stays the same |
| Compactions.LastSequenceDecides | JamSession/Pods/leveldb-library/db/db_impl.cc:929-963 | the remembered sequence number of the last entry of the user key decides rule (A) as a search of all newer entries would |
| Compactions.DecideDrop | JamSession/Pods/leveldb-library/db/db_impl.cc:929-963 | one turn of the loop drops an entry exactly when one of the two rules says so, for the whole input |
| Compactions.ProcessEntry | JamSession/Pods/leveldb-library/db/db_impl.cc:896-995 | one turn of the loop adds the entry to the outputs exactly when it is kept |
| Compactions.DoCompactionWork | JamSession/Pods/leveldb-library/db/db_impl.cc:878-1000 | the outputs hold exactly the kept entries of the merged inputs, in order |
| Compactions.PiecesInOrder | JamSession/Pods/leveldb-library/db/db_impl.cc:975-991 | cutting the kept entries into files gives disjoint files in order |
| CompactionResults.CompactionKeepsInvariant | JamSession/Pods/leveldb-library/db/db_impl.cc:860-876 | replacing the inputs by sorted disjoint outputs keeps the order of ages between levels, disjoint levels and distinct file numbers |
| CompactionResults.CompactedEntries | JamSession/Pods/leveldb-library/db/db_impl.cc:860-876 | afterwards the version holds the outputs and what was not selected, and nothing else |
| CompactionResults.CompactionKeepsViews | JamSession/Pods/leveldb-library/db/db_impl.cc:878-1000 | inputs chosen on one version and replaced on a later one: every protected view stays the same if and only if no dropped deletion uncovers an entry that stays |
| CompactionResults.NothingLeftBehind | JamSession/Pods/leveldb-library/db/db_impl.cc:878-1000 | a compaction is harmless when its lower inputs leave no older entry of their user keys behind, whatever newer entries came in since |
| CompactionResults.SelectedFit | JamSession/Pods/leveldb-library/db/version_set.cc:746-750 | outputs stand apart from every file of the output level that was there when the inputs were chosen |
| CompactionResults.NoBoundaryKeepsNewer | JamSession/Pods/leveldb-library/db/version_set.cc:1407-1411 | without a boundary file at its end the lower selection leaves no older entry of its user keys behind |
| CompactionResults.RestIsNewer | JamSession/Pods/leveldb-library/db/db_impl.cc:878-1000 | entries that were not selected are newer than inputs of the same user key, or lie below the output level |
| CompactionResults.EditCompacts | JamSession/Pods/leveldb-library/db/db_impl.cc:860-876 | the edit of a compaction, applied to the version, replaces exactly the inputs by the outputs |
| CompactionResults.InstallCompactionResults | JamSession/Pods/leveldb-library/db/db_impl.cc:860-876 | the new version follows from the old one by that edit |
| CompactionResults.MoveIsOk | JamSession/Pods/leveldb-library/db/db_impl.cc:695-725 | a trivial move is a compaction whose output is its input |
| CompactionResults.MoveKeepsEntries | JamSession/Pods/leveldb-library/db/db_impl.cc:695-725 | a trivial move leaves the entries of the version as they are |
| CompactionResults.BackgroundCompaction | JamSession/Pods/leveldb-library/db/db_impl.cc:688-767 | the picked files and what belongs to them are replaced by exactly what the drop rules keep of their merged entries, in new files, or the one file is moved; the version keeps its invariant |
| SplitKey.Selects | JamSession/Pods/leveldb-library/db/version_set.cc:1403-1462 | in the state shown, SetupOtherInputs selects the lower file that ends in the middle of a user key, and not the next one |
| SplitKey.MarkerUncovers | JamSession/Pods/leveldb-library/db/version_set.cc:1533-1552 | the deletion at the end of that file is dropped, although an older value stays behind on the same level |
| SplitKey.CompactionBringsValueBack | JamSession/Pods/leveldb-library/db/version_set.cc:1407-1411 | whatever outputs are made of these inputs, a key that read as deleted reads as its old value afterwards |
| SplitKey.IsolationCanFail | JamSession/Pods/leveldb-library/db/version_set.cc:1407-1411 | a run of the store in which a live snapshot reads a key first as deleted and then as its old value |
| MemTableFlush.SomeFileOverlapsRange | JamSession/Pods/leveldb-library/db/version_set.cc:122-157 | answers exactly whether some file overlaps the user range, by binary search on disjoint levels |
| MemTableFlush.PickLevelForMemTableOutput | JamSession/Pods/leveldb-library/db/version_set.cc:491-516 | level 0 if that overlaps; otherwise as far down as nothing overlaps the range and the level below that does not overlap too much, two levels at most |
| MemTableFlush.CompactMemTable | JamSession/Pods/leveldb-library/db/db_impl.cc:535-566 | one file with the entries of the memtable, their bounds and the next number joins the level picked, and nothing else changes; an empty memtable changes nothing |
| MemTableFlush.FlushedKeeps | JamSession/Pods/leveldb-library/db/db_impl.cc:490-566 | that keeps the invariant of versions and adds exactly the entries of the memtable |
| MemTableFlush.AddingKeepsInvariant | JamSession/Pods/leveldb-library/db/version_set.cc:491-516 | a file of newer entries on the level picked keeps the ages of levels and disjointness |
| MemTableFlush.AddedEntries | JamSession/Pods/leveldb-library/db/version_set.cc:695-739 | adding a file adds exactly its entries |
| Snapshots.SnapshotList.constructor | JamSession/Pods/leveldb-library/db/snapshot.h:41-44 | a new list is an empty ring |
| Snapshots.SnapshotList.IsEmpty | JamSession/Pods/leveldb-library/db/snapshot.h:46 | the list is empty exactly when its head links to itself |
| Snapshots.SnapshotList.Oldest | JamSession/Pods/leveldb-library/db/snapshot.h:47-50 | the oldest snapshot bounds every live one from below |
| Snapshots.SnapshotList.Newest | JamSession/Pods/leveldb-library/db/snapshot.h:51-54 | the newest snapshot bounds every live one from above |
| Snapshots.SnapshotList.New | JamSession/Pods/leveldb-library/db/snapshot.h:57-70 | a new snapshot is linked in behind all others and the ring stays whole |
| Snapshots.SnapshotList.Delete | JamSession/Pods/leveldb-library/db/snapshot.h:79-86 | exactly that snapshot is unlinked and the ring stays whole |
| DatabaseRuns.FlushKeepsInv | JamSession/Pods/leveldb-library/db/db_impl.cc:535-566 | a flush, also one in the middle of a compaction, keeps the invariant and every entry of the database |
| DatabaseRuns.GainKeepsChosen | JamSession/Pods/leveldb-library/db/db_impl.cc:904-913 | the inputs of a compaction at work stay good inputs of the version that a flush leads to |
| DatabaseRuns.InstallKeepsInv | JamSession/Pods/leveldb-library/db/db_impl.cc:860-876 | outputs made from inputs that were chosen earlier lead from the current version to a well-formed one |
| DatabaseRuns.MoveKeepsInv | JamSession/Pods/leveldb-library/db/db_impl.cc:709-727 | a trivial move keeps the invariant and every entry |
| DatabaseRuns.UntouchedLevelFits | JamSession/Pods/leveldb-library/db/version_set.cc:746-750 | the disjointness that SaveTo asserts holds unless a flush put a file on the output level in the meantime |
| DatabaseRuns.StepKeepsInv | JamSession/Pods/leveldb-library/db/db_impl.cc:535-876 | every step of a run - writes, memtable switches, flushes, snapshots, the beginning, the files and the end of a compaction, moves - keeps the database invariant |
| DatabaseRuns.InstallKeepsViewsExactlyWhen | JamSession/Pods/leveldb-library/db/db_impl.cc:878-1000 | installing a compaction, with anything in between since it began, keeps every view from its smallest_snapshot on if and only if it is harmless |
| DatabaseRuns.SafeSelectionIsHarmless | JamSession/Pods/leveldb-library/db/version_set.cc:1403-1411 | a compaction whose lower inputs AddBoundaryInputs would leave alone is harmless, whatever happens while it is at work |
| DatabaseRuns.StepKeepsView | JamSession/Pods/leveldb-library/db/db_impl.cc:535-876 | a step that is no harmful installation changes no read at a snapshot that the compaction at work knows of |
| DatabaseRuns.RunKeepsInv | JamSession/Pods/leveldb-library/db/db_impl.cc:535-876 | every state that a run reaches has the invariant |
| DatabaseRuns.LastRises | JamSession/Pods/leveldb-library/db/db_impl.cc:1187-1217 | the last sequence number never goes down |
| DatabaseRuns.ViewsAreStable | JamSession/Pods/leveldb-library/db/db_impl.cc:1166-1174 | a read at a protected snapshot gives the same answer after any number of steps |
| DatabaseRuns.SnapshotIsolation | JamSession/Pods/leveldb-library/db/db_impl.cc:1166-1174 | over every run, with writes, flushes and snapshots between the beginning and the end of compactions, a live snapshot reads what it read when it was taken, as long as no harmful compaction is installed |
| DatabaseRuns.SafeRunsAreIsolated | JamSession/Pods/leveldb-library/db/db_impl.cc:889-894 | the same for every run in which compactions begin with lower inputs that end without a boundary |
| Databases.MemTableGet | JamSession/Pods/leveldb-library/db/memtable.cc:100-134 | a search of the memtable returns the newest visible entry of the key, value or deletion, or nothing |
| Databases.InsertAll | JamSession/Pods/leveldb-library/db/write_batch.cc:116-137 | operations enter the memtable in order under consecutive sequence numbers; a value that was put is read, a deleted key is not, and every other read is as before |
| Databases.WritesAreRead | JamSession/Pods/leveldb-library/db/write_batch.cc:116-137 | after operations entered, a reader who sees the first k of them reads the last of those for the key, and of other keys and at older snapshots what was there before |
| Databases.DBImpl.constructor | JamSession/Pods/leveldb-library/db/db_impl.cc:1474-1515 | a new database is empty and has the invariant |
| Databases.DBImpl.InsertInto | JamSession/Pods/leveldb-library/db/db_impl.cc:1200-1230 | a write is a step of the database; what it put is read and what it deleted is gone at each of its sequence numbers, other keys and older snapshots read as before |
| Databases.DBImpl.SwitchMemTable | JamSession/Pods/leveldb-library/db/db_impl.cc:1355-1366 | the full memtable becomes the immutable one |
| Databases.DBImpl.CompactMemTable | JamSession/Pods/leveldb-library/db/db_impl.cc:535-566 | the immutable memtable moves into the version and no read changes |
| Databases.DBImpl.GetSnapshot | JamSession/Pods/leveldb-library/db/db_impl.cc:1166-1169 | a snapshot of the last sequence number is taken |
| Databases.DBImpl.ReleaseSnapshot | JamSession/Pods/leveldb-library/db/db_impl.cc:1171-1174 | exactly that snapshot is released |
| Databases.DBImpl.Compact | JamSession/Pods/leveldb-library/db/db_impl.cc:688-767 | the steps of a run one after the other, or a move; a rewriting compaction changes no protected view if and only if it is harmless |
| Databases.AtOnceIsRun | JamSession/Pods/leveldb-library/db/db_impl.cc:878-1000 | a compaction without interruption is a run: its beginning, one step for each output, its installation |
| Databases.LayersDecide | JamSession/Pods/leveldb-library/db/db_impl.cc:1118-1136 | memtable, immutable memtable and version, asked in that order, give the read over all entries |
| Databases.DBImpl.Get | JamSession/Pods/leveldb-library/db/db_impl.cc:1100-1145 | the answer of a read is that of the flat set of all entries of all layers |
| Crc32c.ExtendConcat | JamSession/Pods/leveldb-library/util/crc32c.cc:276-377 | extending over a concatenation is extending twice |
| Crc32c.ShiftLinear | JamSession/Pods/leveldb-library/util/crc32c.cc:20-63 | shifting the register is linear over exclusive or |
| Crc32c.ShiftCompose | JamSession/Pods/leveldb-library/util/crc32c.cc:20-63 | shifts compose, so tables of longer shifts can be built from shorter ones |
| Crc32c.Step1 | JamSession/Pods/leveldb-library/util/crc32c.cc:287-291 | a table lookup and a shift by a byte are eight shifts of one bit |
| Crc32c.FoldWord | JamSession/Pods/leveldb-library/util/crc32c.cc:249-251 | four bytes go through the register as one little-endian word |
| Crc32c.StrideAdvances | JamSession/Pods/leveldb-library/util/crc32c.cc:294-300 | four lookups in the stride tables advance a partial result by the 16 bytes of a swath |
| Crc32c.CombineSplit | JamSession/Pods/leveldb-library/util/crc32c.cc:360-365 | the first stride and the others contribute separately to the combined result |
| Crc32c.SwathStep | JamSession/Pods/leveldb-library/util/crc32c.cc:303-310 | a swath put word by word into the four strides is the swath put through the register |
| Crc32c.RotateStep | JamSession/Pods/leveldb-library/util/crc32c.cc:349-358 | a single word goes into the first stride, and the strides change places |
| Crc32c.CombineWord | JamSession/Pods/leveldb-library/util/crc32c.cc:313-320 | combining a loaded word is shifting it through the register byte by byte |
| Crc32c.ExtendStrides | JamSession/Pods/leveldb-library/util/crc32c.cc:332-366 | the strided part leaves the register where the bit-by-bit fold would |
| Crc32c.Extend | JamSession/Pods/leveldb-library/util/crc32c.cc:276-377 | for every length and start alignment the striped result is the bit-by-bit CRC-32C |
| Crc32c.MaskUnmask | JamSession/Pods/leveldb-library/util/crc32c.h:29-38 | masking and unmasking undo each other, in both orders |
| Crc32c.MaskIs | JamSession/Pods/leveldb-library/util/crc32c.h:29-32 | a masked checksum is the checksum turned right by 15 bits, plus the constant |
| CrcDetection.FoldInjective | JamSession/Pods/leveldb-library/util/crc32c.cc:287-291 | registers that differ still differ after the same bytes |
| CrcDetection.DamageChangesCrc | JamSession/Pods/leveldb-library/util/crc32c.cc:276-377 | damage within four consecutive bytes, wherever they are, changes the checksum |
| CrcDetection.CheckValue | JamSession/Pods/leveldb-library/util/crc32c.cc:276-377 | the checksum of the digits from 1 to 9 is the published check value of CRC-32C |
| Bytes.ByteRoundTrip | JamSession/Pods/leveldb-library/util/coding.cc:9-18 | a number below 256 comes back from its byte |
| Coding.FixedRoundTrip | JamSession/Pods/leveldb-library/util/coding.cc:9-33 | a fixed-length number comes back from its bytes |
| Coding.FixedArrayAt | JamSession/Pods/leveldb-library/util/coding.cc:35-39 | the i-th number of an array of fixed32 numbers stands at four times i |
| Coding.VarintRoundTrip | JamSession/Pods/leveldb-library/util/coding.cc:47-96 | a variable-length number comes back from its bytes with what follows it untouched |
| Coding.Varint32RoundTrip | JamSession/Pods/leveldb-library/util/coding.cc:112-140 | every 32-bit number is read back by the 32-bit reader |
| Coding.Varint64RoundTrip | JamSession/Pods/leveldb-library/util/coding.cc:142-169 | every 64-bit number is read back by the 64-bit reader |
| Coding.PutVarint32 | JamSession/Pods/leveldb-library/util/coding.cc:47-79 | the five cases write the groups of seven bits, lowest first |
| Coding.PutVarint64 | JamSession/Pods/leveldb-library/util/coding.cc:81-96 | the loop writes the groups of seven bits, lowest first |
| Coding.ReadGroups | JamSession/Pods/leveldb-library/util/coding.cc:112-157 | the readers' loop takes at most the allowed bytes and gives the number, cut to the register, or fails |
| Coding.GetVarint32 | JamSession/Pods/leveldb-library/util/coding.cc:112-140 | the fast path for one byte and the fallback agree |
| Coding.GetVarint64 | JamSession/Pods/leveldb-library/util/coding.cc:142-169 | reads at most ten bytes |
| Coding.PrefixedRoundTrip | JamSession/Pods/leveldb-library/util/coding.cc:98-101 | a string with its length in front comes back, with what follows it untouched |
| Coding.GetLengthPrefixedSlice | JamSession/Pods/leveldb-library/util/coding.cc:181-190 | fails exactly when the length does not parse or announces more than there is |
| Coding.PutLengthPrefixedSlice | JamSession/Pods/leveldb-library/util/coding.cc:98-101 | appends the length and the string |
| Logs.Fixed32RoundTrip | JamSession/Pods/leveldb-library/util/coding.cc:9-18 | a 32-bit word comes back from its four bytes |
| Logs.Writer.constructor | JamSession/Pods/leveldb-library/db/log_writer.cc:23-25 | a new log is empty |
| Logs.Writer.Reopen | JamSession/Pods/leveldb-library/db/log_writer.cc:27-30 | a log with contents goes on where its length leaves off in the block |
| Logs.Writer.SwitchBlock | JamSession/Pods/leveldb-library/db/log_writer.cc:44-53 | a trailer too short for a header is filled with zeros |
| Logs.Writer.EmitPhysicalRecord | JamSession/Pods/leveldb-library/db/log_writer.cc:82-108 | a fragment is its checksum over type and payload, its length, its type and the payload, and does not cross the block |
| Logs.Writer.AddRecord | JamSession/Pods/leveldb-library/db/log_writer.cc:34-80 | a record of any length, also an empty one, is appended as the fragments that the blocks require |
| Logs.PhysicalIs | JamSession/Pods/leveldb-library/db/log_writer.cc:93-96 | continuing the checksum of the type over the payload is the checksum of both |
| LogReaders.Reader.Refill | JamSession/Pods/leveldb-library/db/log_reader.cc:189-200 | the next block, or the rest of the file, is read and a trailer skipped |
| LogReaders.Reader.ParseBuffer | JamSession/Pods/leveldb-library/db/log_reader.cc:218-268 | one physical record is taken off the buffer, or the rest of it is dropped and reported |
| LogReaders.Reader.ReadPhysicalRecord | JamSession/Pods/leveldb-library/db/log_reader.cc:189-271 | for any file contents, the fragment, bad record or end that the bytes at the position mean |
| LogReaders.Reader.ReadRecord | JamSession/Pods/leveldb-library/db/log_reader.cc:56-174 | for any file contents, the record that the fragments from the position on make up, with every report of dropped bytes |
| LogReaders.BufferParses | JamSession/Pods/leveldb-library/db/log_reader.cc:189-271 | the buffer always is the rest of the block at the reader's position |
| LogCrashes.HeaderBack | JamSession/Pods/leveldb-library/db/log_reader.cc:217-221 | length, type and checksum are read back from a header |
| LogCrashes.WholeParses | JamSession/Pods/leveldb-library/db/log_reader.cc:217-268 | a whole physical record parses to itself, with or without checksums |
| LogCrashes.CutParses | JamSession/Pods/leveldb-library/db/log_reader.cc:222-231 | a record that the file ends within is the end of the file, not a corruption |
| LogCrashes.PaddingSkipped | JamSession/Pods/leveldb-library/db/log_reader.cc:189-212 | the zero trailer of a block is skipped |
| LogCrashes.FragmentBack | JamSession/Pods/leveldb-library/db/log_reader.cc:189-271 | a fragment is read whole, or the file ends within it |
| LogCrashes.RecordBack | JamSession/Pods/leveldb-library/db/log_reader.cc:56-174 | a record is read whole if the file has all of its bytes; otherwise the file just ends, and nothing is reported |
| LogCrashes.CutLogReadsBack | JamSession/Pods/leveldb-library/db/log_reader.cc:56-174 | a log cut off at any byte gives back the first k records, with no corruption reported, if and only if k is the number of records wholly inside |
| LogCrashes.LogReadsBack | JamSession/Pods/leveldb-library/db/log_reader.cc:56-174 | an uncut log gives back every record, in order |
| LogCrashes.CompleteExists | JamSession/Pods/leveldb-library/db/log_reader.cc:56-174 | there is a number of records wholly inside every prefix |
| LogCrashes.CompleteIsUnique | JamSession/Pods/leveldb-library/db/log_reader.cc:56-174 | and only one |
| LogCrashes.ReadAll | JamSession/Pods/leveldb-library/db/db_impl.cc:412-414 | the recovery loop over a fresh reader returns everything there is to read |
| SkipLists.SkipList.constructor | JamSession/Pods/leveldb-library/db/skiplist.h:321-331 | a new list is empty at every level |
| SkipLists.SkipList.FindGreaterOrEqual | JamSession/Pods/leveldb-library/db/skiplist.h:260-283 | finds the first key not below the target, and the node before it at every level in use |
| SkipLists.SkipList.FindLessThan | JamSession/Pods/leveldb-library/db/skiplist.h:285-302 | finds the last node below the key, or the head |
| SkipLists.SkipList.FindLast | JamSession/Pods/leveldb-library/db/skiplist.h:305-319 | finds the last node, or the head |
| SkipLists.SkipList.Insert | JamSession/Pods/leveldb-library/db/skiplist.h:336-368 | adds exactly one key at its place; every single store on the way leaves strictly sorted levels, each a sublist of the one below |
| SkipLists.SkipList.Contains | JamSession/Pods/leveldb-library/db/skiplist.h:371-378 | answers exactly whether the key is in the list |
| SkipLists.LevelGains | JamSession/Pods/leveldb-library/db/skiplist.h:360-366 | linking a node at its place adds it to the level and keeps the level sorted |
| SkipLists.PreparedIsGood | JamSession/Pods/leveldb-library/db/skiplist.h:363-365 | setting the links of a node that is not linked yet disturbs no level |
| SkipLists.PublishedIsGood | JamSession/Pods/leveldb-library/db/skiplist.h:363-366 | publishing a node at a level, after the levels below, keeps every level good |
| SkipLists.HigherIsGood | JamSession/Pods/leveldb-library/db/skiplist.h:346-358 | raising the maximum height before anything is linked there is harmless |
| SkipLists.SearchLinearizes | JamSession/Pods/leveldb-library/db/skiplist.h:260-283 | a search whose loads interleave with stores answers correctly for the list at the moment of its last load, from the old or the new maximum height |
| SkipLists.ConcurrentSearch | JamSession/Pods/leveldb-library/db/skiplist.h:260-283 | the same for turns taken at any moments of a history of insertions |
| SkipLists.Iterator.Next | JamSession/Pods/leveldb-library/db/skiplist.h:207-210 | moves to the next key |
| SkipLists.Iterator.Prev | JamSession/Pods/leveldb-library/db/skiplist.h:213-221 | moves to the key before, found by a search from the top |
| SkipLists.Iterator.Seek | JamSession/Pods/leveldb-library/db/skiplist.h:224-226 | moves to the first key not below the target |
| SkipLists.Iterator.SeekToFirst | JamSession/Pods/leveldb-library/db/skiplist.h:229-231 | moves to the first key |
| SkipLists.Iterator.SeekToLast | JamSession/Pods/leveldb-library/db/skiplist.h:234-239 | moves to the last key, or none |
| WriteBatches.RecordRoundTrip | JamSession/Pods/leveldb-library/db/write_batch.cc:42-80 | an operation comes back from its record |
| WriteBatches.BatchRoundTrip | JamSession/Pods/leveldb-library/db/write_batch.cc:42-80 | iterating over a batch gives back its operations in order, and the count agrees |
| WriteBatches.RepParts | JamSession/Pods/leveldb-library/db/write_batch.cc:82-96 | sequence number and count are read back from the header |
| WriteBatches.WriteBatch.constructor | JamSession/Pods/leveldb-library/db/write_batch.cc:31-38 | a new batch is empty |
| WriteBatches.WriteBatch.SetSequence | JamSession/Pods/leveldb-library/db/write_batch.cc:94-96 | only the sequence number changes |
| WriteBatches.WriteBatch.Put | JamSession/Pods/leveldb-library/db/write_batch.cc:98-103 | one more operation at the end, and the count goes up |
| WriteBatches.WriteBatch.Delete | JamSession/Pods/leveldb-library/db/write_batch.cc:105-109 | one more deletion at the end, and the count goes up |
| WriteBatches.WriteBatch.Append | JamSession/Pods/leveldb-library/db/write_batch.cc:144-148 | the operations of both batches, in order |
| WriteBatches.WriteBatch.ReadRecord | JamSession/Pods/leveldb-library/db/write_batch.cc:57-76 | for any bytes, the record that stands there, or that it is malformed |
| WriteBatches.WriteBatch.Iterate | JamSession/Pods/leveldb-library/db/write_batch.cc:42-80 | for any bytes, the handler calls that the records make and whether they end well |
| WriteBatches.WriteBatch.InsertInto | JamSession/Pods/leveldb-library/db/write_batch.cc:116-137 | operations get consecutive sequence numbers from that of the batch |
| LogIntegrity.ParseIs | JamSession/Pods/leveldb-library/db/log_reader.cc:209-272 | for any bytes, a checking reader takes a fragment exactly when they are those that the writer makes of it; it drops anything else with the rest of the block, and reports it unless it is an empty record of type zero |
| LogIntegrity.ParsedExactlyWhen | JamSession/Pods/leveldb-library/db/log_reader.cc:209-272 | a fragment of a kind and a payload comes out if and only if its bytes went in |
| LogIntegrity.DamageIsNoticed | JamSession/Pods/leveldb-library/db/log_reader.cc:243-256 | damage within four consecutive bytes of the type and the payload of a record is always refused and reported |
| LogIntegrity.FragmentStands | JamSession/Pods/leveldb-library/db/log_reader.cc:191-273 | every fragment that is read stands in the file as the writer makes it, inside one block, at the reader's position or behind the trailer there |
| LogIntegrity.RecordIsMade | JamSession/Pods/leveldb-library/db/log_reader.cc:60-186 | for any file, a record that is returned is a full fragment, or a first one, middle ones and a last one, each right behind the one before |
| LogIntegrity.RecordsAreMade | JamSession/Pods/leveldb-library/db/log_reader.cc:60-186 | the same for all records of a log, which stand apart from each other in the order of the file |
| LogIntegrity.EmptyRecord | JamSession/Pods/leveldb-library/db/log_writer.cc:82-108 | the seven bytes of an empty record |
| LogAccounts.RecordBalances | JamSession/Pods/leveldb-library/db/log_reader.cc:60-186 | one call: what was seen is in the record, in the reports, or left for later calls |
| LogAccounts.NothingIsLost | JamSession/Pods/leveldb-library/db/log_reader.cc:60-186 | for any file, every byte of payload that is seen is in a record, is reported, or belongs to a record that the file ends within |
| Spellings.FixedAt | JamSession/Pods/leveldb-library/util/coding.h:48-58 | byte k of a fixed-length number counts the 256^k |
| Spellings.FixedForth | JamSession/Pods/leveldb-library/util/coding.h:60-85 | any bytes come back from the fixed-length number that is read from them |
| Spellings.VarintIs | JamSession/Pods/leveldb-library/util/coding.cc:47-96 | a number is written in groups of seven bits that sum up to it, and in as few as possible |
| Spellings.GroupsAreRead | JamSession/Pods/leveldb-library/util/coding.cc:112-157 | any groups whose high bits say how many they are, canonical or not, are read as their sum |
| Spellings.ReadAreGroups | JamSession/Pods/leveldb-library/util/coding.cc:112-157 | nothing else is read as a number |
| Spellings.Number32Exactly | JamSession/Pods/leveldb-library/util/coding.cc:112-140 | a 32-bit number is read if and only if up to five groups of it stand there |
| Spellings.Number64Exactly | JamSession/Pods/leveldb-library/util/coding.cc:142-168 | a 64-bit number is read if and only if up to ten groups of it stand there |
| Spellings.TextExactly | JamSession/Pods/leveldb-library/util/coding.cc:181-189 | a string is read if and only if its length and its bytes stand there |
| EditSpellings.BodyExactly | JamSession/Pods/leveldb-library/db/version_edit.cc:117-200 | what stands behind a tag is read as a field if and only if it is the numbers and strings of that field, with a level below 7 |
| EditSpellings.ItemExactly | JamSession/Pods/leveldb-library/db/version_edit.cc:115-200 | the same for a field with its tag, tags being the numbers in the file |
| EditSpellings.DecodedExactlyWhen | JamSession/Pods/leveldb-library/db/version_edit.cc:107-212 | for any bytes, an edit is accepted if and only if they are whole fields of existing levels one behind the other, and then these fields are applied in order |
| BatchSpellings.OpExactly | JamSession/Pods/leveldb-library/db/write_batch.cc:56-78 | a record is read as an operation if and only if it is the byte 1 or 0 and the strings of a put or a deletion |
| BatchSpellings.IteratedExactlyWhen | JamSession/Pods/leveldb-library/db/write_batch.cc:42-84 | for any bytes, iterating makes the operations that stand behind the header up to where none starts, and ends well if and only if nothing is left and the count is theirs |
| BlockSpellings.EntrySpelled | JamSession/Pods/leveldb-library/table/block_builder.cc:91-99 | an entry is written as three lengths, what is new of its key, and its value |
| BlockSpellings.FastIsSlow | JamSession/Pods/leveldb-library/table/block.cc:59-68 | the path for three small lengths agrees with the general one |
| BlockSpellings.DecodedExactlyWhen | JamSession/Pods/leveldb-library/table/block.cc:54-77 | for any bytes, an entry is read if and only if three lengths stand there in at least three bytes and leave room for what they announce |
| GroupCommits.BuildBatchGroup | JamSession/Pods/leveldb-library/db/db_impl.cc:1260-1306 | the group is the longest run of writers from the front that sync and size allow; the batch has all their operations in order, and no caller's batch is changed |
| GroupCommits.GroupIsSmall | JamSession/Pods/leveldb-library/db/db_impl.cc:1261-1295 | a group is no larger than a megabyte unless its first write alone is, and a first write of up to 128 KB waits for no more than that much besides |
| GroupCommits.GroupFits | JamSession/Pods/leveldb-library/db/db_impl.cc:1268-1295 | the size limit keeps the number of operations of a group within its count |
| GroupCommits.EntersKeepsInv | JamSession/Pods/leveldb-library/db/db_impl.cc:1185-1196 | a new writer joins the end of the queue |
| GroupCommits.BeginsKeepsInv | JamSession/Pods/leveldb-library/db/db_impl.cc:1201-1207 | a group is formed while others may still join the queue |
| GroupCommits.PassesKeepsInv | JamSession/Pods/leveldb-library/db/db_impl.cc:1201-1203 | a writer without a batch, or without room, is done alone |
| GroupCommits.EndsKeepsInv | JamSession/Pods/leveldb-library/db/db_impl.cc:1207-1253 | after logging and applying, exactly the group leaves the queue with its status, and the new front is woken |
| GroupCommits.StepKeepsInv | JamSession/Pods/leveldb-library/db/db_impl.cc:1185-1256 | every step of every interleaving keeps the protocol invariant, and writers leave in the order in which they came |
| GroupCommits.RunKeepsInv | JamSession/Pods/leveldb-library/db/db_impl.cc:1185-1256 | every state that an interleaving reaches has the invariant |
| GroupCommits.ServedInOrder | JamSession/Pods/leveldb-library/db/db_impl.cc:1185-1256 | groups are consecutive runs of the arrivals, in order |
| GroupCommits.SomebodyCanGo | JamSession/Pods/leveldb-library/db/db_impl.cc:1191-1199 | no wake-up is lost: while anybody waits, the front writer is awake and has a step |
| GroupCommits.SequencesAscend | JamSession/Pods/leveldb-library/db/db_impl.cc:1204-1207 | operations get ascending sequence numbers that are never used twice |
| GroupCommits.WriteIsThere | JamSession/Pods/leveldb-library/db/db_impl.cc:1222-1224 | a write that was told ok stands in the memtable as one stretch under consecutive sequence numbers, behind the earlier writes of its group |
| GroupCommits.OnePlace | JamSession/Pods/leveldb-library/db/db_impl.cc:1233-1253 | no writer is in two groups, twice in one, or in a group and in the queue |
| Recovery.RecoverLogFile | JamSession/Pods/leveldb-library/db/db_impl.cc:372-450 | recovery replays the records of the log into a memtable and finds the highest sequence number |
| Recovery.ReplayBack | JamSession/Pods/leveldb-library/db/db_impl.cc:411-435 | replaying the records of some groups gives exactly their entries |
| Recovery.CrashRecovers | JamSession/Pods/leveldb-library/db/db_impl.cc:372-450 | after a crash that left any prefix of the log, recovery finds exactly the entries of the groups whose records are complete: each group whole or not at all, in order |
| Recovery.SyncedSurvives | JamSession/Pods/leveldb-library/db/db_impl.cc:1213-1220 | a write acknowledged after a sync survives every crash that keeps the synced records |
| Recovery.RecoveredSequence | JamSession/Pods/leveldb-library/db/db_impl.cc:435-439 | the sequence number that recovery goes on from is not below that of any entry it found nor above the last one given out, and is the end of a group it found or the number it started with |
| Recovery.RecoveredIsPrefix | JamSession/Pods/leveldb-library/db/db_impl.cc:372-450 | as long as no sync failed, what recovery finds is a prefix of what the memtable held |
| HandleTables.HandleTable.constructor | JamSession/Pods/leveldb-library/util/cache.cc:71 | a new table is empty |
| HandleTables.HandleTable.FindPointer | JamSession/Pods/leveldb-library/util/cache.cc:114-120 | the place of a name in its chain, or the end of the chain when it is not there |
| HandleTables.HandleTable.Lookup | JamSession/Pods/leveldb-library/util/cache.cc:74-76 | agrees with the map that the chains hold |
| HandleTables.HandleTable.Insert | JamSession/Pods/leveldb-library/util/cache.cc:78-92 | maps the name to the handle and returns the handle it replaces |
| HandleTables.HandleTable.Remove | JamSession/Pods/leveldb-library/util/cache.cc:94-102 | takes the name out of the map and returns its handle |
| HandleTables.HandleTable.Resize | JamSession/Pods/leveldb-library/util/cache.cc:122-146 | moves every slot once; the map stays as it is and the chains stay short on average |
| LruRings.RemovedRing | JamSession/Pods/leveldb-library/util/cache.cc:239-242 | unlinking an entry takes exactly that entry out of its ring |
| LruRings.AppendedRing | JamSession/Pods/leveldb-library/util/cache.cc:244-250 | linking an entry in front of the head makes it the newest of its ring |
| LruRings.RingKept | JamSession/Pods/leveldb-library/util/cache.cc:239-250 | a ring does not notice changes of other handles |
| LruCaches.ReferredKeeps | JamSession/Pods/leveldb-library/util/cache.cc:217-223 | a further client: the entry is in use, off the LRU list, and all counts still agree |
| LruCaches.DroppedKeeps | JamSession/Pods/leveldb-library/util/cache.cc:225-237 | a client less: the last one puts a cached entry at the end of the LRU list and frees one that is not cached |
| LruCaches.FinishedKeeps | JamSession/Pods/leveldb-library/util/cache.cc:307-316 | an entry that left the table leaves its list and the usage, and is freed at once exactly when no client holds it |
| LruCaches.MadeKeeps | JamSession/Pods/leveldb-library/util/cache.cc:272-296 | a new entry has one client, and the cache's reference when it is cached |
| LruCaches.InsertedKeeps | JamSession/Pods/leveldb-library/util/cache.cc:266-301 | a new entry under its name; the one it replaces leaves the cache |
| LruCaches.EvictedKeeps | JamSession/Pods/leveldb-library/util/cache.cc:292-298 | the oldest entry without clients leaves the table and is freed |
| LruCaches.LRUCache.constructor | JamSession/Pods/leveldb-library/util/cache.cc:197-203 | a new cache is empty |
| LruCaches.LRUCache.Ref | JamSession/Pods/leveldb-library/util/cache.cc:217-223 | as ReferredKeeps says |
| LruCaches.LRUCache.Unref | JamSession/Pods/leveldb-library/util/cache.cc:225-237 | frees at zero references, and moves a cached entry without clients to the LRU list |
| LruCaches.LRUCache.Lookup | JamSession/Pods/leveldb-library/util/cache.cc:252-259 | agrees with the table, and the entry found has one client more |
| LruCaches.LRUCache.Release | JamSession/Pods/leveldb-library/util/cache.cc:261-264 | gives one handle back |
| LruCaches.LRUCache.FinishErase | JamSession/Pods/leveldb-library/util/cache.cc:307-316 | as FinishedKeeps says |
| LruCaches.LRUCache.Erase | JamSession/Pods/leveldb-library/util/cache.cc:318-321 | the name is gone from the table, and the entry is freed with its last client |
| LruCaches.LRUCache.EvictOldest | JamSession/Pods/leveldb-library/util/cache.cc:292-298 | evicts exactly the oldest entry without clients |
| LruCaches.LRUCache.EvictToCapacity | JamSession/Pods/leveldb-library/util/cache.cc:292-298 | evicts oldest first, and no more than had to be |
| LruCaches.LRUCache.Insert | JamSession/Pods/leveldb-library/util/cache.cc:266-301 | afterwards usage is within capacity or nothing can be evicted; capacity 0 caches nothing |
| LruCaches.LRUCache.Prune | JamSession/Pods/leveldb-library/util/cache.cc:323-333 | evicts everything that no client holds, oldest first |
| LruCaches.AllFreed | JamSession/Pods/leveldb-library/util/cache.cc:205-215 | once clients have let go and the cache is pruned, every entry has been freed exactly once |
| LruCaches.InsertedIsFound | JamSession/Pods/leveldb-library/util/cache.cc:269-311 | an entry that was put into the cache is found under its name with its value and charge, whatever had to be freed for it; other names lead where they led, unless that was freed |
| LruCaches.CachedIsLive | JamSession/Pods/leveldb-library/util/cache.cc:252-259 | an entry in the table has not been freed |
| Blocks.BlockBuilder.constructor | JamSession/Pods/leveldb-library/table/block_builder.cc:38-45 | a new block has a restart point and no entries |
| Blocks.BlockBuilder.Reset | JamSession/Pods/leveldb-library/table/block_builder.cc:47-54 | back to an empty block |
| Blocks.BlockBuilder.SharedWith | JamSession/Pods/leveldb-library/table/block_builder.cc:80-84 | the length of the longest common prefix with the key before |
| Blocks.BlockBuilder.Add | JamSession/Pods/leveldb-library/table/block_builder.cc:72-106 | the block has one entry more, stored without the prefix it shares unless it is a restart point |
| Blocks.BlockBuilder.Finish | JamSession/Pods/leveldb-library/table/block_builder.cc:62-70 | the data, the offsets of the restart points and their number |
| Blocks.NextRestart | JamSession/Pods/leveldb-library/table/block_builder.cc:79-91 | a restart point is due exactly every interval entries |
| Blocks.RestartsGrow | JamSession/Pods/leveldb-library/table/block_builder.cc:87-90 | the restart array gains the offset of the entry exactly when it is a restart point |
| BlockIterators.DecodeBack | JamSession/Pods/leveldb-library/table/block.cc:55-74 | an encoded entry decodes to its three lengths and its bytes, on the fast path and on the slow one |
| BlockIterators.RestartBack | JamSession/Pods/leveldb-library/table/block.cc:99-102 | restart points are read back as the offsets of their entries |
| BlockIterators.BlockIter.constructor | JamSession/Pods/leveldb-library/table/block.cc:24-39 | number and offset of the restart points are read back from the end of the block |
| BlockIterators.BlockIter.SeekToRestartPoint | JamSession/Pods/leveldb-library/table/block.cc:104-112 | the next entry to parse is the restart point |
| BlockIterators.BlockIter.ParseNextKey | JamSession/Pods/leveldb-library/table/block.cc:224-251 | the next entry becomes current with its key restored, or the cursor is at the end |
| BlockIterators.BlockIter.SeekToFirst | JamSession/Pods/leveldb-library/table/block.cc:203-206 | at the first entry |
| BlockIterators.BlockIter.SeekToLast | JamSession/Pods/leveldb-library/table/block.cc:208-213 | at the last entry |
| BlockIterators.BlockIter.Next | JamSession/Pods/leveldb-library/table/block.cc:137-140 | at the next entry, or the end |
| BlockIterators.BlockIter.Prev | JamSession/Pods/leveldb-library/table/block.cc:142-161 | at the entry before, or the end when there is none |
| BlockIterators.BlockIter.FindRegionOf | JamSession/Pods/leveldb-library/table/block.cc:163-191 | every entry before the restart point found is below the target |
| BlockIterators.BlockIter.Seek | JamSession/Pods/leveldb-library/table/block.cc:163-201 | at the first entry whose key is not below the target, as a search of all entries would find |
| BlockIterators.MidKey | JamSession/Pods/leveldb-library/table/block.cc:170-181 | at a restart point the key stands in full |
| Separators.Total | JamSession/Pods/leveldb-library/util/comparator.cc:25-27 | the byte order is total |
| Separators.Transitive | JamSession/Pods/leveldb-library/util/comparator.cc:25-27 | the byte order is transitive |
| Separators.FindShortestSeparator | JamSession/Pods/leveldb-library/util/comparator.cc:29-50 | a string no longer than start, in [start, limit) when start is below limit; start cut behind its first byte that has room, which is increased, and start itself when none has |
| Separators.FindShortSuccessor | JamSession/Pods/leveldb-library/util/comparator.cc:52-64 | the shortest string that is not below the key: cut behind its first byte that is not 0xff, which is increased; the key itself exactly when there is none |
| Separators.KeyTransitive | JamSession/Pods/leveldb-library/db/dbformat.cc:51-67 | the internal key order on bytes is transitive |
| Separators.FindShortestInternalSeparator | JamSession/Pods/leveldb-library/db/dbformat.cc:69-86 | between two keys: when a user key shorter than that of start separates them it is taken, with the first tag, and otherwise start itself |
| Separators.FindShortInternalSuccessor | JamSession/Pods/leveldb-library/db/dbformat.cc:88-101 | the shortest successor of the user key with the first tag when it is shorter than the user key, and the key itself otherwise |
| Tables.TableBuilder.constructor | JamSession/Pods/leveldb-library/table/table_builder.cc:51-63 | a new table is empty |
| Tables.TableBuilder.Add | JamSession/Pods/leveldb-library/table/table_builder.cc:94-123 | the entry joins the table; the index key of the block before is made now that the next key is known |
| Tables.TableBuilder.Flush | JamSession/Pods/leveldb-library/table/table_builder.cc:125-139 | the data block is written out and the entries stay what they were |
| Tables.TableBuilder.Finish | JamSession/Pods/leveldb-library/table/table_builder.cc:198-253 | the table holds exactly what was added, and every index key routes: not below its block, below the next, and short of the next user key if shortened |
| Tables.TwoLevelIterator.InitDataBlock | JamSession/Pods/leveldb-library/table/two_level_iterator.cc:146-161 | the data cursor is open on the block of the index cursor |
| Tables.TwoLevelIterator.SkipEmptyDataBlocksForward | JamSession/Pods/leveldb-library/table/two_level_iterator.cc:115-126 | from the end of a block to the first entry of the next one |
| Tables.TwoLevelIterator.SkipEmptyDataBlocksBackward | JamSession/Pods/leveldb-library/table/two_level_iterator.cc:128-139 | from the front of a block to the last entry of the one before |
| Tables.TwoLevelIterator.Seek | JamSession/Pods/leveldb-library/table/two_level_iterator.cc:82-87 | the same place as a search of the whole table |
| Tables.TwoLevelIterator.SeekToFirst | JamSession/Pods/leveldb-library/table/two_level_iterator.cc:89-94 | at the first entry of the table |
| Tables.TwoLevelIterator.SeekToLast | JamSession/Pods/leveldb-library/table/two_level_iterator.cc:96-101 | at the last entry of the table |
| Tables.TwoLevelIterator.Next | JamSession/Pods/leveldb-library/table/two_level_iterator.cc:103-107 | at the next entry of the table |
| Tables.TwoLevelIterator.Prev | JamSession/Pods/leveldb-library/table/two_level_iterator.cc:109-113 | at the entry before, or none |
| Tables.RoutedSeek | JamSession/Pods/leveldb-library/table/two_level_iterator.cc:82-87 | the index leads to the block with the first entry not below the target, or to the one right before it |
| Tables.NextBlockDiffers | JamSession/Pods/leveldb-library/table/table.cc:216-244 | when the block found has nothing, the next block starts with another user key |
| Tables.InternalGet | JamSession/Pods/leveldb-library/table/table.cc:216-244 | finds the newest visible entry of the user key when the table has one, although only one block is looked at and a filter may say no |
| Blooms.BloomFilterPolicy.SetKey | JamSession/Pods/leveldb-library/util/bloom.cc:44-53 | sets exactly the bits that the key probes |
| Blooms.BloomFilterPolicy.CreateFilter | JamSession/Pods/leveldb-library/util/bloom.cc:28-54 | appends a filter whose bits are exactly the probes of its keys, with the number of probes behind them |
| Blooms.BloomFilterPolicy.KeyMayMatch | JamSession/Pods/leveldb-library/util/bloom.cc:56-80 | answers by the bits that the key probes; filters of unknown kinds match |
| Blooms.NoFalseNegative | JamSession/Pods/leveldb-library/util/bloom.cc:28-80 | a filter matches every key it was made of |
| Blooms.MatchesExactlyWhen | JamSession/Pods/leveldb-library/util/bloom.cc:28-80 | a filter matches a key if and only if each of its probes falls on a probe of a key that it was made of |
| Blooms.OtherKinds | JamSession/Pods/leveldb-library/util/bloom.cc:55-69 | a filter with more than 30 probes matches everything, and what is too short for a filter nothing |
| Blooms.IsSetIs | JamSession/Pods/leveldb-library/util/bloom.cc:48-50 | bits count from the lowest one of the first byte |
| Blooms.TurnedRight | JamSession/Pods/leveldb-library/util/bloom.cc:47-73 | the step between probes is the hash turned right by 17 bits |
| FilterBlocks.FilterBlockBuilder.StartBlock | JamSession/Pods/leveldb-library/table/filter_block.cc:21-27 | filters are generated up to the number of the block's offset |
| FilterBlocks.FilterBlockBuilder.AddKey | JamSession/Pods/leveldb-library/table/filter_block.cc:29-33 | the key is kept for the filter of its block |
| FilterBlocks.FilterBlockBuilder.GenerateFilter | JamSession/Pods/leveldb-library/table/filter_block.cc:51-75 | the keys collected are taken apart again and become the next filter; without keys it is empty |
| FilterBlocks.FilterBlockBuilder.Finish | JamSession/Pods/leveldb-library/table/filter_block.cc:35-49 | the filters, their offsets, the offset of those and the base; every key is in the group of its block's offset |
| FilterBlocks.OffsetsBack | JamSession/Pods/leveldb-library/table/filter_block.cc:90-95 | start and limit of a filter are read back |
| FilterBlocks.FilterBlockReader.KeyMayMatch | JamSession/Pods/leveldb-library/table/filter_block.cc:90-104 | asks the filter of the block's offset; an unknown block matches |
| FilterBlocks.BuiltFilterMatches | JamSession/Pods/leveldb-library/table/filter_block.cc:21-104 | whatever blocks and keys went in, the reader matches every key at the offset of its block |
| VersionEdits.ItemRoundTrip | JamSession/Pods/leveldb-library/db/version_edit.cc:41-205 | a tagged field comes back, with what follows it untouched |
| VersionEdits.EditRoundTrip | JamSession/Pods/leveldb-library/db/version_edit.cc:41-205 | decoding an encoding restores every field and uses up every byte; since Clear keeps compaction pointers, the edit comes back if and only if there were none before |
| VersionEdits.VersionEdit.Clear | JamSession/Pods/leveldb-library/db/version_edit.cc:26-39 | everything but the compaction pointers is gone |
| VersionEdits.VersionEdit.EncodeTo | JamSession/Pods/leveldb-library/db/version_edit.cc:41-85 | appends the fields in order |
| VersionEdits.VersionEdit.PutItem | JamSession/Pods/leveldb-library/db/version_edit.cc:42-84 | a tag and what stands behind it |
| VersionEdits.VersionEdit.GetBody | JamSession/Pods/leveldb-library/db/version_edit.cc:123-193 | for any bytes, the field that a tag announces, or that it is malformed |
| VersionEdits.VersionEdit.DecodeFrom | JamSession/Pods/leveldb-library/db/version_edit.cc:107-205 | for any bytes, the fields up to the first malformed one and whether all bytes were used |
| MemTables.KeyReadsBack | JamSession/Pods/leveldb-library/db/dbformat.cc:121-138 | the comparator sees in the bytes of an entry or of a lookup key exactly the user key and the packed tag |
| MemTables.ValueReadsBack | JamSession/Pods/leveldb-library/db/memtable.cc:76-98 | the key and the value of an entry are read back from its bytes |
| MemTables.EncodeEntry | JamSession/Pods/leveldb-library/db/memtable.cc:76-96 | the pieces fill the buffer of the computed length exactly and make up the entry |
| MemTables.MemTable.Compare | JamSession/Pods/leveldb-library/db/memtable.cc:28-34 | the bytes of entries and lookup keys, whatever follows the key in them, compare as the internal keys they were made of |
| MemTables.MemTable.Seek | JamSession/Pods/leveldb-library/db/memtable.cc:70-71 | lands on the first entry not below the target |
| MemTables.MemTable.Add | JamSession/Pods/leveldb-library/db/memtable.cc:76-98 | adds exactly one entry at its place in the order and keeps all others |
| MemTables.SeekFindsNewest | JamSession/Pods/leveldb-library/db/memtable.cc:100-113 | the first entry not below the lookup key is the newest one that the reader sees, if its user key is the one asked for; otherwise nothing is visible |
| MemTables.MemTable.Get | JamSession/Pods/leveldb-library/db/memtable.cc:100-136 | returns the value or deletion of the newest visible entry, and that it is absent exactly when nothing is visible |
| MemTables.AddedIsRead | JamSession/Pods/leveldb-library/db/memtable.cc:75-136 | a value that was added is read, and a key whose deletion was added is deleted, by every reader who sees it and nothing newer |
| MemTables.OthersAreTheSame | JamSession/Pods/leveldb-library/db/memtable.cc:75-136 | readers of other keys, and those who do not see the new entry, are told what they were told before |
| MemTables.InsertDecides | JamSession/Pods/leveldb-library/db/memtable.cc:76-136 | an added entry decides the reads that see it and nothing newer, and changes no other read |
| ProtobufFields.SharedCell | JamSession/Pods/nanopb/pb_common.c:44-50 | only members of one oneof share storage |
| ProtobufFields.RequiredAt | JamSession/Pods/nanopb/pb_common.c:20-76 | the indices of required fields are consecutive: every number below the count belongs to one |
| ProtobufFields.StoreKeepsShape | JamSession/Pods/nanopb/pb.h:239-251 | storing one field keeps the layout of the whole struct, unions included |
| ProtobufFields.FieldIter.Begin | JamSession/Pods/nanopb/pb_common.c:8-18 | stands on the first field, and says whether there is one |
| ProtobufFields.FieldIter.Next | JamSession/Pods/nanopb/pb_common.c:20-76 | place, storage and required index of the next field, or of the first one behind the last |
| ProtobufFields.FieldIter.Find | JamSession/Pods/nanopb/pb_common.c:78-97 | from any place in the circle, finds the field with the tag if and only if there is one |
| ProtobufEncoders.OStream.Write | JamSession/Pods/nanopb/pb_encode.c:103-128 | writes or only counts; fails exactly when a writing stream has no room, and then writes nothing |
| ProtobufEncoders.OStream.EncodeVarint | JamSession/Pods/nanopb/pb_encode.c:608-628 | a buffer of ten bytes is enough for 64 bits, and holds the base-128 groups |
| ProtobufEncoders.EncodeSvarint | JamSession/Pods/nanopb/pb_encode.c:630-639 | zigzag of every 64-bit number |
| ProtobufEncoders.EncodeFixed32 | JamSession/Pods/nanopb/pb_encode.c:641-650 | four bytes, the lowest first |
| ProtobufEncoders.EncodeFixed64 | JamSession/Pods/nanopb/pb_encode.c:653-667 | eight bytes, the lowest first |
| ProtobufEncoders.EncodeString | JamSession/Pods/nanopb/pb_encode.c:709-715 | length and contents, or a failure exactly when they do not fit |
| ProtobufEncoders.TextLength | JamSession/Pods/nanopb/pb_encode.c:875-895 | the length up to the terminator, or of the whole buffer |
| ProtobufEncoders.EncodeItem | JamSession/Pods/nanopb/pb_encode.c:769-913 | writes the encoding of the item; fails exactly when it has none or does not fit |
| ProtobufEncoders.EncodeEntries | JamSession/Pods/nanopb/pb_encode.c:182-231 | writes the items one by one, each with its tag or all without |
| ProtobufEncoders.FixedSize | JamSession/Pods/nanopb/pb_encode.c:167-174 | arrays of fixed-size numbers have the length that the table says, so they need no sizing pass |
| ProtobufEncoders.EncodePacked | JamSession/Pods/nanopb/pb_encode.c:161-200 | the length in front of a packed array is the length of what follows |
| ProtobufEncoders.EncodeArray | JamSession/Pods/nanopb/pb_encode.c:147-236 | packed or one by one; too many entries are refused |
| ProtobufEncoders.SecondPass | JamSession/Pods/nanopb/pb_encode.c:743-764 | the writing pass of a submessage fills exactly the room that the sizing pass asked for, so the size never changes |
| ProtobufEncoders.EncodeSubmessage | JamSession/Pods/nanopb/pb_encode.c:717-765 | counts first and writes then; fails exactly when the submessage has no encoding or does not fit |
| ProtobufEncoders.EncodeBasicField | JamSession/Pods/nanopb/pb_encode.c:341-426 | writes what is present of a field and nothing of what is absent |
| ProtobufEncoders.Encode | JamSession/Pods/nanopb/pb_encode.c:528-550 | succeeds exactly when every present field has an encoding and all of it fits; then precisely that was written, or counted, and never more than fits |
| ProtobufEncoders.GetEncodedSize | JamSession/Pods/nanopb/pb_encode.c:567-576 | the size is the length of what pb_encode writes |
| ProtobufInput.OrAbove | JamSession/Pods/nanopb/pb_decode.c:202-232 | groups of bits that do not overlap add up |
| ProtobufInput.Varint32Reads | JamSession/Pods/nanopb/pb_decode.c:187-247 | the 32-bit reader takes back what the encoder wrote for any 32-bit number, whatever follows |
| ProtobufInput.Varint32Refuses | JamSession/Pods/nanopb/pb_decode.c:215-232 | numbers from 2^32 below 2^63 are refused by the 32-bit reader, while the 64-bit reader takes them back |
| ProtobufInput.FieldExtends | JamSession/Pods/nanopb/pb_decode.c:321-331 | what a skipped field leaves behind does not depend on what follows |
| ProtobufInput.IStream.Read | JamSession/Pods/nanopb/pb_decode.c:102-137 | takes bytes from the front or finds too few |
| ProtobufInput.IStream.ReadByte | JamSession/Pods/nanopb/pb_decode.c:141-157 | takes one byte, or finds none |
| ProtobufInput.IStream.DecodeVarint32 | JamSession/Pods/nanopb/pb_decode.c:187-252 | for any bytes, the number at the front under all rules for overlong and sign-extended forms, or that there is none |
| ProtobufInput.IStream.DecodeVarint | JamSession/Pods/nanopb/pb_decode.c:255-275 | for any bytes, at most ten groups, cut to 64 bits |
| ProtobufInput.IStream.SkipVarint | JamSession/Pods/nanopb/pb_decode.c:278-287 | stands behind the varint |
| ProtobufInput.IStream.SkipString | JamSession/Pods/nanopb/pb_decode.c:289-296 | stands behind the string |
| ProtobufInput.IStream.DecodeTag | JamSession/Pods/nanopb/pb_decode.c:298-319 | field number and wire type, or the end: no more bytes, or a zero |
| ProtobufInput.IStream.SkipField | JamSession/Pods/nanopb/pb_decode.c:321-331 | stands behind a field of any wire type, as ProtobufSkips.SkippedExactlyWhen has it |
| ProtobufInput.IStream.MakeStringSubstream | JamSession/Pods/nanopb/pb_decode.c:372-385 | the substream has exactly the delimited bytes, and the stream leaves them out |
| ProtobufInput.IStream.CloseStringSubstream | JamSession/Pods/nanopb/pb_decode.c:387-400 | the stream goes on behind the delimited bytes, however many of them were read |
| ProtobufDecoders.ZeroCells | JamSession/Pods/nanopb/pb_decode.c:468-476 | cleared memory has the layout of the message |
| ProtobufDecoders.Defaults | JamSession/Pods/nanopb/pb_decode.c:839-922 | keeps the layout and leaves a message that is ready for decoding at every depth |
| ProtobufDecoders.FieldSetToDefault | JamSession/Pods/nanopb/pb_decode.c:839-909 | the default of one field |
| ProtobufDecoders.MessageSetToDefaults | JamSession/Pods/nanopb/pb_decode.c:911-922 | the defaults of all fields, recursively |
| ProtobufDecoders.NumberTaken | JamSession/Pods/nanopb/pb_decode.c:1339-1422 | a number is taken if and only if the field has an integer size that holds it, and then as what it stands for |
| ProtobufDecoders.DecVarint | JamSession/Pods/nanopb/pb_decode.c:1339-1422 | cast to the size of the field and compared |
| ProtobufDecoders.DecodePacked | JamSession/Pods/nanopb/pb_decode.c:436-452 | for any bytes, the items until the bytes or the array end |
| ProtobufDecoders.DecSubmessage | JamSession/Pods/nanopb/pb_decode.c:1519-1541 | a message of its own in the delimited bytes; only entries of arrays are set to defaults first |
| ProtobufDecoders.DecodeItem | JamSession/Pods/nanopb/pb_decode.c:68-82 | the decoder of the item's type |
| ProtobufDecoders.DecodeStaticField | JamSession/Pods/nanopb/pb_decode.c:406-483 | for any bytes and any wire type, what one record does to its field |
| ProtobufDecoders.DecodeField | JamSession/Pods/nanopb/pb_decode.c:991-1023 | arrays of fixed length are counted outside of the struct, one at a time |
| ProtobufDecoders.MarkSeen | JamSession/Pods/nanopb/pb_decode.c:1015-1020 | the bit of the required field is set and no other |
| ProtobufDecoders.WordWith | JamSession/Pods/nanopb/pb_decode.c:1018-1019 | setting a bit of a word adds its number to the set |
| ProtobufDecoders.LowBits | JamSession/Pods/nanopb/pb_decode.c:1056-1071 | a word equals its lowest bits being all set if and only if exactly these are in the set |
| ProtobufDecoders.CompareWords | JamSession/Pods/nanopb/pb_decode.c:1054-1072 | the comparison of words succeeds exactly when every required field was seen |
| ProtobufDecoders.CheckRequired | JamSession/Pods/nanopb/pb_decode.c:1034-1073 | counts the required fields by walking the descriptor and accepts exactly when the first 64 of them were seen |
| ProtobufDecoders.Run | JamSession/Pods/nanopb/pb_decode.c:928-1076 | whatever the bytes are, a decoded struct keeps its layout |
| ProtobufDecoders.DecodeNoinit | JamSession/Pods/nanopb/pb_decode.c:928-1076 | for any bytes, succeeds and leaves the struct exactly as the records say one after the other |
| ProtobufDecoders.Decode | JamSession/Pods/nanopb/pb_decode.c:1078-1090 | the same, from default values |
| ProtobufRoundTrips.DelimitedReads | JamSession/Pods/nanopb/pb_decode.c:372-385 | a delimited string is found again in front of anything |
| ProtobufRoundTrips.NumberBack | JamSession/Pods/nanopb/pb_decode.c:1339-1422 | every number that fits a signed, unsigned or zigzag field of 1, 2, 4 or 8 bytes comes back |
| ProtobufRoundTrips.StringReads | JamSession/Pods/nanopb/pb_decode.c:1481-1517 | a string comes back up to its terminator if and only if it has one in its buffer |
| ProtobufRoundTrips.ScalarReads | JamSession/Pods/nanopb/pb_decode.c:1328-1517 | every item that is not a message comes back, whatever was stored before |
| ProtobufRoundTrips.ItemReads | JamSession/Pods/nanopb/pb_decode.c:1519-1541 | every item comes back, submessages at any depth included |
| ProtobufRoundTrips.PackedReads | JamSession/Pods/nanopb/pb_decode.c:436-445 | a packed array fills the entries from the count on and leaves the others alone |
| ProtobufRoundTrips.SingleReads | JamSession/Pods/nanopb/pb_decode.c:413-481 | a required, optional or oneof field comes back; a oneof that changes its member starts from a fresh message |
| ProtobufRoundTrips.RecordsRead | JamSession/Pods/nanopb/pb_decode.c:455-465 | an array that is written entry by entry comes back, with its count |
| ProtobufRoundTrips.Advance | JamSession/Pods/nanopb/pb_decode.c:928-1024 | decoding a field leaves all fields before it decoded and all fields behind it ready, members of the same union included |
| ProtobufRoundTrips.FieldsRead | JamSession/Pods/nanopb/pb_decode.c:928-1024 | the rest of a message is decoded from any field on |
| ProtobufRoundTrips.Complete | JamSession/Pods/nanopb/pb_decode.c:1026-1073 | behind the last field all required fields were seen and all checks succeed |
| ProtobufRoundTrips.DecodeUndoesEncode | JamSession/Pods/nanopb/pb_decode.c:1078-1090 | for every descriptor and message, decoding the encoding into any struct gives the message back and uses up the bytes; it succeeds if and only if every present string is terminated |
| ProtobufRoundTrips.UnterminatedIsRefused | JamSession/Pods/nanopb/pb_decode.c:1481-1513 | a string that fills its buffer is encoded and not decoded |
| ProtobufRoundTrips.UnknownFieldsIgnored | JamSession/Pods/nanopb/pb_decode.c:955-989 | a complete field of any wire type whose tag the descriptor does not have, wherever the decoder meets it, changes nothing |
| ProtobufRoundTrips.DecodeSkipsUnknown | JamSession/Pods/nanopb/pb_decode.c:955-989 | an encoded message behind any number of unknown fields decodes as if they were not there |
| ProtobufRoundTrips.SameEncodes | JamSession/Pods/nanopb/pb_encode.c:528-550 | messages that a reader cannot tell apart have the same encoding, so encoding what was decoded gives the same bytes |
| ProtobufRoundTrips.ThroughBuffer | JamSession/Pods/nanopb/pb_decode.c:1078-1090 | pb_encode into a buffer and pb_decode from it: encoding succeeds exactly when the message fits, decoding exactly when strings are terminated, and then the message is the same |
| ProtobufSkips.ItemSkipped | JamSession/Pods/nanopb/pb_decode.c:321-331 | a reader that goes by the wire type alone, 0, 1, 2 or 5, comes out right behind any item that was written |
| ProtobufSkips.ItemSpelled | JamSession/Pods/nanopb/pb_encode.c:769-913 | the bytes of any item in the words of the format: 0 or 1, two's complement in 64 bits, zigzag, lowest byte first, or a length and what it announces |
| ProtobufSkips.EntryIsRecord | JamSession/Pods/nanopb/pb_encode.c:669-707 | the key of an entry reads as the field number and the wire type of the format, 0, 1, 2 or 5 by the kind of the field, and that leads right behind the entry |
| ProtobufSkips.PackedIsRecord | JamSession/Pods/nanopb/pb_encode.c:147-205 | a packed array is one record of wire type 2 |
| ProtobufSkips.RecordSkipped | JamSession/Pods/nanopb/pb_decode.c:955-989 | a record of a tag that the descriptor does not have changes nothing, whatever follows |
| ProtobufSkips.FieldSkipped | JamSession/Pods/nanopb/pb_decode.c:955-989 | all that the encoder writes for a field of any rule is passed over by a decoder whose descriptor does not have its tag |
| ProtobufSkips.SkippedExactlyWhen | JamSession/Pods/nanopb/pb_decode.c:321-331 | for any bytes and wire type, what is skipped: eight or four bytes, the bytes up to one below 128, and nothing for wire types that are none of the four |
| ProtobufSpellings.UnpackedReads | JamSession/Pods/nanopb/pb_decode.c:455-465 | an array of numbers that comes entry by entry is read as the packed one |
| ProtobufSpellings.FormReads | JamSession/Pods/nanopb/pb_decode.c:406-483 | a field is read from any of its forms, and an absent one leaves the struct as it is |
| ProtobufSpellings.FieldIsUnknown | JamSession/Pods/nanopb/pb_decode.c:955-989 | the bytes of a field of another descriptor are records that a decoder without it does not know |
| ProtobufSpellings.AllSeenExactlyWhen | JamSession/Pods/nanopb/pb_decode.c:1034-1073 | all required fields count as seen if and only if no one of the first 64 is missing |
| ProtobufSpellings.SpellingIsRead | JamSession/Pods/nanopb/pb_decode.c:928-1090 | any spelling of a message, with unknown records anywhere, arrays packed or not and required fields missing, is read as the message; it is refused if and only if one of the first 64 required fields is missing or a string is not terminated |
| ProtobufSpellings.DefaultsShow | JamSession/Pods/nanopb/pb_decode.c:839-922 | before anything is read an optional or required field shows its initial value, or zeros, an optional one is absent and an array is empty |
| ProtobufArrays.ArrayTakesExactly | JamSession/Pods/nanopb/pb_decode.c:416-466 | behind any spelling of a message, any number of entries of an array, packed or not, is accepted if and only if a repeated field has room for them, or an array of fixed length gets all of its entries or none |
| ProtobufArrays.PackedOverflows | JamSession/Pods/nanopb/pb_decode.c:436-449 | more packed entries than the array has are refused |
| ProtobufArrays.FullRefuses | JamSession/Pods/nanopb/pb_decode.c:455-465 | a full array takes no further record |
| ProtobufSafety.RunFits | JamSession/Pods/nanopb/pb_decode.c:928-1076 | for any bytes, strings end inside their buffers and byte arrays and counts stay within their sizes, at any depth |
| ProtobufSafety.DefaultsFit | JamSession/Pods/nanopb/pb_decode.c:839-922 | so do the defaults of a descriptor whose initial values do |
| ProtobufSafety.FittingIsWritten | JamSession/Pods/nanopb/pb_encode.c:528-550 | what stays within its sizes has an encoding, and its strings are terminated |
| ProtobufSafety.DecodedIsWritten | JamSession/Pods/nanopb/pb_decode.c:1078-1090 | whatever pb_decode accepts, pb_encode can write, and it comes back from there the same |
| ProtobufSafety.DelimitedIsTaken | JamSession/Pods/nanopb/pb_decode.c:1441-1565 | a byte array takes what fits beside its size, a string what leaves room for a terminator, an array of fixed length all of its bytes or none, which makes it zeros |
| ProtobufSafety.BoolIsTaken | JamSession/Pods/nanopb/pb_decode.c:1328-1337 | every number but zero is true |
| ProtobufSafety.EmptySubmessage | JamSession/Pods/nanopb/pb_decode.c:1519-1541 | a submessage outside of an array is decoded into what is there: an empty one changes nothing, and is refused only for its own required fields |
| ProtobufNumbers.Varint32ExactlyWhen | JamSession/Pods/nanopb/pb_decode.c:193-247 | of all groups up to ten, canonical or not, the 32-bit reader takes those whose bits behind the first 32 are empty or go on with the sign, as the lowest 32 bits of what the 64-bit reader takes them for |

## Left out

- The app's Swift code, the C wrapper, dumps, repair, histograms, property strings and statistics: no engine logic.
- Environment, threads, locks, memory maps and Snappy: calls into foreign code; I/O errors appear only as outcomes of logging and syncing in `GroupCommits`.
- MergingIterators.MergingIterator.constructor: the shortcut for zero or one child is left out; it returns that child.
- Compactions.DecideDrop: keys that do not parse are left out; the source keeps them.
- DatabaseIterator.DBIter.Run: read sampling and keys that do not parse are left out; neither changes what is shown.
- Versions.Get: statistics for seek compactions are left out.
- InputSelection.PickCompaction: the scores that choose the level and the file are policy; which level and file is a parameter.
- VersionBuilder.LogAndApply: writing the manifest itself is the matter of `VersionEdits` and `Logs`; file numbers and log numbers of the edit are not tracked.
- Databases.DBImpl.Compact: a call is a compaction without interruption; interleaving is the matter of `DatabaseRuns`, whose steps are atomic sections under the mutex.
- Databases.DBImpl.Get: reference counts of memtables and versions are left out.
- Crc32c.Extend: accelerated hardware checksums are foreign code; the tables are defined by what they hold, not by their numbers.
- LogReaders.Reader.ReadRecord: only an initial offset of 0, which is the one the database uses; resynchronisation after another offset is left out.
- LogReaders.Reader.constructor: reading errors are left out; the reporter is present.
- Recovery.RecoverLogFile: replay without paranoid checks; memtables that fill up during recovery are not written out, and reuse of the last log is left out.
- GroupCommits.EndsKeepsInv: a record that was written in part by a failing append is not in the model of the log.
- GroupCommits.PassesKeepsInv: waiting for room and the switch of memtables are one outcome of MakeRoomForWrite.
- SkipLists.SkipList.Insert: nodes are records in a memory named by index, not heap objects; links of unlinked levels start as null instead of being undefined. The random height is a parameter.
- HandleTables.HandleTable.Insert: chains are sequences, not next_hash links; the mask of the length is the remainder.
- LruCaches.LRUCache.Insert: handles are records in a memory named by index; freeing is a log of deleter calls. The sixteen shards are independent caches of this kind.
- BlockIterators.BlockIter.Seek: blocks that no builder made, and with them the corruption paths, are left out.
- Tables.TableBuilder.Finish: the metaindex block, the footer and block trailers are left out, and blocks are cursors over entries.
- Tables.InternalGet: the block cache is left out; it returns the block that would be read.
- Blooms.BloomFilterPolicy.constructor: the number of probes comes from a floating-point product, so it is a parameter between 1 and 30; the hash function is a parameter.
- MemTables.MemTable.Seek: the skip list stands here as the sequence of its keys; `SkipLists` has its links.
- nanopb callbacks, extensions, pointer fields and proto3 fields without a has_ variable (`JamSession/Pods/nanopb/pb_encode.c:422-512`, `JamSession/Pods/nanopb/pb_decode.c:487-822`): calls into foreign code, or other ways to store the same fields.
- ProtobufFields.FieldIter.Next: byte offsets are places of fields in a sequence; members of a union share one place.
- ProtobufEncoders.OStream.Write: streams are memory buffers or only count; size_t does not wrap.
- ProtobufDecoders.FieldSetToDefault: the entries of an array of fixed length are kept, while the source overwrites the first bytes of the array with a zero count. They are contents without a meaning until the array is decoded, and round trips are stated for any struct to decode into.
- ProtobufDecoders.MessageSetToDefaults: the same for arrays of fixed length.
- ProtobufDecoders.Decode: the same for arrays of fixed length that are absent; what a failed decoding leaves in the struct is not stated; structs are values that are passed in and out.
- ProtobufDecoders.DecString: a buffer that a union used for another member before counts as cleared behind the terminator.
- ProtobufRoundTrips.DecodeUndoesEncode: stated for messages shorter than 2^32 bytes, of which Protocol Buffers allows half; only their delimited parts need it.
- ProtobufSpellings.SpellingIsRead: fields come in the order of the descriptor and once each; what repeated records of one field do is in `ProtobufDecoders.Step`.
- ProtobufSafety.DecodedIsWritten: descriptors with arrays of fixed length are left out, because an absent one is whatever memory held before.
- ProtobufNumbers.Varint32ExactlyWhen: numbers of more than ten bytes are left out; the 64-bit reader takes none.
- LogIntegrity.DamageIsNoticed: damage of the length in a header may move the end of the record, and is noticed as far as the checksum of other bytes tells.
- ProtobufDecoders.DecodeNoinit: the descriptor of an empty message type also accepts a bool with tag 0, which the source stores outside of the struct; storing it is left out.
