# LevelDB and nanopb, modelled and proved

The application in this repository is a thin Swift layer; the algorithms are in two vendored C and C++
libraries. This project models those and proves what they promise:

- **LevelDB**, a log-structured store: the multi-version map it keeps through writes, flushes, compactions,
  crashes and recoveries; the tower of iterators over it; its file formats down to the bytes; its in-memory
  structures; and the protocol by which concurrent writers share one log record.
- **nanopb**, a descriptor-driven encoder and decoder for protocol buffers.

`dafny verify dfyconfig.toml` checks everything. Objects that change in place are classes with the fields of the
source, loops are loops; each method is tied by its contract to a specification function or relation, and the
lemmas are about those.

## The files

| part | files |
|---|---|
| bytes, words, varints, CRC-32C | Bytes, Words, Crc32c, Coding |
| the multi-version store as a state machine | Keys, Versions, Reads, Inputs, Compaction, Invisibility, Install, Flush, Lsm, Recovery, Resurrection |
| crashes, recovery, the manifest | Crash, Manifest, VersionEdit |
| concurrent writers | WriteBatch, GroupCommit, WriterQueue |
| iterators | Iterator, Merger, TwoLevel, DbIter, Tower |
| file formats | Log, LogSoundness, Block, Format, Comparator, Bloom, Filter, TableSearch, TableBuilder, TableReader |
| memory | SkipList, SkipListReaders, MemTable, Cache |
| nanopb | NanopbFields, NanopbEncode, NanopbDecode, NanopbDecoder, NanopbRoundTrip, NanopbSafety, NanopbVersions |

## What the code does not do

Four properties one would expect hold only under a condition. The code is modelled as it is, and the condition is
exact.

- *Compaction can bring a deleted value back.* `SetupOtherInputs` closes only the upper inputs under boundary
  files. When the lower inputs end inside a user key, an older value of that key stays in the next file of the
  output level, where the deeper-level test does not look, and the marker above it may be dropped.
  `Invisibility.CompactionIsInvisible` says exactly when a compaction is invisible,
  `Invisibility.ResurrectionNeedsCut` that this cut is the only way, and
  `Resurrection.CompactionCanResurrect` gives a reachable run. A newer entry that is only in memory may hide
  such a value until a crash takes it, so over runs with crashes the tables alone are judged:
  `LsmRecovery.CompactIntact`.
- *A table lookup can miss the next entry.* An index separator may lie after a target that itself lies after all
  keys of its block. `InternalGet` then finds nothing although later entries exist. `TableSearch.GetIsLinearSearch`
  gives the exact condition, `TableSearch.GapHappens` an instance, `TableSearch.NoGapInUserKey` the reason that no
  reader notices: the missed entry has another user key.
- *Decoding a manifest record into a used `VersionEdit` keeps its compaction pointers*, because `Clear` does not
  clear them: `VersionEdits.EditBack`. The callers use a new object each time.
- *A nanopb string without a terminator in its buffer is encoded but cannot be decoded*: `PbRoundTrip.StringBack`.

One branch of `DBIter::Next` is dead: the test for exhaustion after the direction switch (db_iter.cc:154) never
succeeds.

## Model

| member | source | states |
|---|---|---|
| Crc32c.Extend | flicsy/Pods/leveldb-library/util/crc32c.cc:276-377 | From any checksum, address alignment and length, the alignment loop, the four interleaved strides with their table steps, the final combine and the byte tail give what folding the bytes one at a time gives |
| Crc32c.AdvanceLinear | flicsy/Pods/leveldb-library/util/crc32c.cc:240-246 | The register is linear over exclusive-or: advancing a xor b is advancing a xor advancing b |
| Crc32c.StrideStep | flicsy/Pods/leveldb-library/util/crc32c.cc:288-302 | The four stride-table lookups of a word together are sixteen bytes of register |
| Crc32c.CombinedRotate | flicsy/Pods/leveldb-library/util/crc32c.cc:344-356 | Rotating the four pending words by one word is folding that word: the register they stand for moves on by exactly those bytes |
| Crc32c.Collapse | flicsy/Pods/leveldb-library/util/crc32c.cc:358-364 | Chaining the four pending words in STEP4W order leaves the register they stand for |
| Crc32c.Step4 | flicsy/Pods/leveldb-library/util/crc32c.cc:288-302 | STEP4 exclusive-ors the next word of the input into the strided image of the pending one |
| Crc32c.ExtendedAppend | flicsy/Pods/leveldb-library/util/crc32c.cc:276-377 | A checksum may be taken in pieces: extending by a and then by b is extending by a followed by b |
| Crc32c.UnmaskMask | flicsy/Pods/leveldb-library/util/crc32c.h:25-37 | Unmasking undoes masking for every 32-bit checksum |
| Crc32c.MaskUnmask | flicsy/Pods/leveldb-library/util/crc32c.h:25-37 | Masking undoes unmasking for every 32-bit word: no two words unmask to the same checksum |
| Crc32c.StoredChecksum | flicsy/Pods/leveldb-library/util/crc32c.h:25-37 | Four bytes unmask to a checksum if and only if they are the bytes stored for it |
| Crc32c.CheckValue | flicsy/Pods/leveldb-library/util/crc32c.cc:276-377 | The check value of CRC-32C: the digits 1 to 9 give E3069283 (the Castagnoli polynomial of section 12.1 of RFC 3720, its bit order, and the inversions before and after) |
| LogWriter.Writer.AddRecord | flicsy/Pods/leveldb-library/db/log_writer.cc:34-80 | Appends exactly the zero trailer and the chain of FULL or FIRST/MIDDLE/LAST fragments that the record has at the current block offset, an empty record included, and leaves block_offset at the file length modulo 32 KB |
| LogWriter.Writer.EmitPhysicalRecord | flicsy/Pods/leveldb-library/db/log_writer.cc:82-108 | Appends a header whose masked checksum, extended from the per-type one, is that of type and payload together, then the payload |
| LogReader.Reader.ReadPhysicalRecord | flicsy/Pods/leveldb-library/db/log_reader.cc:189-271 | The buffered block reads return what the bytes at the position mean: a fragment, end of file, or a bad record with the bytes it drops; on any file |
| LogReader.Reader.ReadRecord | flicsy/Pods/leveldb-library/db/log_reader.cc:56-174 | Reassembles the logical record that starts at the position, or reports the corruptions and the end, for every possible file content |
| LogRoundTrip.EmittedReads | flicsy/Pods/leveldb-library/db/log_reader.cc:56-174 | One record written at any block offset is returned whole; if the file ends inside it the read reaches end of file and reports nothing |
| LogRoundTrip.RoundTrip | flicsy/Pods/leveldb-library/db/log_writer.cc:34-108 | Reading back a file written from empty returns exactly the list of records, empty and many-block ones included, with no corruption report |
| LogRoundTrip.TornTail | flicsy/Pods/leveldb-library/db/log_reader.cc:189-271 | On the first n bytes of such a file, for every n, the reader returns exactly the records that are whole and reports no corruption |
| LogRoundTrip.CompleteIsLargest | flicsy/Pods/leveldb-library/db/log_reader.cc:189-271 | The number of records returned from a torn file is the largest whose bytes all survive |
| LogRoundTrip.ReadAll | flicsy/Pods/leveldb-library/db/db_impl.cc:424-458 | The recovery loop over ReadRecord gathers every record up to the first failed read, and every report |
| LogSoundness.ChecksumDecides | flicsy/Pods/leveldb-library/db/log_reader.cc:243-257 | The checksum test passes if and only if the stored four bytes are the checksum of type and payload that the writer stores |
| LogSoundness.PhysicalStands | flicsy/Pods/leveldb-library/db/log_reader.cc:189-271 | On any file: whatever physical read is neither an end nor a bad record has read a fragment that stands in the file with its length, type and checksum exactly as the writer puts it |
| LogSoundness.RecordStands | flicsy/Pods/leveldb-library/db/log_reader.cc:56-174 | On any file: every record returned is put together from a whole chain of fragments, FULL or FIRST, MIDDLE and LAST, that stand in the file in order without overlap, each with its checksum |
| LogSoundness.DamageIsReported | flicsy/Pods/leveldb-library/db/log_reader.cc:243-257 | A fragment whose stored checksum is not its own is a bad record: the rest of the block is dropped and its whole length reported |
| LogSoundness.OverrunIsReported | flicsy/Pods/leveldb-library/db/log_reader.cc:221-233 | A fragment that claims more than its block holds is a bad record reported with what is left of the block, or the end of a file that was cut short |
| LogSoundness.BreaksAreReported | flicsy/Pods/leveldb-library/db/log_reader.cc:97-170 | Reported are the gathered part of a record that does not go on, and a fragment that continues none |
| Keys.NewestExists | flicsy/Pods/leveldb-library/db/dbformat.cc:51-67 | A user key with any entry visible at a snapshot has a newest visible one |
| Keys.ReadsIsFunction | flicsy/Pods/leveldb-library/db/dbformat.cc:51-67 | With no sequence number used twice for a user key, a reader gets one answer |
| Versions.SeekFindsNewest | flicsy/Pods/leveldb-library/db/version_set.cc:263-276 | The first entry at or after a lookup key is the newest entry of its user key visible at the snapshot, or belongs to another user key and none is visible |
| Versions.FindFile | flicsy/Pods/leveldb-library/db/version_set.cc:88-106 | The binary search returns the first file of a sorted level whose largest key is at or after the target |
| Reads.SortNewestFirst | flicsy/Pods/leveldb-library/db/version_set.cc:278-280 | Orders files by decreasing number and keeps exactly the same files |
| Reads.Get | flicsy/Pods/leveldb-library/db/version_set.cc:326-421 | Under the level order the search, level 0 newest first and then one file per level, returns the newest value, the deletion or the absence of the key over the whole version |
| Reads.UpperShows | flicsy/Pods/leveldb-library/db/version_set.cc:326-421 | An answer found in the levels searched so far stands for all deeper ones |
| Reads.GetFromDatabase | flicsy/Pods/leveldb-library/db/db_impl.cc:1124-1134 | Memtable, then immutable memtable, then version returns what a reader at the snapshot must see over all of them |
| Inputs.GetOverlappingInputs | flicsy/Pods/leveldb-library/db/version_set.cc:519-559 | The restarting level-0 scan terminates and returns the files of the least closed range around the request: no remaining file overlaps it, and no smaller closed range would do; elsewhere exactly the overlapping files |
| Inputs.StillLeast | flicsy/Pods/leveldb-library/db/version_set.cc:540-556 | Widening by an overlapping file keeps the range inside every closed range around the request |
| Inputs.FindSmallestBoundaryFile | flicsy/Pods/leveldb-library/db/version_set.cc:1344-1360 | Finds the first, by smallest key, of the files that start just after a largest key with its user key, and none only if there is none |
| Inputs.AddBoundaryInputs | flicsy/Pods/leveldb-library/db/version_set.cc:1362-1401 | Terminates, adds only boundary files, and leaves no file of the level that continues the user key of the chosen largest key |
| Inputs.SetupOtherInputs | flicsy/Pods/leveldb-library/db/version_set.cc:1403-1462 | Exactly the files of a compaction: the upper inputs are the grown set if and only if it is larger, fits the byte limit together with the lower ones and meets as many lower files, and otherwise the boundary closure of the start; the lower ones are the files of the next level in their range, the grandparents those of the level after in the range of both, and the pointer is the largest upper key |
| Inputs.InputsAreUnique | flicsy/Pods/leveldb-library/db/version_set.cc:1403-1462 | Whatever files and whatever order the choice runs through, the version and the start determine inputs and grandparents |
| Inputs.ClosureIsUnique | flicsy/Pods/leveldb-library/db/version_set.cc:1383-1401 | A set of files has one closure under boundary files |
| Inputs.TouchedIsUnique | flicsy/Pods/leveldb-library/db/version_set.cc:519-559 | A set of files has one least closed set of files that meet its range |
| Inputs.OverlappingIsRun | flicsy/Pods/leveldb-library/db/version_set.cc:519-559 | In a sorted level the overlapping files are one contiguous stretch |
| Inputs.ChainIsRun | flicsy/Pods/leveldb-library/db/version_set.cc:1383-1401 | Boundary files added to a stretch of a sorted level extend it to a longer stretch |
| Inputs.PickInputs | flicsy/Pods/leveldb-library/db/version_set.cc:1270-1314 | From one picked file, at level 0 exactly the least closed set around it and elsewhere the file alone: inputs a compaction may start from |
| Inputs.RangeInputs | flicsy/Pods/leveldb-library/db/version_set.cc:1464-1495 | The inputs of a manual compaction: all files the range reaches, above level 0 cut off at the first file with which they hold the byte limit; none only if no file overlaps the range |
| Compactions.Compaction.IsBaseLevelForKey | flicsy/Pods/leveldb-library/db/version_set.cc:1533-1552 | With the per-level cursors left by earlier, smaller keys the answer equals the naive test over all files of all deeper levels |
| Compactions.NoneCovers | flicsy/Pods/leveldb-library/db/version_set.cc:1533-1552 | Files before a cursor end before the key and files after the one it stops at start after it |
| Compactions.Compaction.ShouldStopBefore | flicsy/Pods/leveldb-library/db/version_set.cc:1554-1576 | Told to stop if and only if the grandparent files passed since the last stop, those that end before the key and had not when the first key was shown, total more than the limit |
| Compactions.DoCompactionWork | flicsy/Pods/leveldb-library/db/db_impl.cc:878-1035 | The outputs together hold exactly the merged input entries that no drop rule drops, in order, in valid files numbered from the next number on; each is closed where the grandparents say stop or where it first reaches the size limit, and nowhere else, except the last |
| Compactions.CutsAreUnique | flicsy/Pods/leveldb-library/db/db_impl.cc:921-995 | Those rules determine the outputs: two lists of files cut by them are the same list |
| Compactions.KeptOrdered | flicsy/Pods/leveldb-library/db/db_impl.cc:929-963 | What the drop rules keep of a sorted input is sorted |
| Invisibility.CompactionIsInvisible | flicsy/Pods/leveldb-library/db/db_impl.cc:878-1035 | No reader at any snapshot at or above the smallest can tell that the compaction happened, if and only if for no user key it drops a deletion marker over a value that stays elsewhere |
| Invisibility.ResurrectionNeedsCut | flicsy/Pods/leveldb-library/db/version_set.cc:1403-1462 | That can only happen to a user key at which the lower inputs were cut off: the file after them in the output level continues the key they end with |
| Invisibility.InvisibleWithoutCut | flicsy/Pods/leveldb-library/db/version_set.cc:1403-1462 | So if no file just after the lower inputs continues their last user key, every compaction is invisible at every such snapshot |
| Invisibility.OlderStays | flicsy/Pods/leveldb-library/db/version_set.cc:1533-1552 | An older entry of an input user key that stays behind lies at a level the deeper test looks at, or behind such a cut |
| Invisibility.OlderAreHidden | flicsy/Pods/leveldb-library/db/db_impl.cc:940-951 | Once an entry of a key is visible to every snapshot, every older input entry of the key is dropped |
| Invisibility.LowerTaken | flicsy/Pods/leveldb-library/db/version_set.cc:1403-1462 | No file of the output level outside the lower inputs shares a user key with the upper inputs |
| Resurrection.CompactionCanResurrect | flicsy/Pods/leveldb-library/db/version_set.cc:1403-1420 | A reachable run, ending in an enabled compaction after which a deleted value of a key is read again: the cut inside a user key does happen |
| Resurrection.LastJobResurrects | flicsy/Pods/leveldb-library/db/version_set.cc:1403-1420 | The concrete compaction of that run drops the marker while the older value stays in the file left out |
| Install.CompactionKeepsOrder | flicsy/Pods/leveldb-library/db/db_impl.cc:860-876 | Installing any disjoint tables of input entries for the inputs keeps the order of all levels |
| Install.OutputsReplace | flicsy/Pods/leveldb-library/db/db_impl.cc:811-876 | The outputs of the compaction loop are such tables, with exactly the kept entries |
| Install.InstalledEntries | flicsy/Pods/leveldb-library/db/db_impl.cc:860-876 | The version after installation holds the outputs and everything that was not an input |
| Install.TrivialMoveKeeps | flicsy/Pods/leveldb-library/db/db_impl.cc:716-731 | Moving a single file down unchanged keeps the level order and the set of entries |
| Flush.SomeFileOverlapsRange | flicsy/Pods/leveldb-library/db/version_set.cc:129-161 | Linear scan for level 0 and binary search for sorted levels both answer whether any file overlaps the range |
| Flush.PickLevelForMemTableOutput | flicsy/Pods/leveldb-library/db/version_set.cc:491-516 | The level picked is at most 2; no file of it or of a level above it down from 0 overlaps the new table, no level it went down had too many bytes two levels below, and going on would break one of the two |
| Flush.FlushKeepsOrder | flicsy/Pods/leveldb-library/db/db_impl.cc:488-533 | A memtable written out at that level keeps the order of all levels |
| Lsm.RunsAreFaithful | flicsy/Pods/leveldb-library/db/db_impl.cc:688-767 | Over whole runs of writes, memtable switches, flushes, compactions, moves and snapshots, as long as no compaction uncovers a value, every reader at a live snapshot sees what the full multi-version history says |
| Lsm.CompactStep | flicsy/Pods/leveldb-library/db/db_impl.cc:735-760 | After a compaction step every live reader still sees the history, if and only if the compaction uncovers no older value |
| Lsm.FlushStep | flicsy/Pods/leveldb-library/db/db_impl.cc:535-566 | A flush step keeps the database consistent and faithful |
| Lsm.WriteStep | flicsy/Pods/leveldb-library/db/db_impl.cc:1204-1229 | Writing fresh, larger sequence numbers keeps older snapshots as they were and adds exactly the new entries |
| Lsm.Get | flicsy/Pods/leveldb-library/db/db_impl.cc:1100-1145 | In every faithful state a read at a live snapshot returns the one answer that the full history has |
| LsmRecovery.RunsSurviveCrashes | flicsy/Pods/leveldb-library/db/db_impl.cc:280-369 | Over whole runs that also crash and recover into level-0 tables, as long as no compaction uncovers an older value in the tables, every reader at a live snapshot sees exactly what was written and not lost |
| LsmRecovery.RecoveryIntact | flicsy/Pods/leveldb-library/db/db_impl.cc:371-486 | Losing any part of the memtables and flushing the rest to level 0 leaves a database that stands for the surviving history, with a last sequence no smaller than any of it |
| LsmRecovery.RecoveredVersion | flicsy/Pods/leveldb-library/db/db_impl.cc:443-486 | Several recovered tables put into level 0 at once keep the level order and add exactly their entries |
| LsmRecovery.CompactIntact | flicsy/Pods/leveldb-library/db/db_impl.cc:887-999 | A compaction keeps the tables alone, whatever the memory hides, alike to the history if and only if it uncovers no older value in them |
| LsmRecovery.IntactIsFaithful | flicsy/Pods/leveldb-library/db/db_impl.cc:1124-1134 | Tables that stand for the settled history, under newer memtables, serve every live reader from the whole of it |
| LsmRecovery.AlikeFrom | flicsy/Pods/leveldb-library/db/db_impl.cc:359-366 | Databases alike to late readers are alike to any reader from the recorded last sequence on, so a restart with a smaller last sequence is safe |
| DbIter.LiveIsWhatReadersSee | flicsy/Pods/leveldb-library/db/db_iter.cc:168-198 | The list the iterator walks is exactly what point reads at the snapshot can see, one entry per live user key in increasing order |
| IteratorTower.TowerIsWhatReadersSee | flicsy/Pods/leveldb-library/db/db_impl.cc:1062-1087 | The list DBIter walks over the merged memtables, level-0 tables and concatenated levels is what point reads of the database see, key by key in increasing order |
| IteratorTower.ChildrenAreRuns | flicsy/Pods/leveldb-library/db/version_set.cc:232-248 | The children of the internal iterator are sorted, share no internal key and hold together every entry of the database |
| IteratorTower.LevelIsIndexed | flicsy/Pods/leveldb-library/db/version_set.cc:165-222 | The files of a sorted level under their largest keys are an index for a two-level iterator: each key at or after its file and before all later files |
| IteratorTower.LevelIsOneRun | flicsy/Pods/leveldb-library/db/version_set.cc:224-230 | The concatenated files of a sorted level are one sorted run with exactly its entries |
| DbIter.DBIter.FindNextUserEntry | flicsy/Pods/leveldb-library/db/db_iter.cc:168-198 | From where a forward move stands it stops on the first live entry past the key to skip, or off the end |
| DbIter.DBIter.FindPrevUserEntry | flicsy/Pods/leveldb-library/db/db_iter.cc:227-267 | Walking down it saves the nearest live entry and stops just before all entries of its key, or goes off the front |
| DbIter.DBIter.Next | flicsy/Pods/leveldb-library/db/db_iter.cc:141-166 | From either direction moves to the next position in the live list; the early exhaustion test of the direction switch never succeeds |
| DbIter.DBIter.Prev | flicsy/Pods/leveldb-library/db/db_iter.cc:200-225 | From either direction moves to the previous position in the live list, or off its front |
| DbIter.DBIter.Seek | flicsy/Pods/leveldb-library/db/db_iter.cc:269-281 | Stands on the first live entry whose user key is the target or above |
| DbIter.DBIter.SeekToFirst | flicsy/Pods/leveldb-library/db/db_iter.cc:283-292 | Stands on the first live entry, or is invalid when there is none |
| DbIter.DBIter.SeekToLast | flicsy/Pods/leveldb-library/db/db_iter.cc:294-299 | Stands on the last live entry, or is invalid when there is none |
| DbIter.DBIter.Key | flicsy/Pods/leveldb-library/db/db_iter.cc:64-67 | The key at the position in the live list, whichever direction |
| DbIter.DBIter.Value | flicsy/Pods/leveldb-library/db/db_iter.cc:68-71 | The value at the position in the live list, whichever direction |
| Merger.UnionIsSorted | flicsy/Pods/leveldb-library/table/merger.cc:148-161 | The union of children with distinct sorted keys is one strictly sorted list |
| Merger.MergingIterator.FindSmallest | flicsy/Pods/leveldb-library/table/merger.cc:148-161 | With every child just past a place of the union, current becomes the child that holds the next entry, or none at the end |
| Merger.MergingIterator.FindLargest | flicsy/Pods/leveldb-library/table/merger.cc:163-176 | With every child behind a place, current becomes the child that holds the entry just before it |
| Merger.MergingIterator.Next | flicsy/Pods/leveldb-library/table/merger.cc:55-79 | Keeps the child-position invariant and moves to the next place of the union, from either direction |
| Merger.MergingIterator.Prev | flicsy/Pods/leveldb-library/table/merger.cc:81-108 | Keeps the child-position invariant and moves to the previous place of the union, from either direction |
| Merger.MergingIterator.Seek | flicsy/Pods/leveldb-library/table/merger.cc:47-53 | Divides the union at the target |
| Merger.MergingIterator.SeekToFirst | flicsy/Pods/leveldb-library/table/merger.cc:31-37 | Stands on the first place of the union |
| Merger.MergingIterator.SeekToLast | flicsy/Pods/leveldb-library/table/merger.cc:39-45 | Stands on the last place of the union |
| TwoLevel.SeekInRuns | flicsy/Pods/leveldb-library/table/two_level_iterator.cc:82-87 | Seeking the index and then the run under it divides all entries at the target, whatever runs are empty |
| TwoLevel.TwoLevelIterator.SkipEmptyDataBlocksForward | flicsy/Pods/leveldb-library/table/two_level_iterator.cc:115-126 | Skips runs that are empty or used up and stands on the first entry after them, or is off the end |
| TwoLevel.TwoLevelIterator.SkipEmptyDataBlocksBackward | flicsy/Pods/leveldb-library/table/two_level_iterator.cc:128-139 | The same towards the front |
| TwoLevel.TwoLevelIterator.InitDataBlock | flicsy/Pods/leveldb-library/table/two_level_iterator.cc:146-161 | The data iterator is over the run the index stands on, or there is none when the index is off its end; a run is opened anew or kept, never mixed up |
| TwoLevel.TwoLevelIterator.Next | flicsy/Pods/leveldb-library/table/two_level_iterator.cc:103-107 | Moves one entry on in the concatenation of the runs |
| TwoLevel.TwoLevelIterator.Prev | flicsy/Pods/leveldb-library/table/two_level_iterator.cc:109-113 | Moves one entry back in the concatenation of the runs |
| TwoLevel.TwoLevelIterator.Seek | flicsy/Pods/leveldb-library/table/two_level_iterator.cc:82-87 | Stands on the first entry of the concatenation at or after the target |
| CrashSafety.RunsAreCrashSafe | flicsy/Pods/leveldb-library/db/db_impl.cc:280-369 | In every reachable state of every run of appends, applies, switches, flushes, compactions, deletions, crashes and recoveries, tables and logs hold what the steps so far have left of the appended entries; a server that is up has it in memory and tables, recovery is always possible and ends with a last sequence no smaller than any entry |
| CrashSafety.RunsKeepTheLedger | flicsy/Pods/leveldb-library/db/db_impl.cc:280-369 | Against a ledger of the actions alone: what can be read was appended, whatever a sync covered is still there unless a compaction dropped it, and while no crash takes a record every appended entry is, so without dropped entries the two are equal |
| CrashSafety.BalancedStep | flicsy/Pods/leveldb-library/db/db_impl.cc:371-486 | Every step, crashes and recoveries included, keeps history, stable contents and pending compaction in balance with the ledger |
| CrashSafety.HeldIsHistory | flicsy/Pods/leveldb-library/db/db_impl.cc:1124-1134 | What a server, a finished recovery or a disk nobody serves holds is the whole history, and includes everything durable |
| CrashSafety.EveryStep | flicsy/Pods/leveldb-library/db/db_impl.cc:223-278 | Every step keeps the invariant between disk, server and history |
| CrashSafety.DurableStays | flicsy/Pods/leveldb-library/db/version_set.cc:801-884 | What has reached stable storage stays there through every step, unless a compaction drops it |
| CrashSafety.SyncedWritesAreDurable | flicsy/Pods/leveldb-library/db/db_impl.cc:1211-1229 | A write appended with sync is on stable storage at once, together with everything before it in its log |
| CrashSafety.CrashesLoseOnlyTheUnsynced | flicsy/Pods/leveldb-library/db/db_impl.cc:371-486 | A crash leaves at least everything durable and nothing that was not written; one that keeps all appended records loses nothing |
| CrashSafety.FlushedLogIsObsolete | flicsy/Pods/leveldb-library/db/db_impl.cc:535-566 | Once a flush is committed the old log may go: the new table has its entries |
| CrashSafety.RecoverTableStep | flicsy/Pods/leveldb-library/db/db_impl.cc:424-486 | Turning the next records of a log into a table during recovery keeps the invariant that recovered and unread entries together are the history |
| CrashSafety.CommitStep | flicsy/Pods/leveldb-library/db/version_set.cc:801-884 | Committing an edit to the manifest keeps the invariant between manifest, tables, logs and history |
| CrashSafety.SwitchCurrentStep | flicsy/Pods/leveldb-library/db/version_set.cc:801-884 | Pointing CURRENT at the manifest a recovery wrote keeps the invariant: the server that is then up has the whole history |
| CrashSafety.DeleteTableStep | flicsy/Pods/leveldb-library/db/db_impl.cc:223-278 | Deleting a table that is neither live nor pending keeps the invariant |
| CrashSafety.DeleteLogStep | flicsy/Pods/leveldb-library/db/db_impl.cc:223-278 | Deleting a log below the recorded number keeps the invariant |
| Coding.FixedBack | flicsy/Pods/leveldb-library/util/coding.cc:9-33 | A fixed-width number in range is read back |
| Coding.VarintBack | flicsy/Pods/leveldb-library/util/coding.cc:47-90 | A varint of up to the given bits is read back with whatever follows it left over |
| Coding.EncodeVarint32 | flicsy/Pods/leveldb-library/util/coding.cc:47-73 | The five-way branch writes the base-128 digits of the number |
| Coding.EncodeVarint64 | flicsy/Pods/leveldb-library/util/coding.cc:81-90 | The loop writes the same digits for any 64-bit number |
| Coding.GetVarintPtr | flicsy/Pods/leveldb-library/util/coding.cc:112-157 | On any input the shared loop reads what the digits say, refusing what is cut off or too long |
| Coding.VarintMeans | flicsy/Pods/leveldb-library/util/coding.cc:112-157 | On any bytes a varint is read if and only if its last digit is there and starts below the bit limit, and then it is the sum of its digits modulo the limit |
| Coding.LengthPrefixedBack | flicsy/Pods/leveldb-library/util/coding.cc:98-101 | A length-prefixed slice is read back if and only if its length fits 32 bits |
| Coding.LengthPrefixedCut | flicsy/Pods/leveldb-library/util/coding.cc:181-191 | A length-prefixed slice cut short anywhere is refused |
| WriteBatches.BatchRoundTrip | flicsy/Pods/leveldb-library/db/write_batch.cc:42-80 | Iterating over the bytes of a batch hands the handler exactly the operations put into it, in order, with an OK status |
| WriteBatches.CutBatch | flicsy/Pods/leveldb-library/db/write_batch.cc:42-80 | A batch cut short anywhere hands over the operations that are whole and no other, and its end is in order if and only if the cut is between two |
| WriteBatches.WriteBatch.Iterate | flicsy/Pods/leveldb-library/db/write_batch.cc:42-80 | On any bytes the handler gets the operations as far as they are well formed, and the status says whether that was all and agreed with the count |
| WriteBatches.WriteBatch.Put | flicsy/Pods/leveldb-library/db/write_batch.cc:98-103 | The bytes become those of the batch with one more put, the count included |
| WriteBatches.WriteBatch.Delete | flicsy/Pods/leveldb-library/db/write_batch.cc:105-109 | The bytes become those of the batch with one more deletion |
| WriteBatches.WriteBatch.Append | flicsy/Pods/leveldb-library/db/write_batch.cc:144-148 | The bytes become those of the batch followed by the operations of the other one |
| WriteBatches.WriteBatch.SetSequence | flicsy/Pods/leveldb-library/db/write_batch.cc:94-96 | Only the sequence number in the header changes |
| GroupCommit.BuildBatchGroup | flicsy/Pods/leveldb-library/db/db_impl.cc:1260-1306 | Collects exactly the batches of the group of the first writer, in order, into one batch: no sync write under an unsynced leader, no null batch, size limited |
| GroupCommit.GroupIsUnique | flicsy/Pods/leveldb-library/db/db_impl.cc:1260-1306 | The rules determine the group: two groups for the same queue are the same |
| WriterQueue.EveryInterleaving | flicsy/Pods/leveldb-library/db/db_impl.cc:1185-1258 | Over all interleavings at lock points the queue stays in order with a leading or awake head, and log, memtable and sequence numbers agree with what was answered |
| WriterQueue.OneLeader | flicsy/Pods/leveldb-library/db/db_impl.cc:1185-1258 | At most one call is in the log and apply section, and it is the head of the queue |
| WriterQueue.NobodyIsForgotten | flicsy/Pods/leveldb-library/db/db_impl.cc:1242-1256 | Whoever has not returned is answered and signalled, or waits in a queue whose head is leading or awake |
| WriterQueue.CompleteAnswers | flicsy/Pods/leveldb-library/db/db_impl.cc:1242-1256 | The loop that pops writers until it has popped the last of the group answers exactly the group, leaves the rest of the queue and signals its head |
| WriterQueue.GroupSharesStatus | flicsy/Pods/leveldb-library/db/db_impl.cc:1242-1258 | When a leader finishes, each writer of its group and no other is answered with the leader's status; the leader returns, the others are done and signalled, and so is the new head |
| WriterQueue.AppliedInOrder | flicsy/Pods/leveldb-library/db/db_impl.cc:1204-1229 | Sequence numbers of applied operations only grow, and none is beyond those used up |
| WriterQueue.AppliedAsOneBlock | flicsy/Pods/leveldb-library/db/db_impl.cc:1204-1229 | Each successful non-null batch is applied exactly once, as one contiguous block of fresh sequence numbers |
| WriterQueue.SyncedAsOneBlock | flicsy/Pods/leveldb-library/db/db_impl.cc:1211-1229 | A successful call that asked for a sync is on disk, as one block, when it is answered |
| Blocks.BlockBuilder.Add | flicsy/Pods/leveldb-library/table/block_builder.cc:72-106 | The fields become those of the layout with one more entry: a restart with its whole key once the interval is reached, and otherwise as long a shared prefix as there is |
| Blocks.BlockBuilder.Finish | flicsy/Pods/leveldb-library/table/block_builder.cc:62-70 | Returns the entries of the layout, the restart array and its length, as many bytes as the size estimate said; every entry but a restart shares the longest common prefix with the key before it, and restarts are exactly the interval apart |
| Blocks.SharedPrefix | flicsy/Pods/leveldb-library/table/block_builder.cc:76-83 | The length of the longest common prefix with the last key |
| Blocks.DecodeEntry | flicsy/Pods/leveldb-library/table/block.cc:54-74 | With and without the three-byte fast path reads the three lengths, or refuses |
| Blocks.EntryBack | flicsy/Pods/leveldb-library/table/block_builder.cc:72-106 | The bytes of any entry of a built block decode to its shared length, suffix and value where they stand |
| Blocks.Iter.ParseNextKey | flicsy/Pods/leveldb-library/table/block.cc:224-251 | On any bytes exactly: the entry where the last one ended, parsed over the key before it, or the end, or an error when there is no such entry or it shares more than there is; on a built block so the next entry with its key reassembled |
| Blocks.Iter.Next | flicsy/Pods/leveldb-library/table/block.cc:137-140 | Moves from entry i to entry i+1 of the pairs that were added; on any bytes does what parsing the next entry does |
| Blocks.Iter.Prev | flicsy/Pods/leveldb-library/table/block.cc:142-161 | Moves from entry i to entry i-1, however entry i was reached |
| Blocks.Iter.Seek | flicsy/Pods/leveldb-library/table/block.cc:163-201 | Binary search over restarts and linear scan stand on the first pair at or after the target, in any total order of the keys |
| Blocks.Iter.SeekToFirst | flicsy/Pods/leveldb-library/table/block.cc:203-206 | Stands on the first pair |
| Blocks.Iter.SeekToLast | flicsy/Pods/leveldb-library/table/block.cc:208-213 | Stands on the last pair |
| Blocks.Iter.Current | flicsy/Pods/leveldb-library/table/block.cc:128-135 | Key and value are those of the pair at the position, as they were added |
| Blocks.NewIterator | flicsy/Pods/leveldb-library/table/block.cc:20-39 | Takes a built block for what it was built from; refuses exactly the contents too small for a restart count or for the restarts it announces, and gives no iterator exactly when there are none |
| Comparators.FindShortestSeparator | flicsy/Pods/leveldb-library/util/comparator.cc:29-50 | Exactly: the common prefix and the next byte raised by one, where start goes on below 0xff and more than one below limit, and else start; so at or after start, no longer, and before limit whenever start was |
| Comparators.NoneIsShorter | flicsy/Pods/leveldb-library/util/comparator.cc:29-50 | No key from start up to limit is as short as their common prefix: one byte more is the least a separator can have |
| Comparators.FindShortSuccessor | flicsy/Pods/leveldb-library/util/comparator.cc:52-63 | The first byte below 0xff is raised by one and the rest cut off; the key itself if and only if all its bytes are 0xff |
| Comparators.FindShortestInternalSeparator | flicsy/Pods/leveldb-library/db/dbformat.cc:69-86 | Exactly: the shortened user part with the largest tag where it is shorter and later, and else start; either way between the two keys |
| Comparators.FindShortInternalSuccessor | flicsy/Pods/leveldb-library/db/dbformat.cc:88-101 | The raised user part with the largest tag, where it is shorter; the key itself if and only if every user byte but the last is 0xff |
| Comparators.InternalIsTotal | flicsy/Pods/leveldb-library/db/dbformat.cc:51-67 | Internal keys are totally ordered: user keys up, tags down |
| Comparators.InternalIsTransitive | flicsy/Pods/leveldb-library/db/dbformat.cc:51-67 | Internal keys are ordered transitively |
| Comparators.LessIsTransitive | flicsy/Pods/leveldb-library/util/comparator.cc:25-27 | The bytewise order is transitive |
| Bloom.CreateFilter | flicsy/Pods/leveldb-library/util/bloom.cc:28-54 | The bits of the filter are exactly the probes of its keys, and its last byte is the number of probes |
| Bloom.KeyMayMatch | flicsy/Pods/leveldb-library/util/bloom.cc:56-82 | True exactly when all probes of the key are set; always true for reserved encodings and false for filters without bits |
| Bloom.NoFalseNegatives | flicsy/Pods/leveldb-library/util/bloom.cc:28-82 | A key that went into a filter always matches it, whatever the hash |
| Filters.FilterBlockBuilder.StartBlock | flicsy/Pods/leveldb-library/table/filter_block.cc:21-27 | Closes filters up to the 2 KB group of the block: the pending keys go into the first, and the others are empty |
| Filters.FilterBlockBuilder.Finish | flicsy/Pods/leveldb-library/table/filter_block.cc:35-49 | Returns all filters, their offset array, where it starts and the base |
| Filters.FilterBlockReader.KeyMayMatch | flicsy/Pods/leveldb-library/table/filter_block.cc:90-104 | On a finished filter block answers what the policy says for the filter of the block's group; on any block says no exactly when the two offsets of that group name bytes the policy denies or the same place past the array |
| Filters.FilterNeverDenies | flicsy/Pods/leveldb-library/table/filter_block.cc:90-104 | With a sound policy the block of an added key is never denied that key |
| Filters.BloomIsSound | flicsy/Pods/leveldb-library/util/bloom.cc:28-82 | The Bloom policy is sound in that sense |
| TableFormat.FooterBack | flicsy/Pods/leveldb-library/table/format.cc:31-62 | A footer is read back, both handles and the magic number |
| TableFormat.HandleBack | flicsy/Pods/leveldb-library/table/format.cc:15-29 | A block handle is read back with what follows it left over |
| TableFormat.ReadBlockBack | flicsy/Pods/leveldb-library/table/format.cc:64-139 | A block stored uncompressed with its masked checksum is read back from where its handle says |
| TableFormat.ReadIsStored | flicsy/Pods/leveldb-library/table/format.cc:64-140 | With checksums verified a block is read if and only if one is stored there uncompressed, and what is read is its contents, for any file and handle |
| TableFormat.DamageIsSeen | flicsy/Pods/leveldb-library/table/format.cc:85-95 | A block whose stored checksum is not that of its contents and type is refused as such |
| TableSearch.GetIsLinearSearch | flicsy/Pods/leveldb-library/table/table.cc:216-244 | Looking the target up through the index finds the first entry at or after it, if and only if the target is not in the gap between a block's last key and its separator |
| TableSearch.MissedExactly | flicsy/Pods/leveldb-library/table/table.cc:216-244 | With a filter an entry is missed exactly in a gap and where the block the index points to is denied |
| TableSearch.NoGapInUserKey | flicsy/Pods/leveldb-library/table/table.cc:216-244 | The gap never hides an entry of the user key looked up |
| TableSearch.GapHappens | flicsy/Pods/leveldb-library/table/table_builder.cc:94-102 | A concrete table with the builder's own separator and a target for which nothing is found although later entries exist |
| TableSearch.UserKeyIsFound | flicsy/Pods/leveldb-library/table/table.cc:216-244 | With filters that deny only blocks without the user key, the first entry at or after the target is found whenever it has that user key |
| TableBuilding.TableBuilder.Add | flicsy/Pods/leveldb-library/table/table_builder.cc:94-123 | Keys strictly increasing, the fields become those of the table with one more pair, with a separator for the block before chosen at the first key after it; the open block stays below the block size and every closed one has reached it |
| TableBuilding.TableBuilder.Flush | flicsy/Pods/leveldb-library/table/table_builder.cc:125-139 | Ends the current block, stores it under a handle of its size, adds it to the blocks and leaves its index entry pending; nothing when the block is empty |
| TableBuilding.TableBuilder.Finish | flicsy/Pods/leveldb-library/table/table_builder.cc:198-253 | The file is a table of all pairs added: blocks where the index says, separators at or after each block and before every later key, each key in the filter of its block, metaindex and footer; all blocks but the last have reached the block size |
| TableBuilding.SeparatorIsGood | flicsy/Pods/leveldb-library/table/table_builder.cc:94-110 | The separator chosen at the first key of the next block fits between the blocks |
| TableBuilding.LastSeparator | flicsy/Pods/leveldb-library/table/table_builder.cc:237-244 | So does the successor chosen for the last block |
| TableBuilding.UserNeverDenied | flicsy/Pods/leveldb-library/db/dbformat.cc:103-119 | A filter over internal keys never denies any internal key with the user part of one it was made of |
| TableReading.Open | flicsy/Pods/leveldb-library/table/table.cc:38-82 | Opening a finished table succeeds and reads its index and filters; any file is opened if and only if it ends in a footer with the magic number and its index block can be read |
| TableReading.Table.InternalGet | flicsy/Pods/leveldb-library/table/table.cc:216-244 | Returns what the index, the filter and the block iterator say the lookup finds, on the bytes of the file |
| TableReading.LookupsAreRight | flicsy/Pods/leveldb-library/table/table.cc:216-244 | A lookup finds nothing or the first entry at or after the target, and finds it whenever it has the target's user key; it misses an entry exactly in a gap or where the filter denies the block the index points to |
| TableReading.DeniedHasNoUser | flicsy/Pods/leveldb-library/table/table.cc:228-233 | A block the filter denies has no entry of the target's user key |
| TableReading.ReadMeta | flicsy/Pods/leveldb-library/table/table.cc:84-111 | Finds the filter block of the policy through the metaindex, when there is one |
| SkipLists.SkipList.FindGreaterOrEqual | flicsy/Pods/leveldb-library/db/skiplist.h:262-281 | Returns the first node at or after the key in the sorted list, and on every level the last node before it |
| SkipLists.SkipList.FindLessThan | flicsy/Pods/leveldb-library/db/skiplist.h:283-302 | Returns the last node before the key, or the head |
| SkipLists.SkipList.FindLast | flicsy/Pods/leveldb-library/db/skiplist.h:304-321 | Returns the last node of the list, or the head |
| SkipLists.SkipList.Contains | flicsy/Pods/leveldb-library/db/skiplist.h:370-378 | True exactly for the keys in the list |
| SkipLists.SkipList.SetOwnLink | flicsy/Pods/leveldb-library/db/skiplist.h:362-365 | The new node's own link is set to the node after its place, and no level changes |
| SkipLists.SkipList.Publish | flicsy/Pods/leveldb-library/db/skiplist.h:366 | Linking the new node in on its next level puts it at its place there, changes no other level and leaves all levels linked, strictly sorted and sublists of the ones below |
| SkipLists.SkipList.LinkAll | flicsy/Pods/leveldb-library/db/skiplist.h:358-367 | The bottom-up linking loop ends with the new node at its place on each of its levels and on no other |
| SkipListReaders.Shared.Run | flicsy/Pods/leveldb-library/db/skiplist.h:262-368 | Over every interleaving of the reads of any number of searches with the stores of any number of inserts: each search that has returned was right about a content the list had between its first and its last read, and contents grow by one key at a time |
| SkipListReaders.Shared.React | flicsy/Pods/leveldb-library/db/skiplist.h:262-368 | What an event is: a search begun or brought one read nearer to its end, an insert begun, or the next of its stores |
| SkipListReaders.Look | flicsy/Pods/leveldb-library/db/skiplist.h:262-321 | One read brings a search nearer on its level or down one, or ends it with the right answer for the list as it is at that read, in all three searches and iterator steps |
| SkipListReaders.Shared.Store | flicsy/Pods/leveldb-library/db/skiplist.h:336-368 | Each store of an insert, of the height, of the own link or of the link to the new node, keeps the list valid and every running search well placed; the key is in the list from the lowest level on |
| SkipListReaders.SearchesStay | flicsy/Pods/leveldb-library/db/skiplist.h:358-367 | Publishing a node at its place on a level leaves every search where it may be, and every answer given right |
| SkipListReaders.Shared.PublishedIsFound | flicsy/Pods/leveldb-library/db/skiplist.h:262-281 | A key published before a search for it began is found, whatever is inserted meanwhile |
| SkipLists.SkipList.Insert | flicsy/Pods/leveldb-library/db/skiplist.h:336-368 | The new node goes to its place on each level below its height and on no other; the keys become the old ones with the new one at its place |
| SkipLists.Iterator.Prev | flicsy/Pods/leveldb-library/db/skiplist.h:213-222 | Moves to the previous key by searching for it, or off the front |
| SkipLists.Iterator.Seek | flicsy/Pods/leveldb-library/db/skiplist.h:224-227 | Stands on the first key at or after the target |
| SkipLists.Iterator.Next | flicsy/Pods/leveldb-library/db/skiplist.h:207-211 | Moves to the next key |
| SkipLists.Iterator.SeekToLast | flicsy/Pods/leveldb-library/db/skiplist.h:234-240 | Stands on the last key |
| MemTables.MemTable.Add | flicsy/Pods/leveldb-library/db/memtable.cc:75-98 | Encodes the entry and puts it at its place; the entries are the old ones and this one |
| MemTables.MemTable.Get | flicsy/Pods/leveldb-library/db/memtable.cc:100-134 | Returns the value or deletion of the newest entry of the user key at or below the sequence number, or nothing when there is none |
| MemTables.BufferBack | flicsy/Pods/leveldb-library/db/memtable.cc:75-98 | Internal key and value are parsed back from the buffer of an entry |
| MemTables.OrderOfBuffers | flicsy/Pods/leveldb-library/db/memtable.cc:28-34 | Buffers compare as their entries do: user keys up, sequence numbers down |
| MemTables.LookupAnswers | flicsy/Pods/leveldb-library/db/memtable.cc:100-134 | The first entry not before the lookup key is the newest visible one of its user key, when there is one |
| Manifest.Builder.Apply | flicsy/Pods/leveldb-library/db/version_set.cc:650-692 | Folds an edit into the added and deleted files, a later addition clearing an earlier deletion |
| Manifest.Builder.SaveTo | flicsy/Pods/leveldb-library/db/version_set.cc:695-739 | Every level becomes the sorted list of base and added files that are not deleted |
| Manifest.Builder.SaveLevel | flicsy/Pods/leveldb-library/db/version_set.cc:700-719 | Merging base and added files by upper bounds lists them in the builder's order |
| Manifest.FoldIsStepwise | flicsy/Pods/leveldb-library/db/version_set.cc:886-992 | Folding all edits and dropping the deleted at the end gives the same files as editing one version after another, given each file is added to a level at most once |
| Manifest.ListIsUnique | flicsy/Pods/leveldb-library/db/version_set.cc:590-600 | There is one way to list the files of a level in order |
| Manifest.Replay | flicsy/Pods/leveldb-library/db/version_set.cc:886-992 | Recovery with one builder and one SaveTo gives, level by level, the same list as applying the edits one version at a time |
| Manifest.ApplyOne | flicsy/Pods/leveldb-library/db/version_set.cc:801-884 | One edit on the current version gives the version the edit describes |
| Manifest.SnapshotIsVersion | flicsy/Pods/leveldb-library/db/version_set.cc:1088-1116 | The snapshot record of a version, applied to an empty one, is the version |
| VersionEdits.VersionEdit.EncodeTo | flicsy/Pods/leveldb-library/db/version_edit.cc:41-85 | Appends the fields that are present, one tagged item after another in the order of the source |
| VersionEdits.VersionEdit.DecodeFrom | flicsy/Pods/leveldb-library/db/version_edit.cc:107-205 | On any bytes the edit ends as if cleared and given the items that can be read, and the status says whether that was everything |
| VersionEdits.ItemsBack | flicsy/Pods/leveldb-library/db/version_edit.cc:107-205 | Encoded items are read back in order with whatever follows them left over |
| VersionEdits.EditBack | flicsy/Pods/leveldb-library/db/version_edit.cc:26-39 | Decoding an encoded edit gives it back after the compaction pointers already held: exactly the edit if and only if there were none, because Clear keeps them |
| HandleTables.HandleTable.FindPointer | flicsy/Pods/leveldb-library/util/cache.cc:111-120 | Stops at the slot of the handle with that hash and key, or at the end of its bucket |
| HandleTables.HandleTable.Lookup | flicsy/Pods/leveldb-library/util/cache.cc:74-76 | Finds the entry with that hash and key, and nothing exactly when there is none |
| HandleTables.HandleTable.Insert | flicsy/Pods/leveldb-library/util/cache.cc:78-92 | The entries become the old ones, without the one of the same hash and key, and the new one; buckets stay well linked across a resize and are never fewer than the entries |
| HandleTables.HandleTable.Remove | flicsy/Pods/leveldb-library/util/cache.cc:94-102 | Takes exactly the entry of that hash and key out |
| HandleTables.HandleTable.Resize | flicsy/Pods/leveldb-library/util/cache.cc:122-146 | Moving every handle to a new array keeps the set of entries, each in the bucket of its hash; the array is the smallest power of two from 4 on with a bucket for each |
| LruCaches.RingRemove | flicsy/Pods/leveldb-library/util/cache.cc:239-242 | Taking an entry out leaves the others in a ring in their order |
| LruCaches.RingAppend | flicsy/Pods/leveldb-library/util/cache.cc:244-250 | Puts an entry last in a ring |
| LruCaches.LRUCache.Ref | flicsy/Pods/leveldb-library/util/cache.cc:217-223 | An idle cached entry moves to the in-use list; its references grow by one |
| LruCaches.LRUCache.Unref | flicsy/Pods/leveldb-library/util/cache.cc:225-237 | At the last reference the deleter runs; a cached entry only the cache holds moves to the end of the LRU list |
| LruCaches.LRUCache.Lookup | flicsy/Pods/leveldb-library/util/cache.cc:252-259 | Returns the cached entry of the key with one more client reference, or nothing |
| LruCaches.LRUCache.Release | flicsy/Pods/leveldb-library/util/cache.cc:261-264 | A client gives a reference up and the entry goes where its other holders put it |
| LruCaches.LRUCache.FinishErase | flicsy/Pods/leveldb-library/util/cache.cc:305-316 | An entry taken out of the table leaves its list and the usage, and lives on only while clients hold it |
| LruCaches.LRUCache.Insert | flicsy/Pods/leveldb-library/util/cache.cc:266-303 | The new entry is in, held by its client, the one it replaces is out, and the oldest idle ones are evicted: usage fits the capacity or no idle entry is left |
| LruCaches.LRUCache.Erase | flicsy/Pods/leveldb-library/util/cache.cc:318-321 | The entry of the key leaves the cache |
| LruCaches.LRUCache.Prune | flicsy/Pods/leveldb-library/util/cache.cc:323-333 | All idle entries are deleted, oldest first, and nothing else changes |
| LruCaches.Evicts | flicsy/Pods/leveldb-library/util/cache.cc:293-300 | Eviction drops the fewest of the oldest idle entries that make the charges fit |
| LruCaches.HistoriesBalance | flicsy/Pods/leveldb-library/util/cache.cc:217-333 | After any calls a live handle is held by clients exactly as often as it was handed out and not given back; every handle is deleted at most once, and then everything was given back |
| LruCaches.LruIsByAge | flicsy/Pods/leveldb-library/util/cache.cc:225-250 | After any calls the LRU list is in the order in which its entries were last made idle, as the list of calls says it |
| LruCaches.EvictsLongestIdle | flicsy/Pods/leveldb-library/util/cache.cc:293-300 | What an Insert evicts has been idle longer than every idle entry it keeps |
| LruCaches.Held.EraseGood | flicsy/Pods/leveldb-library/util/cache.cc:305-316 | Dropping an entry keeps every handle on the list its references select and takes its charge off |
| PbFields.FieldIter.Begin | flicsy/Pods/nanopb/pb_common.c:8-18 | The iterator stands at the first field with its offsets, and says whether there is one |
| PbFields.FieldIter.Next | flicsy/Pods/nanopb/pb_common.c:20-76 | The data and size offsets and the required-field index are functions of the position alone; past the last field it is back at the first |
| PbFields.FieldIter.FindTag | flicsy/Pods/nanopb/pb_common.c:78-95 | From any position finds the field with the tag wherever it is, or returns to where it was |
| PbEncode.OutStream.Write | flicsy/Pods/nanopb/pb_encode.c:103-124 | Counts, and writes unless the stream only counts, or fails exactly when the bytes do not fit |
| PbEncode.OutStream.EncodeVarint | flicsy/Pods/nanopb/pb_encode.c:608-628 | Writes the base-128 digits of the number |
| PbEncode.WriteArray | flicsy/Pods/nanopb/pb_encode.c:147-236 | Packs what can be packed after a tag and a length that equals the payload, tags every item otherwise, and fails on counts beyond the array |
| PbEncode.WritePacked | flicsy/Pods/nanopb/pb_encode.c:163-205 | The size computed by constants or by a counting pass is the number of bytes then written |
| PbEncode.WriteField | flicsy/Pods/nanopb/pb_encode.c:341-426 | Encodes the field at the iterator if it is there, by its rule: required, has-flag, proto3 default, count or which-tag |
| PbEncode.WriteFields | flicsy/Pods/nanopb/pb_encode.c:528-550 | Succeeds exactly when the message has an encoding that fits, and then writes exactly that; the same for counting and for writing streams |
| PbEncode.WriteSubmessage | flicsy/Pods/nanopb/pb_encode.c:717-765 | A counting pass, its size as prefix and a limited substream: the payload has exactly the announced length, so the branch for a changed size cannot be reached |
| PbEncode.WriteItem | flicsy/Pods/nanopb/pb_encode.c:769-912 | Writes the item by the encoder of its type, or fails where that does |
| PbEncode.DryRunAgrees | flicsy/Pods/nanopb/pb_encode.c:567-576 | A counting pass says exactly how many bytes a writing pass writes, and so whether they fit |
| PbEncode.GetEncodedSize | flicsy/Pods/nanopb/pb_encode.c:567-576 | The size returned is the length of the encoding |
| PbEncode.SimpleMessage | flicsy/Pods/nanopb/pb_encode.c:608-707 | The example of the Protocol Buffers encoding guide for an integer: 150 in field 1 is 08 96 01 |
| PbEncode.StringMessage | flicsy/Pods/nanopb/pb_encode.c:875-899 | Its string: "testing" in field 2 is 12 07 and seven bytes |
| PbEncode.EmbeddedMessage | flicsy/Pods/nanopb/pb_encode.c:717-765 | Its embedded message: the first one in field 3 is 1a 03 08 96 01 |
| PbEncode.PackedMessage | flicsy/Pods/nanopb/pb_encode.c:147-236 | Its packed array: 3, 270 and 86942 in field 4 are 22 06 03 8e 02 9e a7 05 |
| PbEncode.FixedMessages | flicsy/Pods/nanopb/pb_encode.c:641-707 | Wire types 1 and 5 and little-endian numbers of eight and four bytes |
| PbEncode.ZigZagTable | flicsy/Pods/nanopb/pb_encode.c:630-639 | Its table of zigzag numbers |
| PbDecoder.InStream.DecodeVarint | flicsy/Pods/nanopb/pb_decode.c:255-275 | Reads what the digits say in 64 bits, refusing what is longer or cut off |
| PbDecoder.InStream.DecodeVarint32 | flicsy/Pods/nanopb/pb_decode.c:187-252 | Reads a 32-bit varint, or a longer one whose further digits only repeat the sign |
| PbDecoder.InStream.MakeSubstream | flicsy/Pods/nanopb/pb_decode.c:372-385 | A stream over the bytes of a length-prefixed field, refused when they are not all there |
| PbDecoder.InStream.CloseSubstream | flicsy/Pods/nanopb/pb_decode.c:387-400 | The stream goes on right after the field, however much of it was read |
| PbDecoder.ReadItem | flicsy/Pods/nanopb/pb_decode.c:1328-1564 | Decodes an item by the decoder of its type, over what the field held |
| PbDecoder.ReadField | flicsy/Pods/nanopb/pb_decode.c:406-483 | Decodes into the place of the field by its rule: flag set, array grown, union switched |
| PbDecoder.ReadRepeated | flicsy/Pods/nanopb/pb_decode.c:424-464 | Adds one item or a packed run of items after those there are, or fails when they do not fit |
| PbDecoder.ReadMessage | flicsy/Pods/nanopb/pb_decode.c:928-1076 | On any bytes decodes field after field, skips unknown ones, checks fixed counts and required fields, and returns what the specification of decoding says |
| PbDecoder.CheckRequired | flicsy/Pods/nanopb/pb_decode.c:1033-1073 | True exactly when each of the first 64 required fields has been seen |
| PbDecoder.SetToDefaults | flicsy/Pods/nanopb/pb_decode.c:911-922 | Gives every field its default, recursively |
| PbRoundTrip.RoundTrip | flicsy/Pods/nanopb/pb_decode.c:1078-1090 | Every message of a well-formed descriptor that pb_encode encodes in fewer than 2^32 bytes, its strings terminated in their buffers and its which-tags zero or those of members, decoded over any memory, comes back: the same fields present with the same contents, and all bytes read |
| PbRoundTrip.MessageBack | flicsy/Pods/nanopb/pb_decode.c:928-1076 | The same for a nested message decoded without new defaults |
| PbRoundTrip.Advance | flicsy/Pods/nanopb/pb_decode.c:946-1024 | Reading the encoding of one field, whatever follows it, sets that field and leaves all others as they were |
| PbRoundTrip.StringBack | flicsy/Pods/nanopb/pb_decode.c:1481-1517 | A string is decoded back if and only if its terminator is inside its buffer |
| PbRoundTrip.Kept | flicsy/Pods/nanopb/pb_common.c:20-76 | A change of memory confined to one field leaves what has been decoded of every other field as it was, members of the same union included |
| PbRoundTrip.AllDefaultSame | flicsy/Pods/nanopb/pb_encode.c:238-337 | A proto3 submessage left out because all of it is default is the same as one freshly initialized |
| PbRoundTrip.DefaultIsEmpty | flicsy/Pods/nanopb/pb_encode.c:238-337 | A message passes the default check if and only if it would encode to nothing |
| PbRoundTrip.LeftOutExactly | flicsy/Pods/nanopb/pb_encode.c:341-426 | A proto3 field is left out if and only if it is zero, empty, or a submessage that would encode to nothing |
| PbRoundTrip.Varint32Back | flicsy/Pods/nanopb/pb_decode.c:187-252 | A number below 2^32 encoded as a 64-bit varint is read back by the 32-bit decoder |
| PbRoundTrip.ZigZagBack | flicsy/Pods/nanopb/pb_encode.c:630-639 | Decoding a zigzag number gives back every 64-bit signed number |
| PbRoundTrip.BitsBack | flicsy/Pods/nanopb/pb_decode.c:1339-1374 | Sign extension to 64 bits is undone by the cast to the field's size |
| PbSafety.AnyBytesFit | flicsy/Pods/nanopb/pb_decode.c:928-1076 | Whatever bytes are decoded over whatever memory: every number is in the range of its field, every buffer in its size, every string terminated in its buffer, every array within its length, and a union holds a member its tag names; all the way down |
| PbSafety.AllOrNothing | flicsy/Pods/nanopb/pb_decode.c:991-1031 | A fixed-count array is filled with as many items as it has, all of which fit, or left as it was |
| PbSafety.DecodedComesBack | flicsy/Pods/nanopb/pb_decode.c:1078-1090 | Any bytes that are decoded give a message that is encoded again, and whose encoding decodes to the same message; for descriptors without fixed-count arrays |
| PbVersions.UnknownItem | flicsy/Pods/nanopb/pb_decode.c:984-988 | An item of any type under a tag the descriptor does not have changes nothing, whatever was read before and whatever follows |
| PbVersions.UnknownField | flicsy/Pods/nanopb/pb_decode.c:321-331 | Nor does a whole field, its array packed or item by item |
| PbVersions.NewerMessageBack | flicsy/Pods/nanopb/pb_decode.c:928-1090 | Forward compatibility: a message of a descriptor with further fields, read with the older one, gives the same known fields with the same contents |
| PbVersions.OlderMessageBack | flicsy/Pods/nanopb/pb_decode.c:1033-1073 | Backward compatibility: a message of an older descriptor is refused if and only if one of the required fields added since is among the 64 that are checked; otherwise its fields come back and those added are not set |

## Left out

- User keys in the store-level modules, in the skip list and in the iterators are places in the order of the comparator; every countable order embeds in the reals. The byte-level modules use the bytewise comparator only.
- MemTables.MemTable.Add: the skip list below the memtable is taken by its contract, as a sorted sequence of buffers; arenas and heights are not part of this model.
- Snappy compression, memory-mapped files, the block cache in front of table reads, and table caches: blocks are stored and read uncompressed.
- Failing reads, writes and syncs: only crashes happen. A torn log tail is one that lost whole bytes at its end.
- Memtable flushes inside a running compaction: a compaction is one step on the version it was picked from.
- Compactions.DoCompactionWork: the size of an output is any function of its entries; corrupted internal keys and manual cancellation are not modelled.
- CrashSafety.RunsKeepTheLedger: with `reuse_logs` off and no previous log number; a compaction's outputs are any part of its inputs, what it drops being the subject of the other modules.
- LsmRecovery.RunsSurviveCrashes: a crash may take any part of the memtables, which part being the subject of CrashSafety; every new version records the last sequence number of its time.
- SkipListReaders.Shared.Run: the search an insert makes for its place is one step, since nobody else changes the list.
- CrashSafety.DurableStays: an entry a compaction drops is exempt, since its newer version or marker need not be durable in the same place.
- DbIter.DBIter.Next: corrupted internal keys and read sampling.
- The cache of key and validity in IteratorWrapper, and the status of iterators.
- LogReader.Reader.ReadRecord: offsets inside a file other than 0, resynchronization, and last_record_offset.
- Blocks.DecodeEntry: the sum of three 32-bit lengths is exact; the wrap-around in the bounds check of the source is not modelled.
- Offsets, sizes and handles are unbounded except where a format limits them.
- HandleTables.HandleTable.FindPointer: the bucket is the remainder of the hash by the length of the table, which is what the mask of the source computes for its powers of two; 32-bit counts do not wrap.
- LruCaches.LRUCache.Insert: values and deleters are represented by the log of deleted handles; sharding and the mutex are left out, each operation being one step under it.
- SkipLists.SkipList.Publish: each store is one step seen by all readers; weaker memory orders are not modelled.
- WriterQueue.EveryInterleaving: steps are those between lock acquisitions; slowdown sleeps only delay.
- Bloom and cache hashes are arbitrary functions; rates of false positives are not stated.
- Compaction scores, seek statistics, picking by score, `repair.cc`, `dumpfile.cc`, `c.cc`, option clipping, debug strings.
- nanopb pointer, callback and extension fields, and `PB_WITHOUT_64BIT`.
- PbDecoder.InStream.DecodeVarint32: an overlong varint of more than 36 bytes, whose 8-bit shift count wraps around in the source.
- PbDecoder.CheckRequired: the required fields seen are a set of numbers below 64, not two 32-bit words.
- PbEncode.WriteItem: memory holds typed items at offsets, so an item of another type than its field's cannot arise; a boolean is 0 or 1; sizes do not wrap.
- PbRoundTrip.RoundTrip: what an absent field, an inactive union member or the rest of a string buffer holds is not compared; a message of 2^32 bytes or more is not covered, since lengths are decoded in 32 bits.
- PbSafety.DecodedComesBack: not for descriptors with fixed-count arrays, because such an array keeps whatever was in memory when the bytes have none of it.
- PbSafety.AnyBytesFit: says nothing of fixed-count arrays, which are the subject of PbSafety.AllOrNothing; what a failed decoding leaves behind is not modelled.
- Bloom.CreateFilter: the number of probes is any from 1 to 30; that it is 0.69 times the bits per key is not modelled.
- The Swift files, BoringSSL and the operating-system layer: no algorithmic content, or generated.
