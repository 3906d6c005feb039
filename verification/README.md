# A verified model of the storage engine and the message codec

The app's dependencies contain leveldb 1.22, a log-structured store, and nanopb 0.3.9.5, a schema-driven
Protocol Buffers codec. The project models both and proves what they are for.

**The store.** Writes go to a log and a memtable, memtables are flushed to sorted tables, and compactions merge
tables down seven levels. The specification is one finite set of entries (user key, sequence, type, value); a
read at a snapshot returns the newest entry of the key at or below it. Each layer is proved to agree with it:

- keys and lookups: `DbFormat`, `FileLevels`, `Version`, `Db`, and the same order over key bytes in `ByteKeys`;
- versions and compactions: `Builder`, `VersionSet`, `Install`, `CompactionInputs`, `Compaction`,
  `CompactionReads`, `LostDeletion`, and the manifest, from its bytes to the version, in `Manifest`,
  `ManifestReplay` and `VersionEditCodec`;
- iterators: `DbIter` over the merging iterator in `Iterators` over `TableCursor` and `LevelCursor` over `TwoLevel`
  over `BlockIter`; `StoreIterator` builds the whole stack over the bytes of a store, `MergeInput` that of a compaction;
- tables as bytes: `BlockLayout`, `BlockBuilder`, `Block`, `BlockIter`, `Bloom`, `FilterBlock`, `TableFormat`,
  `TableBuilder`, `Table`, and `TableGet`, which ties a lookup in the bytes to the seek in the entries that
  `Version` is built on;
- the memtable's skip list, one store or load a step, in `SkipList`, the bytes of its entries in `MemTable`, and
  those of batches in `WriteBatch`, both with the strings of `LengthPrefix`;
- the log in `Log` and `LogReader`, the queue of writers in `WriteQueue`, and crashes and recovery over all
  runs in `Durability`;
- the block cache in `HandleTable` and `LruCache`;
- the formats of all these bytes, with their numbers written out, in `Formats`.

**The codec.** `PbTypes` gives schemas, messages and their encoding, `PbDecode` what a decoder makes of bytes;
`PbEncode` and `PbDecoder` are the streams and loops proved against them, and `PbRoundTrip` connects the two.
`PbWire` scans encodings by the wire format's own rules, `PbEvolve` says what is made of bytes that another schema
produced, `PbMerge` of messages one behind the other, and `PbReencode` that what was decoded can be encoded again.

Two properties the store promises turn out to need a condition. A compaction keeps all reads if and only if it
exposes no entry of a lower file left out of its inputs (`CompactionReads.ReadsPreserved`;
`LostDeletion` has a store where it does, and how that store comes about). An edit decoded into an object used
before equals the encoded one if and only if that object had no compaction pointers
(`VersionEditCodec.DecodeUndoesEncode`). In the codec, a string that fills its array is sent but not received
(`PbRoundTrip.StringNeedsTerminator`), some 64-bit numbers pass for 32-bit ones
(`PbEvolve.WideDecoded`), a 32-bit number may be too long and wraps around (`PbEvolve.LongNumberWraps`), and nested
messages in two parts are merged unless they hold fixed arrays (`PbMerge.FixedArraysDoNotMerge`).

`dafny verify dfyconfig.toml` checks the whole project.

## Model

| member | source | states |
|---|---|---|
| DbFormat.LessIsStrictTotalOrder | iOS Applicant Form/Pods/leveldb-library/db/dbformat.cc:51-67 | the internal key order is a strict total order: user key up, then (sequence, type) down |
| DbFormat.LookupKeySplits | iOS Applicant Form/Pods/leveldb-library/db/dbformat.cc:121-138 | the key built for a lookup at sequence s separates exactly the entries of that user key that are visible at s from the invisible ones |
| DbFormat.ReadLayers | iOS Applicant Form/Pods/leveldb-library/db/db_impl.cc:1120-1132 | a read over a newer and an older layer is the newer layer's answer if it has a visible entry, else the older layer's |
| DbFormat.SeekFindsNewest | iOS Applicant Form/Pods/leveldb-library/db/memtable.cc:100-134 | seeking the lookup key in any sorted run lands on the newest visible entry of the user key, or on another user key when none is visible |
| FileLevels.FindFile | iOS Applicant Form/Pods/leveldb-library/db/version_set.cc:88-106 | binary search: every file before the answer ends before the key, every file from it on does not |
| FileLevels.SomeFileOverlapsRange | iOS Applicant Form/Pods/leveldb-library/db/version_set.cc:122-160 | true exactly when some file of the level overlaps the user key range, for the linear and the binary search branch, with open ends |
| FileLevels.GetOverlappingInputs | iOS Applicant Form/Pods/leveldb-library/db/version_set.cc:519-559 | level 0 restarts end, with a decreasing measure, in the least user key range around the request that no outside file overlaps; other levels use the request itself; the result is every file overlapping that range, in order |
| FileLevels.AddBoundaryInputs | iOS Applicant Form/Pods/leveldb-library/db/version_set.cc:1378-1401 | the loop ends with no file of the level starting, on the same user key, after the largest chosen key; it only appends; a contiguous choice stays contiguous; nothing is added when nothing continues the choice |
| FileLevels.FindSmallestBoundaryFile | iOS Applicant Form/Pods/leveldb-library/db/version_set.cc:1344-1364 | the file with least start among those that continue the largest key, if any |
| FileLevels.FindLargestKey | iOS Applicant Form/Pods/leveldb-library/db/version_set.cc:1326-1342 | the greatest largest key of the files; none exactly for no files |
| Version.TableGetSaves | iOS Applicant Form/Pods/leveldb-library/db/version_set.cc:263-276 | the saver holds the newest visible entry of one table, a deletion marker being told apart from nothing found |
| Version.LevelSaves | iOS Applicant Form/Pods/leveldb-library/db/version_set.cc:362-377 | in a sorted disjoint level the one file picked by binary search answers for the whole level, also when adjacent files share a boundary user key |
| Version.GetLevel0 | iOS Applicant Form/Pods/leveldb-library/db/version_set.cc:343-360 | trying the covering level-0 files newest number first answers for the whole level |
| Version.VersionUnique | iOS Applicant Form/Pods/leveldb-library/db/version_set.cc:746-749 | in a shaped version no two entries of a user key share a sequence number, within or across levels |
| Version.Get | iOS Applicant Form/Pods/leveldb-library/db/version_set.cc:326-421 | for every shaped version, key and snapshot the lookup returns the newest entry at or below the snapshot over all entries of all files |
| Builder.SaveLevel | iOS Applicant Form/Pods/leveldb-library/db/version_set.cc:695-739 | merging base files and added files gives, sorted by smallest key, exactly the base and added files not deleted |
| Builder.Builder.Apply | iOS Applicant Form/Pods/leveldb-library/db/version_set.cc:650-692 | accumulates one edit: deletions, and additions that cancel an earlier deletion of the same number |
| Builder.Builder.SaveTo | iOS Applicant Form/Pods/leveldb-library/db/version_set.cc:695-739 | each level of the new version is sorted and holds base minus deleted plus added |
| VersionSet.ApplyEdit | iOS Applicant Form/Pods/leveldb-library/db/version_set.cc:816-821 | applying an edit to a shaped version gives per level the old files without the deleted numbers plus the new files, sorted |
| VersionSet.PickLevelForMemTableOutput | iOS Applicant Form/Pods/leveldb-library/db/version_set.cc:491-516 | the flush goes to the first level that has a reason to stop, or to level 2: a file of level 0 or of the next level overlaps the table, or those of the level after that which overlap it hold more than ten times the greatest file size; no smaller level has one |
| VersionSet.MergeEdit | iOS Applicant Form/Pods/leveldb-library/db/version_set.cc:1525-1531 | the edit of a merge deletes exactly its inputs, level by level, and adds exactly its outputs one level down |
| VersionSet.MergeInstalls | iOS Applicant Form/Pods/leveldb-library/db/db_impl.cc:860-876 | applying the edit of a merge replaces the inputs of the two levels by the outputs and touches no other level |
| Install.FlushShaped | iOS Applicant Form/Pods/leveldb-library/db/db_impl.cc:518-526 | a flushed table newer than all files, placed where the level choice allows, keeps levels disjoint and newer entries shallower |
| Install.MoveShaped | iOS Applicant Form/Pods/leveldb-library/db/db_impl.cc:718-725 | moving one file down a level with no overlap keeps levels disjoint and newer entries shallower |
| Install.MergeShaped | iOS Applicant Form/Pods/leveldb-library/db/db_impl.cc:860-876 | replacing the inputs of a merge by its outputs keeps levels disjoint and newer entries shallower, for every choice of inputs the set-up can make |
| Install.OutputSource | iOS Applicant Form/Pods/leveldb-library/db/db_impl.cc:972-987 | every entry of an output comes from an input file of one of the two levels |
| CompactionInputs.GetRange | iOS Applicant Form/Pods/leveldb-library/db/version_set.cc:1205-1225 | least start and greatest end of the files, both attained |
| CompactionInputs.ExpandInputs | iOS Applicant Form/Pods/leveldb-library/db/version_set.cc:1416-1440 | the upper inputs are grown exactly when that adds a file, leaves the number of lower inputs as it was and keeps both below 25 times the greatest file size; then they are all that the whole range overlaps, and the grown set is as good as the first |
| CompactionInputs.SetupOtherInputs | iOS Applicant Form/Pods/leveldb-library/db/version_set.cc:1403-1462 | upper inputs are those picked and their boundary files, grown where that is allowed, and newer than every upper file left out; lower inputs are exactly the lower files overlapping their range; grandparents are the files two levels down that overlap all inputs |
| CompactionInputs.PickCompaction | iOS Applicant Form/Pods/leveldb-library/db/version_set.cc:1270-1324 | from any picked file, at level 0 widened to all that it overlaps, the set-up yields inputs that contain the file and meet all the conditions of a merge |
| CompactionInputs.SeedsCloseUpper | iOS Applicant Form/Pods/leveldb-library/db/version_set.cc:1407-1408 | closing the seeds under boundary user keys leaves no upper file out that holds newer entries of a user key of the inputs |
| Compaction.PointerDecides | iOS Applicant Form/Pods/leveldb-library/db/version_set.cc:1533-1552 | one pointer position decides for a whole sorted level whether it may hold the user key |
| Compaction.Compaction.IsBaseLevelForKey | iOS Applicant Form/Pods/leveldb-library/db/version_set.cc:1533-1552 | for non-decreasing keys the moving pointers answer like a full scan: true exactly when no deeper file covers the user key |
| Compaction.LastSequenceDecides | iOS Applicant Form/Pods/leveldb-library/db/db_impl.cc:943-949 | the remembered sequence number of the previous entry is at most the smallest snapshot exactly when some newer input entry of the key already is |
| Compaction.ShouldDrop | iOS Applicant Form/Pods/leveldb-library/db/db_impl.cc:926-963 | an entry is dropped exactly when it is shadowed by a newer one visible at the smallest snapshot, or is a deletion marker at or below it whose key no deeper level covers |
| Compaction.SplitIsRun | iOS Applicant Form/Pods/leveldb-library/db/db_impl.cc:965-1003 | cutting the kept entries into tables gives good files, disjoint and sorted, whose entries are exactly the kept ones |
| Compaction.DoCompactionWork | iOS Applicant Form/Pods/leveldb-library/db/db_impl.cc:878-1036 | for every sorted input the outputs are a sorted disjoint run of good tables with consecutive numbers holding exactly the input minus the dropped entries; each is as large as its finished table, ends with the entry that brings it to the limit and spans at most ten times the limit of grandparents, and none but the last is closed without one of these two reasons |
| CompactionReads.ReadsPreserved | iOS Applicant Form/Pods/leveldb-library/db/db_impl.cc:890-999 | a compaction keeps every read at or above the smallest snapshot if and only if no dropped deletion marker exposes an older entry of the same key in a left-out file of the lower level |
| CompactionReads.ExposedChangesRead | iOS Applicant Form/Pods/leveldb-library/db/version_set.cc:1410-1411 | whenever such a file exists the read at the smallest snapshot does change: the deleted value comes back |
| CompactionReads.LowerClosedExposesNothing | iOS Applicant Form/Pods/leveldb-library/db/version_set.cc:1407-1422 | when no left-out lower file shares a user key with an input file, nothing is exposed, so every read is kept |
| LostDeletion.CompactionLosesDeletion | iOS Applicant Form/Pods/leveldb-library/db/version_set.cc:1403-1422 | a shaped store on which the set-up leaves a lower boundary file out: a key deleted at the snapshot reads as its old value after the compaction |
| LostDeletion.MergeMakesLower | iOS Applicant Form/Pods/leveldb-library/db/db_impl.cc:926-1003 | a merge at an older snapshot, over valid inputs of a shaped store, writes exactly the two lower files of that store, numbered upwards |
| LostDeletion.FlushMakesUpper | iOS Applicant Form/Pods/leveldb-library/db/version_set.cc:491-516 | a flush of a newer memtable may then put the upper file on its level, as no level down to it overlaps it |
| Iterators.MergingIterator.Seek | iOS Applicant Form/Pods/leveldb-library/table/merger.cc:47-53 | over children with distinct keys, lands like one cursor on the sorted union of the children |
| Iterators.MergingIterator.SeekToFirst | iOS Applicant Form/Pods/leveldb-library/table/merger.cc:31-37 | lands on the first entry of the sorted union |
| Iterators.MergingIterator.SeekToLast | iOS Applicant Form/Pods/leveldb-library/table/merger.cc:39-45 | lands on the last entry of the sorted union |
| Iterators.MergingIterator.Next | iOS Applicant Form/Pods/leveldb-library/table/merger.cc:55-79 | steps to the next entry of the sorted union, after a switch from reverse too |
| Iterators.MergingIterator.Prev | iOS Applicant Form/Pods/leveldb-library/table/merger.cc:81-108 | steps to the previous entry of the sorted union, after a switch from forward too |
| Iterators.StepOver | iOS Applicant Form/Pods/leveldb-library/table/merger.cc:55-79 | advancing one child keeps every child on its first entry after the merged position |
| Iterators.StepBack | iOS Applicant Form/Pods/leveldb-library/table/merger.cc:81-108 | retreating one child keeps every child on its last entry before the merged position |
| MergeInput.MakeInputIterator | iOS Applicant Form/Pods/leveldb-library/db/version_set.cc:1237-1268 | iterating over the inputs of a compaction yields exactly their entries in internal key order |
| MergeInput.InputsUnique | iOS Applicant Form/Pods/leveldb-library/db/version_set.cc:1237-1268 | the inputs of a compaction never hold two entries with the same user key and sequence number |
| StoreIterator.NewIterator | iOS Applicant Form/Pods/leveldb-library/db/db_impl.cc:1147-1157 | the user's iterator over the bytes of all tables and the memtables, one cursor on the snapshot's map: the map is what reads of the store at the snapshot return, and of the whole history if the store is faithful |
| StoreIterator.NewInternalIterator | iOS Applicant Form/Pods/leveldb-library/db/db_impl.cc:1062-1087 | memtable, immutable memtable and table iterators share no entry, and merged they run over exactly the store's entries in order |
| StoreIterator.AddIterators | iOS Applicant Form/Pods/leveldb-library/db/version_set.cc:230-246 | an iterator for each file of level 0 and one for each deeper level with files: together they hold each entry of the version once |
| StoreIterator.MakeInputIterator | iOS Applicant Form/Pods/leveldb-library/db/version_set.cc:1237-1268 | over table bytes: the merged inputs of a compaction are exactly their entries, in order |
| StoreIterator.ReadInputs | iOS Applicant Form/Pods/leveldb-library/db/version_set.cc:1237-1268 | what a compaction reads from table bytes is the one sorted sequence of its input entries |
| LevelCursor.LevelCursor.Seek | iOS Applicant Form/Pods/leveldb-library/db/version_set.cc:164-228 | over a deeper level's files, tables opened one after the other, lands on the first entry at or after the target of the whole level |
| LevelCursor.LevelCursor.SeekToFirst | iOS Applicant Form/Pods/leveldb-library/db/version_set.cc:164-228 | lands on the level's first entry |
| LevelCursor.LevelCursor.SeekToLast | iOS Applicant Form/Pods/leveldb-library/db/version_set.cc:164-228 | lands on the level's last entry |
| LevelCursor.LevelCursor.Next | iOS Applicant Form/Pods/leveldb-library/table/two_level_iterator.cc:103-126 | moves to the level's next entry, into the next file if it must |
| LevelCursor.LevelCursor.Prev | iOS Applicant Form/Pods/leveldb-library/table/two_level_iterator.cc:109-139 | moves to the level's previous entry, into the file before if it must |
| LevelCursor.BuildTable | iOS Applicant Form/Pods/leveldb-library/db/builder.cc:17-77 | what is written for a file opens as a table of exactly the file's entries |
| LevelCursor.SeekPlace | iOS Applicant Form/Pods/leveldb-library/db/version_set.cc:171-173 | the file found for a key and the place in it are the key's place in the level |
| TableCursor.TableCursor.Seek | iOS Applicant Form/Pods/leveldb-library/table/table.cc:210-214 | over a table's bytes, lands on the first entry at or after the target |
| TableCursor.TableCursor.Current | iOS Applicant Form/Pods/leveldb-library/table/two_level_iterator.cc:32-39 | decoding the current key and value bytes gives the entry at the place |
| Db.MemTableAdd | iOS Applicant Form/Pods/leveldb-library/db/memtable.cc:75-98 | adding an entry newer than all keeps the table sorted and adds exactly that entry |
| MemTable.MemTable.Get | iOS Applicant Form/Pods/leveldb-library/db/memtable.cc:100-134 | over entry bytes in the skip list, a lookup answers as one seek in the sorted entries of the memtable does |
| MemTable.MemTable.Add | iOS Applicant Form/Pods/leveldb-library/db/memtable.cc:75-98 | the list and its entry bytes hold exactly one entry more |
| MemTable.RankOrders | iOS Applicant Form/Pods/leveldb-library/db/memtable.cc:28-34 | the order of the numbers that the list holds is the order of the internal keys |
| MemTable.EntryRead | iOS Applicant Form/Pods/leveldb-library/db/memtable.cc:75-127 | an entry's bytes give back its internal key and value |
| MemTable.LeastIsSeek | iOS Applicant Form/Pods/leveldb-library/db/memtable.cc:100-107 | the least node from the lookup key on is where a seek in the sorted entries lands |
| MemTable.InsertInto | iOS Applicant Form/Pods/leveldb-library/db/write_batch.cc:114-137 | the updates that a batch's bytes hand out, up to an error, go in as entries with consecutive numbers from the batch's |
| WriteBatch.BatchIterates | iOS Applicant Form/Pods/leveldb-library/db/write_batch.cc:42-79 | iterating over the bytes of a batch hands out exactly its updates in order, without an error if and only if their number fits the count |
| WriteBatch.CountDecides | iOS Applicant Form/Pods/leveldb-library/db/write_batch.cc:73-77 | whatever count its header has, a batch hands out its updates in order and ends in the error about the count if and only if they are not so many |
| WriteBatch.DamageDetected | iOS Applicant Form/Pods/leveldb-library/db/write_batch.cc:50-72 | a batch damaged behind some updates hands out these and ends in the error for an unknown tag, a bad put or a bad delete |
| WriteBatch.WriteBatch.PutUpdate | iOS Applicant Form/Pods/leveldb-library/db/write_batch.cc:98-103 | the bytes become those of the batch with a value added, as AddedIsBatch shows |
| WriteBatch.WriteBatch.DeleteUpdate | iOS Applicant Form/Pods/leveldb-library/db/write_batch.cc:105-109 | the bytes become those of the batch with a deletion added |
| WriteBatch.WriteBatch.Append | iOS Applicant Form/Pods/leveldb-library/db/write_batch.cc:144-148 | the bytes become those of both batches, as AppendedIsBatch shows, also for a batch appended to itself |
| WriteBatch.AddedIsBatch | iOS Applicant Form/Pods/leveldb-library/db/write_batch.cc:98-109 | adding an update to a batch's bytes gives the batch of all of them |
| WriteBatch.AppendedIsBatch | iOS Applicant Form/Pods/leveldb-library/db/write_batch.cc:144-149 | appending gives the batch of both lists of updates, with the first one's sequence number |
| WriteBatch.SequencedIsBatch | iOS Applicant Form/Pods/leveldb-library/db/write_batch.cc:94-96 | setting the sequence number changes nothing else |
| WriteBatch.WriteBatch.Iterate | iOS Applicant Form/Pods/leveldb-library/db/write_batch.cc:42-79 | the loop over any bytes hands out the updates before the first error, and that error |
| LengthPrefix.PrefixedRead | iOS Applicant Form/Pods/leveldb-library/util/coding.cc:181-190 | a length-prefixed string is read back and the bytes after it are left |
| LengthPrefix.PrefixedCut | iOS Applicant Form/Pods/leveldb-library/util/coding.cc:181-190 | a length-prefixed string cut short anywhere is not read |
| Db.InsertInto | iOS Applicant Form/Pods/leveldb-library/db/write_batch.cc:132-137 | a batch goes in whole, one sequence number per update |
| Db.ReadThroughLayer | iOS Applicant Form/Pods/leveldb-library/db/db_impl.cc:1120-1132 | stopping at the first layer that knows the key, value or deletion, answers for all layers together |
| Db.MergeEntries | iOS Applicant Form/Pods/leveldb-library/db/db_impl.cc:860-876 | installing a merge removes exactly the dropped entries from the version |
| Db.MoveFile | iOS Applicant Form/Pods/leveldb-library/db/db_impl.cc:714-731 | the version has the file one level down and is otherwise the same, with the same entries |
| Db.MoveDecided | iOS Applicant Form/Pods/leveldb-library/db/version_set.cc:1516-1523 | a compaction is a trivial move exactly for one upper and no lower input whose grandparents hold at most ten times the greatest file size |
| Db.MergeFiles | iOS Applicant Form/Pods/leveldb-library/db/db_impl.cc:860-876 | in the new version exactly the inputs of the two levels are gone and the outputs are on the lower one |
| Db.WriteLevel0Table | iOS Applicant Form/Pods/leveldb-library/db/db_impl.cc:491-533 | the new version is the old one with one table more, of exactly the memtable's entries, on the first level that has a reason to stop; an empty memtable leaves the version as it is |
| Db.MergeFaithful | iOS Applicant Form/Pods/leveldb-library/db/db_impl.cc:878-1036 | with entries still in memtables, a merge keeps all reads of the whole history at or above the smallest snapshot if and only if it exposes nothing |
| Db.CompactStore | iOS Applicant Form/Pods/leveldb-library/db/db_impl.cc:688-767 | one background compaction on any store: a lone input over few bytes of grandparents moves down one level and nothing else changes; any other inputs, exactly these, are swapped for the outputs of their merge one level down; shape, layers and numbers are kept and the store loses exactly the dropped entries |
| Db.BatchKeepsReads | iOS Applicant Form/Pods/leveldb-library/db/db_impl.cc:1201-1240 | writing a newer batch keeps the store's reads equal to those of the full history |
| Db.DBImpl.Get | iOS Applicant Form/Pods/leveldb-library/db/db_impl.cc:1100-1145 | memtable, immutable memtable, version: the answer is the newest visible write of the whole history at every snapshot the store still serves |
| Db.DBImpl.Write | iOS Applicant Form/Pods/leveldb-library/db/db_impl.cc:1185-1256 | the history grows by exactly the batch with the next sequence numbers; the store stays faithful |
| Db.DBImpl.CompactMemTable | iOS Applicant Form/Pods/leveldb-library/db/db_impl.cc:535-566 | a committed flush makes the version with the memtable's table on its level current, a failed one leaves the version; history and reads stay as they were |
| Db.DBImpl.BackgroundCompaction | iOS Applicant Form/Pods/leveldb-library/db/db_impl.cc:688-767 | a committed compaction installs the trivial move or the merge of the inputs that the picked file leads to, a failed one leaves the version; the store stays faithful to the whole history unless a merge exposes a left-out entry, and then it does not |
| DbIter.YieldsIsRead | iOS Applicant Form/Pods/leveldb-library/db/db_iter.cc:168-198 | an entry the scan may stop on is exactly the newest visible entry of its key, and a value |
| DbIter.ReadHasYield | iOS Applicant Form/Pods/leveldb-library/db/db_iter.cc:168-198 | every key with a visible value has such an entry |
| DbIter.DBIter.FindNextUserEntry | iOS Applicant Form/Pods/leveldb-library/db/db_iter.cc:168-198 | stops on the first yield after the position, past invisible, shadowed and deleted entries |
| DbIter.DBIter.FindPrevUserEntry | iOS Applicant Form/Pods/leveldb-library/db/db_iter.cc:227-267 | remembers the last yield before the position and stops just before its key |
| DbIter.DBIter.GetKey | iOS Applicant Form/Pods/leveldb-library/db/db_iter.cc:64-67 | from either direction, the user key that the iterator is on |
| DbIter.DBIter.GetValue | iOS Applicant Form/Pods/leveldb-library/db/db_iter.cc:68-71 | from either direction, the value of that key in the snapshot's map |
| DbIter.DBIter.Seek | iOS Applicant Form/Pods/leveldb-library/db/db_iter.cc:269-281 | lands on the least key at or above the target that the snapshot's map holds, with its value |
| DbIter.DBIter.SeekToFirst | iOS Applicant Form/Pods/leveldb-library/db/db_iter.cc:283-292 | lands on the least key of the snapshot's map |
| DbIter.DBIter.SeekToLast | iOS Applicant Form/Pods/leveldb-library/db/db_iter.cc:294-299 | lands on the greatest key of the snapshot's map |
| DbIter.DBIter.Next | iOS Applicant Form/Pods/leveldb-library/db/db_iter.cc:141-166 | from any valid position, either direction, moves to the next key of the snapshot's map |
| DbIter.DBIter.Prev | iOS Applicant Form/Pods/leveldb-library/db/db_iter.cc:200-225 | from any valid position, either direction, moves to the previous key of the snapshot's map |
| Log.UnmaskMask | iOS Applicant Form/Pods/leveldb-library/util/crc32c.h:29-38 | unmasking undoes masking for every 32-bit checksum, wrap-around included |
| Coding.DecodeEncodeFixed32 | iOS Applicant Form/Pods/leveldb-library/util/coding.cc:9-18 | decoding undoes the little-endian encoding of every 32-bit word |
| Log.MaskedCodecGood | iOS Applicant Form/Pods/leveldb-library/db/log_writer.cc:92-95 | masked and stored checksums come back unchanged for any checksum function |
| Log.Writer.AddRecord | iOS Applicant Form/Pods/leveldb-library/db/log_writer.cc:34-80 | appends exactly the fragments of the record at the current block offset, with zero trailers, empty records and empty first fragments |
| LogReader.RecordStarts | iOS Applicant Form/Pods/leveldb-library/db/log_reader.cc:56-174 | where a record's bytes lie in the file its fragments lie, in order and with the right types |
| LogReader.AbsorbsPart | iOS Applicant Form/Pods/leveldb-library/db/log_reader.cc:75-171 | each fragment of a record extends the scratch; only the last one finishes it; none reports an error |
| LogReader.LogPrefix | iOS Applicant Form/Pods/leveldb-library/db/log_writer.cc:34-80 | the file after k records is a prefix of the file after all of them |
| LogReader.ReadLog | iOS Applicant Form/Pods/leveldb-library/db/log_reader.cc:56-174 | reading any byte prefix of a log returns exactly the records wholly inside it, in order, with no report |
| LogReader.Reader.ReadPhysicalRecord | iOS Applicant Form/Pods/leveldb-library/db/log_reader.cc:189-271 | for any file: what is taken for a fragment, for the end or for a bad record, and what is reported, is decided by the header bytes, the length against the block and the stored checksum of type and payload; a bad length or checksum drops the rest of the block with one report |
| LogReader.FragmentSound | iOS Applicant Form/Pods/leveldb-library/db/log_reader.cc:243-256 | a fragment returned lies whole in the file there, and the checksum stored before it is that of its type and payload |
| LogReader.Reader.ReadRecord | iOS Applicant Form/Pods/leveldb-library/db/log_reader.cc:56-174 | for any file: a record returned is the payloads of fragments of the file with right checksums, a whole one, or a first one, middle ones and a last one with nothing between them |
| LogReader.RoundTrip | iOS Applicant Form/Pods/leveldb-library/db/log_reader.cc:56-174 | records written by writers reopened at any point come back exactly |
| WriteQueue.BuildBatchGroup | iOS Applicant Form/Pods/leveldb-library/db/db_impl.cc:1260-1306 | the group is the longest run from the front allowed by the size limits and by the leader's sync option; its batch is their updates in order |
| WriteQueue.GroupLimits | iOS Applicant Form/Pods/leveldb-library/db/db_impl.cc:1266-1302 | a first write of up to 128 KB is joined by at most 128 KB more, a larger one up to 1 MB in all; no synced write joins one that is not; and the next writer is left out for one of these reasons alone |
| WriteQueue.StepKeeps | iOS Applicant Form/Pods/leveldb-library/db/db_impl.cc:1185-1256 | every step of writers, leader and readers keeps order, numbering, atomicity and logging |
| WriteQueue.GroupCommit | iOS Applicant Form/Pods/leveldb-library/db/db_impl.cc:1185-1306 | over all runs: writers complete once and in arrival order, sequence ranges are consecutive and disjoint, a sync writer is led by a sync one, and a reader at the last sequence sees exactly whole accepted batches, each in the log |
| Coding.DecodeEncodeFixed64 | iOS Applicant Form/Pods/leveldb-library/util/coding.cc:20-33 | decoding undoes the little-endian encoding of every 64-bit word |
| Coding.ReadVarint32 | iOS Applicant Form/Pods/leveldb-library/util/coding.cc:113-128 | reading a varint of a number below 2^32 gives the number and leaves exactly the bytes after it |
| Coding.ReadVarint64 | iOS Applicant Form/Pods/leveldb-library/util/coding.cc:142-157 | reading a varint of a number below 2^64 gives the number and leaves exactly the bytes after it, the tenth byte included |
| SkipList.Linearizable | iOS Applicant Form/Pods/leveldb-library/db/skiplist.h:258-322 | over all interleavings of one inserting writer and any number of searches, one store or load a step: every level is a sorted chain and part of the one below, no reader meets an unset link, and each answer was right for the keys published at an instant between its first and its last load |
| SkipList.EnabledFollows | iOS Applicant Form/Pods/leveldb-library/db/skiplist.h:258-368 | in a state of a run every load or store that is due can be taken, within the bounds of the nodes |
| SkipList.SkipList.Insert | iOS Applicant Form/Pods/leveldb-library/db/skiplist.h:336-368 | adds exactly the key, for every height, and keeps every level a sorted part of the one below |
| SkipList.SkipList.FindGreaterOrEqual | iOS Applicant Form/Pods/leveldb-library/db/skiplist.h:260-281 | the node of the least key at or above the target, and on each level in use the place where the key goes |
| SkipList.SkipList.FindLessThan | iOS Applicant Form/Pods/leveldb-library/db/skiplist.h:283-302 | the node of the greatest key below the target, or the head when there is none |
| SkipList.SkipList.FindLast | iOS Applicant Form/Pods/leveldb-library/db/skiplist.h:304-322 | the node of the greatest key, or the head of an empty list |
| SkipList.SkipList.Contains | iOS Applicant Form/Pods/leveldb-library/db/skiplist.h:370-378 | true exactly when the key was inserted |
| Durability.Durable | iOS Applicant Form/Pods/leveldb-library/db/db_impl.cc:280-369 | in every state of every run of writes, switches, flushes, installs of compactions that expose no left-out value, file deletions, crashes and recoveries, also in mid-recovery: a crash leaves a manifest that names only existing tables, and version and logs together read, from the floor on, like a set of whole batches that holds every batch ever acknowledged with a sync and none that was not logged by some write |
| Durability.SequencesNotReused | iOS Applicant Form/Pods/leveldb-library/db/db_impl.cc:371-489 | an open database, after any crashes, has every batch ever acknowledged with a sync, and a last sequence number no lower than any entry on disk that counts |
| Durability.SyncedStay | iOS Applicant Form/Pods/leveldb-library/db/db_impl.cc:1201-1240 | a batch acknowledged with a sync stays acknowledged in every later state, through every crash |
| Durability.CompactionEnabled | iOS Applicant Form/Pods/leveldb-library/db/db_impl.cc:860-876 | the step that installs a compaction is enabled exactly when the compaction exposes no value in a lower file that was left out |
| Durability.EnabledFollows | iOS Applicant Form/Pods/leveldb-library/db/db_impl.cc:223-278 | in a state of a run every step whose guard holds can be taken: what the steps are defined on excludes none of them |
| Durability.StepKeeps | iOS Applicant Form/Pods/leveldb-library/db/db_impl.cc:223-278 | every step, deleting obsolete files among them, keeps the disk recoverable and the process in agreement with it |
| HandleTable.HandleTable.Insert | iOS Applicant Form/Pods/leveldb-library/util/cache.cc:78-92 | the table maps the key to the new entry, gives back the one it replaces, and other keys keep theirs, whether it grows or not; there are never more entries than buckets, which are a power of two |
| HandleTable.HandleTable.Remove | iOS Applicant Form/Pods/leveldb-library/util/cache.cc:94-102 | exactly the key leaves, and its entry is given back |
| HandleTable.HandleTable.Lookup | iOS Applicant Form/Pods/leveldb-library/util/cache.cc:74-76 | the entry of the key in the abstract map, through hash chains |
| HandleTable.HandleTable.Resize | iOS Applicant Form/Pods/leveldb-library/util/cache.cc:122-146 | rehashing all chains into more buckets keeps the abstract map |
| LruCache.LRUCache.Insert | iOS Applicant Form/Pods/leveldb-library/util/cache.cc:269-303 | a new handle with exactly the key, value and charge given; usage is within capacity or nothing unheld is left, and was over it before the last eviction; evicted are the handles given back longest ago, each appended once to the trace of deletions after a replaced one that nobody held |
| LruCache.LRUCache.Lookup | iOS Applicant Form/Pods/leveldb-library/util/cache.cc:252-259 | the handle last inserted under the key, with its value, if it is still cached; it can no longer be evicted, and no other handle changes |
| LruCache.LRUCache.Release | iOS Applicant Form/Pods/leveldb-library/util/cache.cc:261-267 | a cached handle nobody else holds becomes the last to be evicted, one no longer cached is deleted with its last holder |
| LruCache.LRUCache.Erase | iOS Applicant Form/Pods/leveldb-library/util/cache.cc:305-321 | the key leaves the cache; its handle is deleted now or with its last holder, once |
| LruCache.LRUCache.Prune | iOS Applicant Form/Pods/leveldb-library/util/cache.cc:323-333 | deletes all handles nobody holds, in eviction order, and none that is held |
| LruCache.LRUCache.Ref | iOS Applicant Form/Pods/leveldb-library/util/cache.cc:217-223 | the first client to take a cached handle takes it off the eviction list |
| Manifest.Recover | iOS Applicant Form/Pods/leveldb-library/db/version_set.cc:886-1000 | from any byte prefix of a manifest, reading the log, decoding each record and applying it gives the version of the last edit wholly inside and each counter as last set; it fails if and only if an edit names another comparator or a counter was never set |
| ManifestReplay.RecoverLast | iOS Applicant Form/Pods/leveldb-library/db/version_set.cc:886-1000 | one builder over all edits of a manifest gives, level by level and file by file, the version that the edits made one by one |
| ManifestReplay.SnapshotRestores | iOS Applicant Form/Pods/leveldb-library/db/version_set.cc:1088-1116 | the first record of a new manifest, applied to nothing, gives back the version it was written for |
| ManifestReplay.SnapshotEdit | iOS Applicant Form/Pods/leveldb-library/db/version_set.cc:1088-1116 | the snapshot edit adds exactly the files of the version on their levels and deletes none |
| VersionEditCodec.DecodeUndoesEncode | iOS Applicant Form/Pods/leveldb-library/db/version_edit.cc:26-85 | decoding the bytes of any edit succeeds and gives its every field, after the compaction pointers that clearing left in the object; so it gives the edit itself if and only if there were none |
| VersionEditCodec.DamageRefused | iOS Applicant Form/Pods/leveldb-library/db/version_edit.cc:97-205 | decoding keeps the items before and fails at a tag that is none, or at a level of seven or more behind each tag that has one |
| VersionEditCodec.VersionEdit.EncodeTo | iOS Applicant Form/Pods/leveldb-library/db/version_edit.cc:41-85 | appends the tagged items of the edit in the code's order, deleted files ascending |
| VersionEditCodec.VersionEdit.DecodeFrom | iOS Applicant Form/Pods/leveldb-library/db/version_edit.cc:107-205 | clears the edit and takes item after item until the bytes end, or stops as corrupt at an unknown tag, a level out of range or a short item, keeping what came before |
| VersionEditCodec.ItemRead | iOS Applicant Form/Pods/leveldb-library/db/version_edit.cc:119-190 | an encoded item is read back whole and the bytes after it are left |
| ByteKeys.OrderAgrees | iOS Applicant Form/Pods/leveldb-library/db/dbformat.cc:51-67 | the order of internal keys over ranks is the order over their bytes, for any bytes of user keys that keep the ranks' order |
| ByteKeys.SeparatorSeparates | iOS Applicant Form/Pods/leveldb-library/util/comparator.cc:29-50 | the shortened key lies from the start to below the limit |
| ByteKeys.SeparatorIs | iOS Applicant Form/Pods/leveldb-library/util/comparator.cc:29-50 | the key is shortened exactly if the two part at a byte that can be raised and stay below the limit's, and then it ends with that byte raised |
| ByteKeys.SuccessorIs | iOS Applicant Form/Pods/leveldb-library/util/comparator.cc:52-63 | the successor is the key up to the first byte that is not 0xff, raised by one, or the key if there is none |
| ByteKeys.InternalSeparates | iOS Applicant Form/Pods/leveldb-library/db/dbformat.cc:69-86 | a shortened index key lies from the last key of one block to below the first of the next, and no key from it on has the next block's first user key |
| ByteKeys.InternalFollows | iOS Applicant Form/Pods/leveldb-library/db/dbformat.cc:88-101 | the shortened successor does not lie before the key |
| ByteKeys.FindShortestSeparator | iOS Applicant Form/Pods/leveldb-library/util/comparator.cc:29-50 | the loop in place computes the separator |
| ByteKeys.FindShortSuccessor | iOS Applicant Form/Pods/leveldb-library/util/comparator.cc:52-63 | the loop in place computes the successor |
| ByteKeys.FindInternalSeparator | iOS Applicant Form/Pods/leveldb-library/db/dbformat.cc:69-86 | the shortened user key with the greatest tag, or the key itself where shortening gains nothing, computed in place |
| ByteKeys.InternalTransitive | iOS Applicant Form/Pods/leveldb-library/db/dbformat.cc:51-67 | the order of internal keys over bytes is transitive, as the binary search needs |
| BlockBuilder.Builder.Add | iOS Applicant Form/Pods/leveldb-library/table/block_builder.cc:72-106 | the buffer grows by exactly the entry's prefix-compressed bytes, with a restart point where one is due |
| BlockBuilder.Builder.Finish | iOS Applicant Form/Pods/leveldb-library/table/block_builder.cc:62-70 | the block is the entries' bytes, the restart offsets and their number |
| BlockBuilder.Builder.EstimateExact | iOS Applicant Form/Pods/leveldb-library/table/block_builder.cc:56-60 | the size estimate is the size of the block that finishing now would give |
| Block.BuiltReadable | iOS Applicant Form/Pods/leveldb-library/table/block.cc:54-74 | in a built block every entry decodes at its offset to its lengths, key suffix and value, through the one-byte short cut too, and every restart word to the offset of an entry stored whole |
| BlockIter.RoundTrip | iOS Applicant Form/Pods/leveldb-library/table/block.cc:137-161 | for any entries and restart interval, iterating the built bytes forwards and backwards gives exactly the entries added |
| BlockIter.Iter.Seek | iOS Applicant Form/Pods/leveldb-library/table/block.cc:163-201 | binary search over the restarts and the linear scan land on the first key at or after the target, for any transitive order |
| BlockIter.Iter.Prev | iOS Applicant Form/Pods/leveldb-library/table/block.cc:142-161 | from any entry, moves to the one before it |
| BlockIter.Iter.SeekToLast | iOS Applicant Form/Pods/leveldb-library/table/block.cc:208-213 | lands on the last entry |
| BlockIter.BlockUnique | iOS Applicant Form/Pods/leveldb-library/table/block.cc:54-74 | the bytes of a block determine its entries |
| Bloom.NoFalseNegatives | iOS Applicant Form/Pods/leveldb-library/util/bloom.cc:28-80 | every key of the list the filter was made of may match, for any hash, bits per key and number of probes |
| Bloom.MatchesExactly | iOS Applicant Form/Pods/leveldb-library/util/bloom.cc:28-80 | a key may match if and only if each of its bits is a bit of some added key |
| Bloom.ProbeIs | iOS Applicant Form/Pods/leveldb-library/util/bloom.cc:38-53 | the bits of a key are its hash and steps of the hash rotated right by 17 bits, modulo 2^32 and then modulo the bits of the filter |
| Bloom.FilterBytesAre | iOS Applicant Form/Pods/leveldb-library/util/bloom.cc:28-37 | a filter has as many bits as asked for and 64 at least, in whole bytes |
| Bloom.NewPolicy | iOS Applicant Form/Pods/leveldb-library/util/bloom.cc:15-24 | about 0.69 probes for each bit of a key, between one and thirty |
| Bloom.Policy.CreateFilter | iOS Applicant Form/Pods/leveldb-library/util/bloom.cc:28-54 | the byte array set bit by bit is the filter, appended to what was there |
| Bloom.Policy.KeyMayMatch | iOS Applicant Form/Pods/leveldb-library/util/bloom.cc:56-80 | the probing loop answers as the filter's definition, short and reserved filters included |
| FilterBlock.NoFalseNegatives | iOS Applicant Form/Pods/leveldb-library/table/filter_block.cc:90-104 | the filter at an index matches every key whose user key was added for that index |
| FilterBlock.Builder.StartBlock | iOS Applicant Form/Pods/leveldb-library/table/filter_block.cc:21-27 | a filter for every two kilobytes of offsets up to the block's, empty ones included; keys added so far stay in theirs |
| FilterBlock.Builder.Finish | iOS Applicant Form/Pods/leveldb-library/table/filter_block.cc:35-49 | the filters in order, their offsets, the offset of the offsets and the base |
| FilterBlock.Reader.KeyMayMatch | iOS Applicant Form/Pods/leveldb-library/table/filter_block.cc:90-104 | a match exactly when the block's offset lies past the filters or the filter stored for it matches, empty ones included |
| TableFormat.FooterRead | iOS Applicant Form/Pods/leveldb-library/table/format.cc:31-60 | a footer is 48 bytes and decodes to its two handles |
| TableFormat.InternalComparatorGood | iOS Applicant Form/Pods/leveldb-library/db/dbformat.cc:51-101 | the internal key comparator is transitive and its separators and successors are what tables need |
| TableFormat.InternalBloomGood | iOS Applicant Form/Pods/leveldb-library/db/dbformat.cc:103-119 | the filter policy on user keys has no false negatives for internal keys |
| TableBuilder.Builder.Add | iOS Applicant Form/Pods/leveldb-library/table/table_builder.cc:94-123 | with keys in order, the file, the index entry held back until the next key, the filter and the block being filled stay consistent with the entries added; a block is written exactly when its size reaches the block size |
| TableBuilder.Builder.Finish | iOS Applicant Form/Pods/leveldb-library/table/table_builder.cc:198-253 | the file is a table: its blocks together hold exactly the entries added, in order, each index key separates, and filter, metaindex, index and footer are in place |
| Table.Open | iOS Applicant Form/Pods/leveldb-library/table/table.cc:38-134 | a table file opens, and with a filter policy its filter is found |
| Table.Build | iOS Applicant Form/Pods/leveldb-library/table/table_builder.cc:94-253 | building from increasing keys gives a table of exactly these entries, each block but the last ended by the entry that brings it to the block size |
| Table.Table.InternalGet | iOS Applicant Form/Pods/leveldb-library/table/table.cc:216-244 | a lookup passes on only the first entry at or after the key in the whole table, and does so whenever that entry has the key's user key; it finds nothing exactly if the key is past the index, the filter of the one block rules it out, or that block ends before it |
| Table.IndexDecides | iOS Applicant Form/Pods/leveldb-library/table/table.cc:218-236 | the block that the index key search picks is where the first entry at or after the key lies, or that entry starts the next block and has another user key |
| TableGet.Get | iOS Applicant Form/Pods/leveldb-library/db/version_set.cc:263-276 | looking a user key and a snapshot up in the bytes of a table saves what one seek in its entries gives |
| TableGet.BuildAndGet | iOS Applicant Form/Pods/leveldb-library/table/table.cc:216-244 | a table built from any sorted entries and opened from its bytes answers every lookup like the entries themselves |
| TableGet.WrittenOrdered | iOS Applicant Form/Pods/leveldb-library/table/table_builder.cc:94-100 | sorted entries are added with strictly increasing key bytes |
| Formats.InternalKeyFormat | iOS Applicant Form/Pods/leveldb-library/db/dbformat.cc:15-24 | an internal key is the user key and eight little-endian bytes, 256 times the sequence number plus one for a value |
| Formats.MemTableEntryFormat | iOS Applicant Form/Pods/leveldb-library/db/memtable.cc:75-98 | a memtable entry is the internal key and the value, each behind its length |
| Formats.BatchFormat | iOS Applicant Form/Pods/leveldb-library/db/write_batch.cc:5-14 | a batch is eight bytes of sequence number, four of count, and the updates |
| Formats.UpdateFormat | iOS Applicant Form/Pods/leveldb-library/db/write_batch.cc:98-109 | an update is the byte 1, key and value, or the byte 0 and the key, each string behind its length |
| Formats.FragmentFormat | iOS Applicant Form/Pods/leveldb-library/db/log_writer.cc:34-110 | where in a block of 32768 bytes a fragment begins, how much it holds, and its bytes: zeros, stored checksum, length, type 1 to 4, payload |
| Formats.ItemFormat | iOS Applicant Form/Pods/leveldb-library/db/version_edit.cc:41-85 | a manifest item scans, by its literal tag, to the string, the number or the level and key that it stands for |
| Formats.NewFileFormat | iOS Applicant Form/Pods/leveldb-library/db/version_edit.cc:76-84 | a new file is the tag 7, level, number, size, and least and greatest key |
| Formats.EntryFormat | iOS Applicant Form/Pods/leveldb-library/table/block_builder.cc:88-105 | a block entry is three numbers (bytes shared with the key before, bytes not shared, bytes of the value), the rest of the key, and the value |
| Formats.RestartsFormat | iOS Applicant Form/Pods/leveldb-library/table/block_builder.cc:72-87 | restart points are the first entry and every one whose index the interval divides; there a key shares nothing, elsewhere all that it has in common with the one before |
| Formats.BlockFormat | iOS Applicant Form/Pods/leveldb-library/table/block_builder.cc:62-70 | behind the entries of a block come the restart offsets, four bytes each, and their number |
| Formats.RawBlockFormat | iOS Applicant Form/Pods/leveldb-library/table/table_builder.cc:175-195 | a stored block is the contents, a zero for no compression, and the stored checksum of both |
| Formats.FooterFormat | iOS Applicant Form/Pods/leveldb-library/table/format.h:52-79 | the footer is 48 bytes: offset and size of the metaindex and of the index, zeros, and the eight bytes of the magic number |
| Formats.OtherFooterRefused | iOS Applicant Form/Pods/leveldb-library/table/format.cc:41-60 | a footer that ends in any other eight bytes is refused |
| Formats.BlockSound | iOS Applicant Form/Pods/leveldb-library/table/format.cc:62-142 | whatever the file holds, a block read with verification lies whole in it and has the checksum stored behind it |
| Formats.FilterFormat | iOS Applicant Form/Pods/leveldb-library/table/filter_block.cc:35-75 | a filter block ends in the offsets of its filters, the offset of these and the number 11; there is a filter for each 2048 bytes of offsets |
| TwoLevel.TwoLevelIterator.Seek | iOS Applicant Form/Pods/leveldb-library/table/two_level_iterator.cc:82-87 | lands on the first entry at or after the target in the concatenation of the blocks, empty ones included |
| TwoLevel.TwoLevelIterator.SeekToFirst | iOS Applicant Form/Pods/leveldb-library/table/two_level_iterator.cc:89-94 | lands on the first entry of the concatenation, past empty blocks |
| TwoLevel.TwoLevelIterator.SeekToLast | iOS Applicant Form/Pods/leveldb-library/table/two_level_iterator.cc:96-101 | lands on the last entry of the concatenation, past empty blocks |
| TwoLevel.TwoLevelIterator.Next | iOS Applicant Form/Pods/leveldb-library/table/two_level_iterator.cc:103-126 | moves to the next entry of the concatenation, across blocks |
| TwoLevel.TwoLevelIterator.Prev | iOS Applicant Form/Pods/leveldb-library/table/two_level_iterator.cc:109-139 | moves to the previous entry of the concatenation, across blocks |
| TwoLevel.NewIterator | iOS Applicant Form/Pods/leveldb-library/table/table.cc:210-214 | over a table, the iterator runs over exactly the table's entries and may be sought |
| PbEncode.EncodeVarint | iOS Applicant Form/Pods/nanopb/pb_encode.c:599-619 | appends the base-128 bytes of every 64-bit number, or only counts them |
| PbEncode.ZigZagIsComplement | iOS Applicant Form/Pods/nanopb/pb_encode.c:621-630 | the zigzag code is the shifted number, complemented for negative ones, on 64 bits |
| PbEncode.CheckProto3DefaultValue | iOS Applicant Form/Pods/nanopb/pb_encode.c:237-328 | true exactly for the values that proto3 leaves out, submessages field by field |
| PbEncode.Encode | iOS Applicant Form/Pods/nanopb/pb_encode.c:519-541 | for sizing and writing streams alike: appends exactly the encoding of the message, and succeeds exactly when counts and sizes are within their arrays and the whole fits the stream |
| PbWire.EncodingScans | iOS Applicant Form/Pods/nanopb/pb.h:319-324 | a scan by the wire format's own rules (0 a varint, 1 eight bytes, 2 data behind its length, 5 four bytes) splits the encoding of any message completely into one record for each value sent, or one of wire type 2 for a packed array, in schema order, each with its field's tag and saying its value, nested messages likewise |
| PbEncode.EncodeSubmessage | iOS Applicant Form/Pods/nanopb/pb_encode.c:708-756 | length and encoding of the nested message; the size never changes between the sizing and the writing pass |
| PbEncode.GetEncodedSize | iOS Applicant Form/Pods/nanopb/pb_encode.c:558-567 | succeeds exactly when encoding can, with the number of bytes that writing gives |
| PbDecoder.IStream.DecodeVarint32 | iOS Applicant Form/Pods/nanopb/pb_decode.c:187-253 | the loop reads what the definition of a 32-bit varint reads, sign extension bytes and overflow errors included |
| PbDecoder.FieldIter.Find | iOS Applicant Form/Pods/nanopb/pb_common.c:78-97 | finds the field of the tag by going round from where it stands, with the right index among the required fields |
| PbDecoder.DecodeStaticField | iOS Applicant Form/Pods/nanopb/pb_decode.c:406-480 | required, optional, repeated, packed and oneof fields are stored as defined, or the error is |
| PbDecoder.Decode | iOS Applicant Form/Pods/nanopb/pb_decode.c:1075-1087 | the loop over a stream succeeds exactly when the definition does, with its message |
| PbRoundTrip.MessageRoundTrip | iOS Applicant Form/Pods/nanopb/pb_decode.c:925-1073 | for every well-formed schema and valid message, decoding its encoding, alone or before a zero byte, gives the message back through nested, packed, repeated, oneof and default fields |
| PbRoundTrip.RoundTrip | iOS Applicant Form/Pods/nanopb/pb_encode.c:519-541 | encoding into a buffer fails only for lack of room, and decoding what was written gives the message back |
| PbRoundTrip.ValueRoundTrip | iOS Applicant Form/Pods/nanopb/pb_decode.c:1318-1548 | one value of each type is read back and the bytes after it are left |
| PbRoundTrip.StringNeedsTerminator | iOS Applicant Form/Pods/nanopb/pb_decode.c:1468-1501 | a string is received if and only if it is shorter than its array |
| PbRoundTrip.DefaultIsZero | iOS Applicant Form/Pods/nanopb/pb_encode.c:237-328 | what proto3 leaves out is exactly the zero value, of types without fixed bytes and without fields that are always sent |
| PbEvolve.UnknownSkipped | iOS Applicant Form/Pods/nanopb/pb_decode.c:321-334 | a field that the schema does not have is skipped whatever it holds: a varint of any length, eight bytes, data behind its length, or four bytes |
| PbEvolve.UnknownRefused | iOS Applicant Form/Pods/nanopb/pb_decode.c:321-334 | wire types 3, 4, 6 and 7 are refused there, and so is a body cut short |
| PbEvolve.ZeroTag | iOS Applicant Form/Pods/nanopb/pb_decode.c:936-986 | tag zero with any wire type but zero is one more unknown field; a schema without fields takes what is behind it for a truth value instead |
| PbEvolve.PartDecoded | iOS Applicant Form/Pods/nanopb/pb_decode.c:925-1073 | the encoding of any valid message, decoded under a schema with any of its fields, gives exactly these fields |
| PbEvolve.CutDecoded | iOS Applicant Form/Pods/nanopb/pb_decode.c:1030-1070 | a message sent without its last fields is refused if and only if one of them is required and among the first 64 required ones; else they have their defaults |
| PbEvolve.LastCounts | iOS Applicant Form/Pods/nanopb/pb_decode.c:406-480 | of two values of one field, or of two fields of one union, only the later one counts |
| PbEvolve.IntegerDecoded | iOS Applicant Form/Pods/nanopb/pb_decode.c:1329-1412 | a varint is taken for an integer field if and only if what it stands for is in the range of the field's 1, 2, 4 or 8 bytes; signed ones of less than eight are first cut to 32 bits |
| PbEvolve.DataDecoded | iOS Applicant Form/Pods/nanopb/pb_decode.c:1431-1548 | data is taken if and only if it fits: bytes their array, a string its array with the terminator, fixed bytes whole or not at all |
| PbEvolve.BoolDecoded | iOS Applicant Form/Pods/nanopb/pb_decode.c:1318-1327 | a truth value is false for zero and true for any other 32-bit number |
| PbEvolve.WideDecoded | iOS Applicant Form/Pods/nanopb/pb_decode.c:187-247 | a 64-bit number where one of 32 bits is wanted is refused, unless its bits 31 and 63 are set and each seven bits between bit 35 and bit 63 are all ones or all zeros: then its upper half is lost |
| PbEvolve.LongRefused | iOS Applicant Form/Pods/nanopb/pb_decode.c:255-276 | a 64-bit number whose tenth byte announces another is refused |
| PbEvolve.LongNumberWraps | iOS Applicant Form/Pods/nanopb/pb_decode.c:187-247 | a 32-bit number is not refused for its length: after 37 bytes without a digit the position has wrapped around and the next digit counts eight times |
| PbEvolve.FullArrayRefuses | iOS Applicant Form/Pods/nanopb/pb_decode.c:456-466 | an array that is full takes no further item |
| PbEvolve.FullPackedRefuses | iOS Applicant Form/Pods/nanopb/pb_decode.c:425-454 | a packed array with more items than there is room for is refused |
| PbMerge.Concatenated | iOS Applicant Form/Pods/nanopb/pb_decode.c:925-1023 | bytes behind those of another message are decoded over what these have left, unless a zero tag ended them |
| PbMerge.MessagesMerge | iOS Applicant Form/Pods/nanopb/pb_decode.c:925-1073 | a whole message and anything behind it decode like the latter over the former, if there are no fixed arrays |
| PbMerge.PartsMerge | iOS Applicant Form/Pods/nanopb/pb_decode.c:1503-1525 | a nested message that comes in two whole parts is what it is in one, over what was there; of a union's, the second part counts alone |
| PbMerge.FixedArraysDoNotMerge | iOS Applicant Form/Pods/nanopb/pb_decode.c:987-1028 | with a fixed array this fails: each part fills it, in one part it overflows |
| PbReencode.Reencoded | iOS Applicant Form/Pods/nanopb/pb_decode.c:925-1087 | the encoder takes every message that the decoder has made, from whatever bytes; the message is one its struct holds as it is if and only if no string has a zero inside and no fixed array is missing, and then decoding the encoding gives it back |

## Left out

- Everything outside the storage engine and the codec: the app's views, view models and persistence plumbing, and the vendored headers without bodies.
- In the modules of versions and compactions user keys are ranks in the comparator's order and values are strings; `ByteKeys.OrderAgrees` and `TableGet.Get` tie these to bytes.
- Builder.Builder.Apply: the compaction pointers that an edit carries to the version set and the allowed seeks of a new file are not part of the builder, as they only choose the next compaction.
- CompactionInputs.SetupOtherInputs: the compaction pointer that it updates is not modelled, as it only chooses the next compaction.
- CompactionInputs.PickCompaction: the level and the file that scores, seek counts or the compaction pointer pick are parameters.
- Compaction.DoCompactionWork: keys are well formed, so the branch for a key that does not parse is not modelled, nor are input errors and shutdown inside the loop; the sizes of a table, while it grows and when it is finished, are any two functions of its entries.
- MergeInput.MakeInputIterator: its runs are in memory, a deeper level one run; `StoreIterator.MakeInputIterator` does it over the bytes of the files.
- Iterators.MergingIterator.Next: children hold pairwise distinct keys, so the branch for an equal key in two children is not taken; `StoreIterator.NewInternalIterator` proves it of the memtables and tables of any store.
- Iterators.MergingIterator.Prev: children hold pairwise distinct keys, as for Next.
- Db.MemTableAdd: the entry is a value and the memtable a sorted sequence; `MemTable` ties it to the entry bytes in the skip list.
- MemTable.MemTable.Add: a node holds the rank of its key, and the buffer it points to is found by that rank; the arena and the memtable's own iterator are not modelled (in `StoreIterator` it is a run in memory), and lengths are below 4 GB.
- Db.InsertInto: the batch is a list of updates; `MemTable.InsertInto` has the byte format and its errors.
- WriteBatch.WriteBatch.Iterate: the counter of updates does not overflow a machine integer.
- Manifest.Recover: the file CURRENT, read errors and reuse of the manifest are not modelled; compaction pointers are decoded but not kept.
- LevelCursor.LevelCursor.Seek: tables are read without errors, and each is opened from its bytes, without the table and block caches; TableCursor likewise.
- Db.DBImpl.Write: one writer's whole write; the queue and the log append are in `WriteQueue`, and failures and crashes in `Durability`.
- Db.DBImpl.CompactMemTable: input and output errors are one parameter that says whether the edit was committed; the log number and obsolete files are in `Durability`.
- Db.DBImpl.BackgroundCompaction: which level and file to compact (scores, seek statistics, `compact_pointer_`, manual ranges) is a parameter, and so is whether it failed; a flush inside a running compaction is a separate step before or after it.
- StoreIterator.NewIterator: references, cleanup and the sampling seed are not modelled; files are below 4 GB, and memtables are runs in memory.
- LevelCursor.BuildTable: file errors and the check that the written table opens are not modelled.
- DbIter.DBIter.Next: keys that do not parse, and read sampling, are not modelled; a missing child value is not cached.
- LogReader.ReadLog: the reader starts at offset 0 and verifies checksums, so skipping to an initial offset and resynchronising are not modelled, nor are read errors of the file; the number of bytes that a report says were dropped is left out.
- WriteQueue.GroupCommit: memory reordering is not modelled; each step is atomic, as under the mutex. Batch sizes are any function of the batch.
- CompactionReads.ReadsPreserved: the documentation promises that compaction keeps all visible data; the code closes only the upper inputs under boundary user keys, so the theorem is the exact condition, and LostDeletion gives an input that fails it.
- Durability.Durable: runs in which a compaction exposes a value of a lower file left out of its inputs, which the code allows, are excluded by the guard `Replaces` of the install step (`CompactionEnabled` is the exact condition, and `LostDeletion` has such a compaction); entries are in logs and tables as values; reusing the last log, a flush inside a running compaction, part of a record left behind and the level of a flushed table are not modelled; renaming CURRENT is one step; an install step may fail as a whole.
- SkipList.Linearizable: loads and stores are sequentially consistent; heights are parameters from 1 to 12; the arena is not modelled.
- LruCache.LRUCache.Insert: sharding, the mutex and the destructor are not modelled; the two linked lists are sequences, and a handle is a number.
- ManifestReplay.RecoverLast: the comparator's name and the counters in the edits are not modelled here; the numbers of a level's files are each used for one file, as the store does. That `VersionEditCodec` decodes file descriptors says nothing about the contents of the files.
- ManifestReplay.SnapshotEdit: the comparator's name and the compaction pointers that are also written are not part of the version.
- VersionEditCodec.DecodeUndoesEncode: numbers have their widths and levels are below seven, as the store's edits have; the messages of the errors are not told apart.
- BlockIter.Iter.Seek: the iterator runs on blocks that were built, so its corruption errors are not modelled; lengths are below 4 GB.
- Bloom.NoFalseNegatives: the hash is any function.
- Bloom.NewPolicy: the product with 0.69 is computed in integers; below a hundred bits a key, and so wherever the bound of thirty does not decide, it rounds down to the same number.
- FilterBlock.Reader.KeyMayMatch: filter blocks that were not built as such, and offsets of 4 GB or more, are not modelled.
- TableBuilder.Builder.Finish: Snappy, input and output errors, `ChangeOptions` and `Abandon` are not modelled; file contents are bytes.
- Table.Open: only files that are built tables are opened, so its errors are not modelled.
- Table.Table.InternalGet: the file is a built table below the widths of its numbers, read without errors and without the block cache.
- TableGet.BuildAndGet: tables of 4 GB or more are not looked up.
- TwoLevel.TwoLevelIterator.Seek: blocks are stored as built, so the status of an iterator that failed is not modelled.
- PbEncode.CheckProto3DefaultValue: a union member that is not chosen counts as default even while another is chosen, where the code says no for it too; the submessage gets the same answer.
- PbEncode.Encode: pointers, callbacks and extensions are not modelled, nor the texts of errors; a message is a tree of values, and encodings are below 2^64 bytes.
- PbDecoder.Decode: the struct is a value, and its defaults are zero values; pointers, callbacks, extensions and releasing memory are not modelled.
- PbEvolve.CutDecoded: defaults are zero values; a fixed array that never came has unknown contents in the struct, here none.
- PbMerge.PartsMerge: each part has all that is required, as each is checked by itself; nested messages in arrays are items of their own.
- PbRoundTrip.MessageRoundTrip: default values other than zero in a schema are not modelled, and the encoding is below 4 GB.
- Snappy, statistics, environment, threads, the repair tool, the C binding and benchmarks.
