# Proofs about a storage engine and a message codec

The application vendors two C and C++ libraries whose correctness everything else rests on: leveldb, a key-value store
that keeps many versions of every key, and nanopb, a codec for the Protocol Buffers wire format. This project models
their central parts in Dafny, in the form they are written in, and proves what they are for.

`dafny verify dfyconfig.toml` checks the whole project. There is one module per file.

## What is modelled

**Versions.** The store is one set of entries (user key, sequence number, value or deletion). Reading a key at a
sequence number means taking the newest entry at or below it (`Compaction.Read`). Everything about leveldb below is
stated against this one definition.

- `DbIter`: the bidirectional cursor over live keys, as a class over an internal iterator. `Move` and `Moves` define the
  simple cursor over a sorted list of pairs; `DBIter.Run` shows that the class follows it through every sequence of
  calls, with direction changes, deletions, entries that are too new, and unparseable keys.
- `Compaction`, `SnapshotList`: the loop that merges tables and drops entries, with the moving level pointers and the
  ring of snapshots. The main theorem is `CompactionPreservesReads`.
- `LogFormat`, `LogWriter`, `LogReading`, `LogReader`, `LogTheorems`: the write-ahead log. `LogFormat` gives the bytes a
  record becomes, `LogReading` what any bytes at all are read as; the classes implement both, and `LogTheorems` connects
  them: torn tails, damaged blocks, reading from an offset.
- `WriteBatch`, `Recovery`: batches of operations, and replaying logs of them after a crash.
- `SkipListState`, `SkipList`, `SkipListRuns`, `SkipListScans`: the memtable's skip list, first its memory and what holds
  of it after every single store, then the class with its searches and iterator, then every interleaving of one writer's
  stores and any number of readers' loads, and walks along the list meanwhile.
- `MemTable`, `SnapshotReads`: memtables over that skip list, layered lookups, and batches becoming visible at once.
- `BatchGroup`, `WriterQueue`: group commit, as the function that builds a group and as the state machine of the queue.
- `Lifecycle`, `LifecycleRuns`, `ObsoleteFiles`, `Scheduling`: where acknowledged writes live while memtables are switched, flushed and
  compacted, files are collected and background work fails; and who wakes whom.
- `BlockFormat`, `BlockIter`, `BlockBuilder`: prefix-compressed blocks and their iterator.
- `VersionEdit`: the manifest's records.

**Messages.** `PbDescriptor` and `PbMessage` define descriptors, messages and the codec as functions (sections "Base 128
Varints", "Signed Integers" and "Packed Repeated Fields" of the Protocol Buffers Encoding specification). `PbStream`,
`PbOutput`, `PbEncode` and `PbDecode` are the streams, the two-pass encoder and the decoder as they work in place, proved
to compute those functions; `PbRequired` is the bit mask of required fields. `PbRoundTrip`, `PbTheorems`, `PbUnknown` and
`PbCodec` prove what the codec is for; `PbDefaults`, `PbLimits` and `PbMerge` what decoding leaves where nothing came, what
is refused or left out, and what a second occurrence does. C struct offsets become numbered slots of a message.

**Bytes.** Round trips leave open which number stands for what. `FormatExamples` fixes that for every format here.

## How it is modelled

Threads are state machines whose steps are the stretches between two releases of the mutex, or, for the skip list,
single loads and stores. A disk write that may or may not have happened when its caller learns of a failure is two steps.
Checksums are an arbitrary function of the bytes; where damage must be noticed, a hypothesis says that checksums notice
it. Comparators are arbitrary total orders on user keys, and the bytewise one is shown to be one.

Where the code and its documentation differ, the model follows the code:

- `VersionEdit::Clear` does not clear the compact pointers, so decoding into a used edit adds to them.
  `VersionEdit.ExactIntoFresh` says exactly when the round trip is exact.
- A compaction "does not hide error keys", yet it may bring a deleted value back past one
  (`Compaction.UnparseableKeyRevivesDeletedValue`); `Compaction.CompactionPreservesReads` says exactly when.
- A write whose sync fails is reported as failed and not inserted, but it uses up its sequence numbers and its record may
  be replayed (`Lifecycle.FailedSyncTurnsUp`); `Lifecycle.RecoveredShowsLimbo` says exactly what a recovery then shows.
- DecodeEntry "will not dereference past limit", but its size check adds two lengths in 32 bits, and a sum of 2^32 or more
  passes it (`BlockFormat.WrappedSumIsAccepted`, `BlockFormat.AcceptedStaysInside`). The model marks such an iterator as
  having overrun and stops there.
- After an error or a shutdown the owner of a manual compaction withdraws it while its job may still be running
  (`Scheduling.ManualMayBeWithdrawn`); outside those cases it stays registered (`Scheduling.ManualStillThere`).
- The log writer ignores whether the zeros that fill a block's trailer were appended. Its contracts say what it meant to
  write, and that the file is the same exactly when no trailer was lost.
- A full char array without terminator is encoded by nanopb but refused when decoded
  (`PbRoundTrip.UnterminatedTextIsRefused` says exactly when).

## Model

| member | source | states |
|---|---|---|
| DbIter.LiveSorted | DriveTribe/Pods/leveldb-library/db/db_iter.cc:141-299 | The list of pairs the iterator walks is in strictly ascending key order, so no key comes up twice |
| DbIter.LiveIsNewest | DriveTribe/Pods/leveldb-library/db/db_iter.cc:168-198 | A pair is on that list exactly when the newest entry of its key at or below the sequence number is that value, and not a deletion |
| DbIter.LiveOrigin | DriveTribe/Pods/leveldb-library/db/db_iter.cc:168-198 | Every pair on the list comes from exactly one internal entry, with the same key and value |
| DbIter.Advance | DriveTribe/Pods/leveldb-library/db/db_iter.cc:141-198 | Skipping forward over entries that yield nothing moves exactly one place on in the list, or past its end |
| DbIter.Retreat | DriveTribe/Pods/leveldb-library/db/db_iter.cc:200-267 | Skipping backward over entries that yield nothing moves exactly one place back, or before the beginning |
| DbIter.SeekPosition | DriveTribe/Pods/leveldb-library/db/db_iter.cc:269-281 | The first yielding entry at or after the target is the list's lower bound |
| DbIter.SeekStart | DriveTribe/Pods/leveldb-library/db/db_iter.cc:269-281 | Where the internal seek for (target, sequence, highest type) lands, nothing before it is visible at or after target |
| DbIter.PassedToShowing | DriveTribe/Pods/leveldb-library/db/db_iter.cc:168-198 | What the forward scan stops at is the newest visible entry of its key, and nothing in between shows |
| DbIter.BackEnds | DriveTribe/Pods/leveldb-library/db/db_iter.cc:227-267 | What the backward scan has saved when it stops is the newest visible entry of the last live key, and the internal iterator stands just before that key |
| DbIter.DBIter.ParseKey | DriveTribe/Pods/leveldb-library/db/db_iter.cc:122-139 | An unparseable internal key is skipped and remembered as corruption; nothing else is |
| DbIter.DBIter.FindNextUserEntry | DriveTribe/Pods/leveldb-library/db/db_iter.cc:168-198 | Stops at the first yielding entry from the given index on, or finds there is none, with the skip state and saved key as they come; an unparseable key passed on the way is noticed |
| DbIter.DBIter.FindPrevUserEntry | DriveTribe/Pods/leveldb-library/db/db_iter.cc:227-267 | Stops with the last yielding entry at or before the position saved, or finds there is none; an unparseable key passed on the way is noticed |
| DbIter.DBIter.FaceForward | DriveTribe/Pods/leveldb-library/db/db_iter.cc:141-160 | Turning round from reverse leaves the internal iterator at or before the current entry with its key saved |
| DbIter.DBIter.FaceBackward | DriveTribe/Pods/leveldb-library/db/db_iter.cc:200-221 | Turning round from forward leaves the internal iterator before the current key, or off the front; unparseable keys passed are of that key |
| DbIter.DBIter.AtCursor | DriveTribe/Pods/leveldb-library/db/db_iter.cc:63-71 | key() and value() are those of the pair at the cursor in either direction |
| DbIter.DBIter.Next | DriveTribe/Pods/leveldb-library/db/db_iter.cc:141-166 | The cursor over the sorted list of live pairs moves on by one, in either direction; key, value and validity are those of the new place; an unparseable key passed sets the corruption status, which stays |
| DbIter.DBIter.Prev | DriveTribe/Pods/leveldb-library/db/db_iter.cc:200-225 | The cursor moves back by one, in either direction; an unparseable key passed sets the corruption status, but for those of the current user key when the direction turns |
| DbIter.DBIter.Seek | DriveTribe/Pods/leveldb-library/db/db_iter.cc:269-281 | The cursor goes to the lower bound of the target; an unparseable key from the lookup key to there is noticed |
| DbIter.DBIter.SeekToFirst | DriveTribe/Pods/leveldb-library/db/db_iter.cc:283-292 | The cursor goes to the first live pair; an unparseable key before it is noticed |
| DbIter.DBIter.SeekToLast | DriveTribe/Pods/leveldb-library/db/db_iter.cc:294-299 | The cursor goes to the last live pair; an unparseable key behind it is noticed |
| DbIter.DBIter.Run | DriveTribe/Pods/leveldb-library/db/db_iter.cc:141-299 | For every sequence of operations the iterator ends where the simple cursor over the live pairs does, and reports that pair; corruption once noticed is not forgotten |
| Compaction.CompactionPreservesReads | DriveTribe/Pods/leveldb-library/db/db_impl.cc:929-963 | For every sorted input, unparseable keys or not, every key and every reader at or above the smallest snapshot: reading the survivors with everything around them gives what reading before gave if and only if no value comes back, that is, unless the newest entry the reader sees is a marker the second rule drops and a value of the key stands behind it right after an unparseable entry |
| Compaction.AllReadsKept | DriveTribe/Pods/leveldb-library/db/db_impl.cc:929-963 | All reads of all keys are kept if and only if no key has such a value for a reader at the smallest snapshot |
| Compaction.NoneRevivedReads | DriveTribe/Pods/leveldb-library/db/db_impl.cc:929-963 | A condition on the inputs alone: with no such marker and value among them, every read is kept whatever lies around them; keys that all parse meet it |
| Compaction.LiftedReads | DriveTribe/Pods/leveldb-library/db/db_impl.cc:946-960 | A reader who sees a marker that the second rule drops reads nothing before, and a value afterwards exactly when one is revived |
| Compaction.DroppedLeaves | DriveTribe/Pods/leveldb-library/db/db_impl.cc:931-960 | What such a marker leaves behind for its readers is exactly the values right after unparseable entries |
| Compaction.DroppedIsLifted | DriveTribe/Pods/leveldb-library/db/db_impl.cc:937-960 | The newest entry a reader sees is dropped if and only if it is a deletion marker at or below the smallest snapshot whose key lies in the range of no deeper file |
| Compaction.DroppedLeavesNothing | DriveTribe/Pods/leveldb-library/db/db_impl.cc:946-960 | When every key parses and the entry a reader would see is dropped, nothing older of that key remains anywhere to be seen instead |
| Compaction.DroppedIsDeletion | DriveTribe/Pods/leveldb-library/db/db_impl.cc:946-960 | If an entry some reader at or above the smallest snapshot sees is dropped, it is a deletion marker |
| Compaction.OlderDropped | DriveTribe/Pods/leveldb-library/db/db_impl.cc:931-960 | Behind an entry at or below the smallest snapshot, an entry is dropped if and only if it parses and either the one before it parses too or it is a droppable marker itself |
| Compaction.NewestNotHidden | DriveTribe/Pods/leveldb-library/db/db_impl.cc:937-948 | The first rule never drops what some reader sees |
| Compaction.KeptElements | DriveTribe/Pods/leveldb-library/db/db_impl.cc:929-996 | An entry is among the survivors exactly when neither rule drops it |
| Compaction.KeptSorted | DriveTribe/Pods/leveldb-library/db/db_impl.cc:974-996 | The survivors keep the internal key order and no internal key comes up twice |
| Compaction.OutputsDisjoint | DriveTribe/Pods/leveldb-library/db/db_impl.cc:974-996 | Of two output tables the earlier ends before the later begins |
| Compaction.UnparseableKeyRevivesDeletedValue | DriveTribe/Pods/leveldb-library/db/db_impl.cc:931-960 | A smallest input on which a value does come back: a deletion, an unparseable key and the value it deletes |
| Compaction.RevivalIsSorted | DriveTribe/Pods/leveldb-library/db/db_impl.cc:931-960 | That input is sorted and distinct and its surroundings are as the theorems ask |
| Compaction.BaseLevelCursor.IsBaseLevelForKey | DriveTribe/Pods/leveldb-library/db/version_set.cc:1533-1552 | For keys asked in ascending order the moving level pointers answer exactly whether the key lies before or after every file of every deeper level |
| Compaction.BaseLevelCursor.Advance | DriveTribe/Pods/leveldb-library/db/version_set.cc:1536-1550 | One level of that search answers for all of the level's files, though it never looks back |
| Compaction.CompactionState.SmallestSnapshot | DriveTribe/Pods/leveldb-library/db/db_impl.cc:890-894 | The snapshot limit is at or below every live snapshot, and is one of them or the last sequence number |
| Compaction.CompactionState.Classify | DriveTribe/Pods/leveldb-library/db/db_impl.cc:929-963 | The loop's running state decides exactly as the two drop rules applied to the whole input do |
| Compaction.CompactionState.OpenCompactionOutputFile | DriveTribe/Pods/leveldb-library/db/db_impl.cc:786-809 | A fresh file number, registered with an empty output even when opening fails |
| Compaction.CompactionState.Add | DriveTribe/Pods/leveldb-library/db/db_impl.cc:982-986 | The recorded smallest and largest key stay those of the first and the last entry added |
| Compaction.CompactionState.Emit | DriveTribe/Pods/leveldb-library/db/db_impl.cc:974-996 | One more survivor goes to the current output or to a new one |
| Compaction.CompactionState.DoCompactionWork | DriveTribe/Pods/leveldb-library/db/db_impl.cc:878-1036 | On success the outputs hold exactly the survivors in order, each non-empty with its exact key range, with fresh numbers; survival is decided at the oldest live snapshot, or the last sequence number without one; so of two successive parseable entries of a user key the second stays only if some live snapshot, or the last sequence number, is below the first, and a deletion marker stays only if that holds of it or a deeper level spans its key; it fails exactly when a file call, the input or a shutdown makes it |
| Compaction.CompactionState.Reclaimed | DriveTribe/Pods/leveldb-library/db/db_impl.cc:890-960 | What the two rules must take away, told by the snapshots themselves |
| Compaction.CompactionState.Merge | DriveTribe/Pods/leveldb-library/db/db_impl.cc:896-1036 | The loop over the merged input, with the same outputs and the same reasons to fail |
| SnapshotList.SnapshotList.New | DriveTribe/Pods/leveldb-library/db/snapshot.h:57-70 | The ring stays well linked and ascending, with the new snapshot last |
| SnapshotList.SnapshotList.Delete | DriveTribe/Pods/leveldb-library/db/snapshot.h:79-86 | The ring without exactly that snapshot, in the same order, still well linked |
| SnapshotList.SnapshotList.Oldest | DriveTribe/Pods/leveldb-library/db/snapshot.h:47-50 | A snapshot at or below every live one |
| SnapshotList.SnapshotList.Newest | DriveTribe/Pods/leveldb-library/db/snapshot.h:51-54 | The snapshot added last |
| SnapshotList.WithoutKeepsOrder | DriveTribe/Pods/leveldb-library/db/snapshot.h:79-86 | Taking one node out leaves the others distinct and ascending |
| DbFormat.KeysAscend | DriveTribe/Pods/leveldb-library/db/dbformat.cc:51-67 | In internal key order user keys ascend, and within one user key tags descend |
| DbFormat.Contiguous | DriveTribe/Pods/leveldb-library/db/dbformat.cc:51-67 | In internal key order the entries of one user key lie together |
| UserKeys.BytewiseIsTotalOrder | DriveTribe/Pods/leveldb-library/util/comparator.cc:24-27 | The bytewise comparator is a total order in which only equal keys compare equal |
| UserKeys.BytewiseIs | DriveTribe/Pods/leveldb-library/util/comparator.cc:24-27 | The first byte in which two keys differ decides, and a proper prefix comes first |
| Coding.FixedRoundTrip | DriveTribe/Pods/leveldb-library/util/coding.h:60-85 | Fixed-width integers decode to what was encoded |
| Coding.FixedOnto | DriveTribe/Pods/leveldb-library/util/coding.h:60-85 | Every byte string of the right width is the encoding of what it decodes to |
| Coding.VarintRoundTrip | DriveTribe/Pods/leveldb-library/util/coding.cc:47-157 | A varint of up to the given number of bytes decodes to its value and its length, whatever follows |
| Coding.Varint32RoundTrip | DriveTribe/Pods/leveldb-library/util/coding.cc:112-140 | Every uint32 comes back from its varint |
| Coding.Varint64RoundTrip | DriveTribe/Pods/leveldb-library/util/coding.cc:142-169 | Every uint64 comes back from its varint |
| Coding.LengthPrefixedRoundTrip | DriveTribe/Pods/leveldb-library/util/coding.cc:98-101 | A length-prefixed slice shorter than 4 GiB comes back, with what follows it |
| MemTable.InternalKeyRoundTrip | DriveTribe/Pods/leveldb-library/db/dbformat.cc:20-23 | User key and packed sequence and type can be taken out of an internal key again |
| MemTable.EntryRoundTrip | DriveTribe/Pods/leveldb-library/db/memtable.cc:75-98 | A memtable entry's bytes decode to its key, tag and value |
| MemTable.LookupRoundTrip | DriveTribe/Pods/leveldb-library/db/dbformat.cc:121-138 | A lookup key decodes to the user key with the sequence number and the type used for seeking |
| MemTable.KeysAreOrdered | DriveTribe/Pods/leveldb-library/db/memtable.cc:28-34 | Comparing entries by their encoded internal keys is a weak order |
| MemTable.KeyComparatorIs | DriveTribe/Pods/leveldb-library/db/memtable.cc:28-34 | It is the internal key order of the decoded entries |
| MemTable.MemTable.Add | DriveTribe/Pods/leveldb-library/db/memtable.cc:75-98 | The memtable holds what it held and the new entry, in order, in its skip list |
| MemTable.MemTable.LookedUp | DriveTribe/Pods/leveldb-library/db/memtable.cc:100-134 | The first entry at or after a lookup key answers the lookup, or shows there is nothing |
| MemTable.MemTable.Get | DriveTribe/Pods/leveldb-library/db/memtable.cc:100-134 | Found, deleted or absent exactly as the newest entry of the key at or below the sequence number says |
| LogFormat.EmitAllSnoc | DriveTribe/Pods/leveldb-library/db/log_writer.cc:34-80 | A log of many records is the log of the first ones followed by the last, written at the offset reached |
| LogFormat.BlocksAreFilled | DriveTribe/Pods/leveldb-library/db/log_writer.cc:42-60 | A block is left only when a header no longer fits, and a record is cut only where its block is full |
| LogWriter.Writer.constructor | DriveTribe/Pods/leveldb-library/db/log_writer.cc:23-30 | A writer on an existing file starts at the file's offset within its block |
| LogWriter.Writer.AddRecord | DriveTribe/Pods/leveldb-library/db/log_writer.cc:34-80 | Appends exactly the record's fragments, or a prefix of them if appending one fails; a trailer whose append fails goes unnoticed, and then, and only then, the file falls short of what the writer goes by; it fails, or loses a trailer, only when a call on the file did |
| LogWriter.Writer.AddFragment | DriveTribe/Pods/leveldb-library/db/log_writer.cc:42-78 | One turn of the loop: the trailer if there is no room for a header, then one fragment of the right kind |
| LogWriter.Writer.FillTrailer | DriveTribe/Pods/leveldb-library/db/log_writer.cc:43-52 | A block with less than a header left is filled with zeros; if that append fails, the writer goes on as if it had not |
| LogWriter.Writer.EmitPhysicalRecord | DriveTribe/Pods/leveldb-library/db/log_writer.cc:82-108 | Checksum, length, type and data, within the block |
| LogReader.Reader.constructor | DriveTribe/Pods/leveldb-library/db/log_reader.cc:18-29 | The records and drops a new reader has before it are those of the file from the initial offset |
| LogReader.Reader.SkipToInitialBlock | DriveTribe/Pods/leveldb-library/db/log_reader.cc:33-54 | Reading starts at the block of the initial offset, or the one after when only a trailer is left |
| LogReader.Reader.Refill | DriveTribe/Pods/leveldb-library/db/log_reader.cc:193-213 | The buffer holds the next block, or what there is of it at the end of the file |
| LogReader.Reader.ReadPhysicalRecord | DriveTribe/Pods/leveldb-library/db/log_reader.cc:189-271 | Each of its outcomes is the one the bytes at the position call for, and the drop reported is too |
| LogReader.Reader.NextFragment | DriveTribe/Pods/leveldb-library/db/log_reader.cc:70-172 | One turn of the reading loop takes one step of reading the rest of the file |
| LogReader.Reader.Dispatch | DriveTribe/Pods/leveldb-library/db/log_reader.cc:88-170 | What a fragment of each kind does to the record being put together, for every state |
| LogReader.Reader.ReadRecord | DriveTribe/Pods/leveldb-library/db/log_reader.cc:56-174 | Returns the first of the records still to come, with its offset, and leaves the others; false only when there are none |
| LogReading.DamageIsReported | DriveTribe/Pods/leveldb-library/db/log_reader.cc:189-271 | Wherever a header lies in a file of any bytes: a length past the end of a whole block and a checksum that does not match are reported, unless they lie before the initial offset; zeros left by preallocation and what a file that ends early cuts off are not; all else is read as it stands |
| LogTheorems.RecordReadBack | DriveTribe/Pods/leveldb-library/db/log_reader.cc:56-174 | A record written anywhere in a file is read back whole, across any number of blocks |
| LogTheorems.TornRecord | DriveTribe/Pods/leveldb-library/db/log_reader.cc:56-174 | A record cut off at any byte gives no record and no report |
| LogTheorems.CutLog | DriveTribe/Pods/leveldb-library/db/log_reader.cc:56-271 | Of every byte-prefix of a log exactly the records wholly inside it are read back, and nothing is reported |
| LogTheorems.WholeIsPrefix | DriveTribe/Pods/leveldb-library/db/log_writer.cc:34-80 | Those records are a prefix of the records written, all of them when the file is whole |
| LogTheorems.DamageIsConfined | DriveTribe/Pods/leveldb-library/db/log_reader.cc:70-271 | With any set of blocks damaged and checksums detecting it, what is read is a sub-sequence of the records written, unspliced, with every record that lies outside those blocks |
| LogTheorems.PassRecord | DriveTribe/Pods/leveldb-library/db/log_reader.cc:70-271 | A record, damaged or not, leaves the reader at its end with nothing half-read that does not belong to it |
| LogTheorems.PassFragment | DriveTribe/Pods/leveldb-library/db/log_reader.cc:88-170 | The same for one fragment |
| LogTheorems.LogIsFaithful | DriveTribe/Pods/leveldb-library/db/log_reader.cc:238-257 | Detected damage outside a set of blocks: every fragment is there as written or is dropped |
| LogTheorems.ReadFromOffset | DriveTribe/Pods/leveldb-library/db/log_reader.cc:33-89 | From any initial offset a well-formed log gives exactly the records whose first fragment starts at or after it |
| WriteBatch.DecodeOpRoundTrip | DriveTribe/Pods/leveldb-library/db/write_batch.cc:98-109 | An operation comes back from its record, whatever follows |
| WriteBatch.DecodeOpsRoundTrip | DriveTribe/Pods/leveldb-library/db/write_batch.cc:42-80 | All operations of a batch come back in order |
| WriteBatch.EncodeOpsAppend | DriveTribe/Pods/leveldb-library/db/write_batch.cc:144-149 | The contents of joined batches are the contents one after the other |
| WriteBatch.EntriesAt | DriveTribe/Pods/leveldb-library/db/write_batch.cc:117-137 | The i-th operation becomes an entry with the i-th sequence number of the batch |
| WriteBatch.WriteBatch.Clear | DriveTribe/Pods/leveldb-library/db/write_batch.cc:35-38 | An empty batch with an empty header |
| WriteBatch.WriteBatch.CountIsSize | DriveTribe/Pods/leveldb-library/db/write_batch.cc:82-84 | The header's count is the number of operations |
| WriteBatch.WriteBatch.SetSequence | DriveTribe/Pods/leveldb-library/db/write_batch.cc:94-96 | Only the header's sequence number changes |
| WriteBatch.WriteBatch.Put | DriveTribe/Pods/leveldb-library/db/write_batch.cc:98-103 | One more operation at the end, counted in the header, the sequence number untouched |
| WriteBatch.WriteBatch.Delete | DriveTribe/Pods/leveldb-library/db/write_batch.cc:105-109 | The same for a deletion |
| WriteBatch.WriteBatch.Append | DriveTribe/Pods/leveldb-library/db/write_batch.cc:144-149 | The other batch's operations at the end, counted in the header |
| WriteBatch.WriteBatch.HandleRecord | DriveTribe/Pods/leveldb-library/db/write_batch.cc:51-73 | One record goes to the handler, or is an error, as its bytes say |
| WriteBatch.WriteBatch.InsertInto | DriveTribe/Pods/leveldb-library/db/write_batch.cc:42-137 | Every operation decoded before an error is inserted with consecutive sequence numbers; success exactly when all decode and the count is right |
| Recovery.CrashPrefixRecovery | DriveTribe/Pods/leveldb-library/db/db_impl.cc:412-439 | From every byte-prefix of a log of batches, replay finds no corruption and rebuilds exactly the entries, and the last sequence number, of the batches wholly inside it |
| Recovery.BatchReplayed | DriveTribe/Pods/leveldb-library/db/db_impl.cc:412-439 | A logged batch is a good record and contributes exactly its own entries |
| Recovery.BatchesReplayed | DriveTribe/Pods/leveldb-library/db/db_impl.cc:412-439 | So do many, in order |
| Recovery.Replay.WriteLevel0Table | DriveTribe/Pods/leveldb-library/db/db_impl.cc:491-533 | The memtable's entries become one more table, which the manifest is to list, or the build fails; none is lost while the status is good |
| Recovery.Replay.InsertRecord | DriveTribe/Pods/leveldb-library/db/db_impl.cc:424-431 | The record's operations go into the memtable, up to the first that cannot be decoded |
| Recovery.Replay.Apply | DriveTribe/Pods/leveldb-library/db/db_impl.cc:419-452 | What one record does to entries, last sequence number and status, with and without paranoid checks |
| Recovery.Replay.Finish | DriveTribe/Pods/leveldb-library/db/db_impl.cc:457-488 | The log stays in use, with its memtable, exactly if that is wanted and possible and no table has come from it; else what is left goes to a table and the memtable is given up |
| Recovery.MaxSequenceIsMax | DriveTribe/Pods/leveldb-library/db/db_impl.cc:434-438 | Replay never lowers the last sequence number, and ends at the largest of a record or of the start |
| Recovery.ReplayNext | DriveTribe/Pods/leveldb-library/db/db_impl.cc:418-453 | One turn of the loop takes one record off those to come |
| Recovery.RecoverLogFile | DriveTribe/Pods/leveldb-library/db/db_impl.cc:371-489 | The tables hold exactly the entries of the records read, in order, and the manifest is to list them, unless the log is reused, and then the memtable holds them; the last sequence number is at or above the one before and every record's; fails exactly when a table build does or, with paranoid checks, when something was dropped or bad |
| Recovery.LogAll | DriveTribe/Pods/leveldb-library/db/log_writer.cc:34-80 | The file after logging all batches without losing a trailer is the log of their contents; without a failed file call that is so |
| Recovery.LogCrashRecover | DriveTribe/Pods/leveldb-library/db/db_impl.cc:371-489 | Logging, losing any tail of the file and recovering puts the entries of the first k batches into tables, or leaves them in the memtable of a reused log; all of them when nothing is lost |
| SkipList.PositionIsSplit | DriveTribe/Pods/leveldb-library/db/skiplist.h:260-281 | A place with everything smaller before it and nothing smaller after it is the position of a target |
| SkipList.AroundPosition | DriveTribe/Pods/leveldb-library/db/skiplist.h:260-281 | Keys before the position are smaller than the target, the key at it is not |
| SkipList.SkipList.constructor | DriveTribe/Pods/leveldb-library/db/skiplist.h:324-334 | An empty list, its head linked to nothing on every level |
| SkipList.SkipList.KeysAscend | DriveTribe/Pods/leveldb-library/db/skiplist.h:260-281 | The keys on the bottom level are strictly ascending |
| SkipList.SkipList.FindGreaterOrEqual | DriveTribe/Pods/leveldb-library/db/skiplist.h:260-281 | The node at the lower bound, and on every level the last node before it |
| SkipList.SkipList.FindLessThan | DriveTribe/Pods/leveldb-library/db/skiplist.h:283-302 | The last node before the key, or the head |
| SkipList.SkipList.FindLast | DriveTribe/Pods/leveldb-library/db/skiplist.h:304-322 | The last node, or the head |
| SkipList.SkipList.Contains | DriveTribe/Pods/leveldb-library/db/skiplist.h:370-378 | Whether some key compares equal |
| SkipList.SkipList.Insert | DriveTribe/Pods/leveldb-library/db/skiplist.h:336-368 | The keys with the new one at its place; the new node is in the lists of exactly its levels, as many as the numbers drawn say |
| SkipList.SkipList.RandomHeight | DriveTribe/Pods/leveldb-library/db/skiplist.h:241-252 | One more than how often in a row the number drawn was a multiple of four, and at most the maximum |
| SkipList.SkipList.RaiseTo | DriveTribe/Pods/leveldb-library/db/skiplist.h:346-359 | Raising the height and standing the head in for the new levels |
| SkipList.SkipList.LinkNode | DriveTribe/Pods/leveldb-library/db/skiplist.h:361-367 | Linking the node bottom up keeps every level well linked after each level |
| SkipList.SkipList.LinkLevel | DriveTribe/Pods/leveldb-library/db/skiplist.h:362-367 | One level: first the node's own link, then its predecessor's |
| SkipList.Iterator.Key | DriveTribe/Pods/leveldb-library/db/skiplist.h:200-204 | The key at the iterator's index |
| SkipList.Iterator.Next | DriveTribe/Pods/leveldb-library/db/skiplist.h:206-210 | One key on |
| SkipList.Iterator.Prev | DriveTribe/Pods/leveldb-library/db/skiplist.h:212-221 | One key back, or off the list at the first |
| SkipList.Iterator.Seek | DriveTribe/Pods/leveldb-library/db/skiplist.h:223-226 | The lower bound of the target |
| SkipList.Iterator.SeekToFirst | DriveTribe/Pods/leveldb-library/db/skiplist.h:228-231 | The first key |
| SkipList.Iterator.SeekToLast | DriveTribe/Pods/leveldb-library/db/skiplist.h:233-239 | The last key |
| SkipListState.SearchMoves | DriveTribe/Pods/leveldb-library/db/skiplist.h:266-280 | One load of the writer's search keeps what the search knows, at whatever level |
| SkipListState.Published | DriveTribe/Pods/leveldb-library/db/skiplist.h:362-367 | Storing the predecessor's link puts the node into the level's list at its place and leaves every other level alone |
| SkipListState.PrepareKeepsWriter | DriveTribe/Pods/leveldb-library/db/skiplist.h:362-365 | Storing the new node's own link changes no list |
| SkipListState.PublishKeepsWriter | DriveTribe/Pods/leveldb-library/db/skiplist.h:366-367 | Storing the predecessor's link keeps the list invariant and what the writer relies on |
| SkipListState.StandingLasts | DriveTribe/Pods/leveldb-library/db/skiplist.h:260-281 | Where a reader stands stays valid through stores made meanwhile |
| SkipListState.LoadedLink | DriveTribe/Pods/leveldb-library/db/skiplist.h:260-281 | What a reader loads leads on in the list or splits it around the target |
| SkipListRuns.StepIsOk | DriveTribe/Pods/leveldb-library/db/skiplist.h:260-368 | Every load of a reader and every store of the writer, in any order, keeps every level sorted, each level's nodes linked below, and both sides' knowledge |
| SkipListRuns.RunIsOk | DriveTribe/Pods/leveldb-library/db/skiplist.h:260-368 | So every interleaving does, and the lists of its states only grow, by one node at the publishing store on level 0 |
| SkipListRuns.NodesStay | DriveTribe/Pods/leveldb-library/db/skiplist.h:336-368 | A node once linked stays linked in every later state |
| SkipListRuns.ReadersAreExact | DriveTribe/Pods/leveldb-library/db/skiplist.h:260-322 | In every interleaving a search returns the exact split of the keys present at its last load of level 0 |
| SkipListRuns.InsertedIsFound | DriveTribe/Pods/leveldb-library/db/skiplist.h:260-281 | A key linked at any time before that load is found by a search for it |
| SkipListScans.ScanIsExact | DriveTribe/Pods/leveldb-library/db/skiplist.h:207-232 | An iterator that walks while the writer inserts meets nodes in strictly ascending key order, each in the list when it is met; when it has come to the end it has met every later key that was present when it set out |
| SkipListScans.SeekAndScan | DriveTribe/Pods/leveldb-library/db/skiplist.h:207-232 | After Seek and Next to the end it has met every key at or after the target that was present when Seek returned |
| SkipListScans.Successor | DriveTribe/Pods/leveldb-library/db/skiplist.h:207-210 | One load of a bottom link leads to the next node of the list of that moment, with nothing between |
| SkipListRuns.NobodyIsStuck | DriveTribe/Pods/leveldb-library/db/skiplist.h:260-368 | The writer always has a step to take, and no reader ever follows a link that is not there |
| BatchGroup.GroupIsLargest | DriveTribe/Pods/leveldb-library/db/db_impl.cc:1269-1304 | The group built is the largest allowed: one more request would bring a sync write under a non-sync leader or exceed the size limit |
| BatchGroup.GroupExists | DriveTribe/Pods/leveldb-library/db/db_impl.cc:1258-1306 | There is always a group |
| BatchGroup.SmallWritesStaySmall | DriveTribe/Pods/leveldb-library/db/db_impl.cc:1269-1278 | Behind a leader of up to 128 KiB the group grows by 128 KiB at most; behind a larger one to 1 MiB, or not at all |
| BatchGroup.RoomIsUsed | DriveTribe/Pods/leveldb-library/db/db_impl.cc:1279-1304 | A request that might have come along by its sync flag was left out only because it did not fit |
| BatchGroup.DBImpl.BuildBatchGroup | DriveTribe/Pods/leveldb-library/db/db_impl.cc:1260-1306 | The leader's batch, or the temporary batch, holds exactly the operations of the largest allowed group in queue order; the callers' batches are untouched |
| BatchGroup.DBImpl.Join | DriveTribe/Pods/leveldb-library/db/db_impl.cc:1294-1301 | The first join copies the leader's batch, and every join appends one more |
| WriterQueue.NextIsOk | DriveTribe/Pods/leveldb-library/db/db_impl.cc:1185-1256 | Every step between releases of the mutex keeps the queue in arrival order, turns adjacent in queue and sequence numbers, one leader, and outcomes with their writers |
| WriterQueue.RunIsOk | DriveTribe/Pods/leveldb-library/db/db_impl.cc:1185-1256 | So every interleaving of writers does; and throughout, acknowledged groups are records of the log |
| WriterQueue.NextLogs | DriveTribe/Pods/leveldb-library/db/db_impl.cc:1211-1228 | Every step keeps: an acknowledged group is a record of the log, synced if its leader asked for it, and inserted into the memtable; every record of the log is some group, and nothing is inserted unlogged |
| WriterQueue.TurnsAreKept | DriveTribe/Pods/leveldb-library/db/db_impl.cc:1185-1256 | What a turn logged, and with which sequence numbers, never changes later |
| WriterQueue.TurnsAreDisjoint | DriveTribe/Pods/leveldb-library/db/db_impl.cc:1202-1237 | Turns cover consecutive stretches of the queue and disjoint, ascending ranges of sequence numbers |
| WriterQueue.OneTurnEach | DriveTribe/Pods/leveldb-library/db/db_impl.cc:1239-1248 | Every writer that left the queue rode in exactly one turn |
| WriterQueue.AcknowledgedWasLogged | DriveTribe/Pods/leveldb-library/db/db_impl.cc:1204-1248 | A write that returned success is in a record of the log with the whole of its group, in queue order, and within the size limit; a sync has covered that record if the write asked for one; and it has been inserted into the memtable |
| WriterQueue.FailureHasReason | DriveTribe/Pods/leveldb-library/db/db_impl.cc:1204-1231 | A write whose group was written is reported as failed only if the append, the sync that was asked for or the insertion failed |
| WriterQueue.OneLeader | DriveTribe/Pods/leveldb-library/db/db_impl.cc:1191-1234 | At most one writer is past the wait loop, it is the queue's front, and the temporary batch is empty until it groups |
| WriterQueue.SomebodyMoves | DriveTribe/Pods/leveldb-library/db/db_impl.cc:1191-1253 | In every reachable state with a queue, its front is running or signalled and can take a step |
| WriterQueue.QueueDrains | DriveTribe/Pods/leveldb-library/db/db_impl.cc:1191-1253 | From every reachable state, with no more arrivals, the queue can be emptied |
| WriterQueue.Queue.PopGroup | DriveTribe/Pods/leveldb-library/db/db_impl.cc:1239-1253 | The loop that pops the group tells exactly its riders the outcome and wakes exactly them and the new front |
| Lifecycle.NextIsOk | DriveTribe/Pods/leveldb-library/db/db_impl.cc:491-566 | Every step of logging, inserting, switching memtables, flushing, compacting, failing and collecting keeps acknowledged writes readable and recoverable |
| Lifecycle.RunIsOk | DriveTribe/Pods/leveldb-library/db/db_impl.cc:491-566 | So every run does |
| Lifecycle.NoWriteIsLost | DriveTribe/Pods/leveldb-library/db/db_impl.cc:535-566 | In every reachable state, for the latest sequence number and every live snapshot: reads of what is held equal reads of every acknowledged write; reads of what the next incarnation finds in manifest tables and kept logs equal reads of the acknowledged writes and those whose sync failed, and without the latter reads of the acknowledged ones; and neither the manifest in use nor a table it names has been deleted |
| Lifecycle.SyncFailsIsOk | DriveTribe/Pods/leveldb-library/db/db_impl.cc:1216-1237 | A failed sync: the write is reported as failed and never inserted, its record stays in the log, and the last sequence number advances past it all the same; nothing acknowledged is lost |
| Lifecycle.RecoveredShowsLimbo | DriveTribe/Pods/leveldb-library/db/db_impl.cc:1216-1233 | A recovery shows a failed write exactly to readers that see an entry of it for the key; to all others exactly the acknowledged writes |
| Lifecycle.FailedSyncTurnsUp | DriveTribe/Pods/leveldb-library/db/db_impl.cc:1216-1237 | A run in which a write whose sync failed is read after a recovery, though it never was before |
| Lifecycle.RecoveredIsFaithful | DriveTribe/Pods/leveldb-library/db/db_impl.cc:535-566 | No table named by the manifest on disk has been deleted, and recovering from manifest and logs reads like the acknowledged writes with those whose sync failed on top, also between the manifest write and its return |
| Lifecycle.AcknowledgedStay | DriveTribe/Pods/leveldb-library/db/db_impl.cc:1202-1237 | Acknowledged writes and the last sequence number only grow |
| Lifecycle.CollectedIsOk | DriveTribe/Pods/leveldb-library/db/db_impl.cc:223-278 | Deleting files that are neither live nor pending, and logs below the log number, loses nothing |
| Lifecycle.SwitchIsOk | DriveTribe/Pods/leveldb-library/db/db_impl.cc:1345-1366 | Switching to a new memtable and log keeps the old memtable's log |
| Lifecycle.FlushReturnsIsOk | DriveTribe/Pods/leveldb-library/db/db_impl.cc:557-562 | Dropping the flushed memtable and its logs is safe once the version is installed |
| Lifecycle.FlushFailedIsOk | DriveTribe/Pods/leveldb-library/db/db_impl.cc:563-565 | A failed flush loses nothing, whether or not its edit reached the manifest |
| Lifecycle.JobReturnsIsOk | DriveTribe/Pods/leveldb-library/db/db_impl.cc:860-876 | Installing a compaction is safe, and so is its failure, whether or not its edit reached the manifest |
| Lifecycle.JobFailsIsOk | DriveTribe/Pods/leveldb-library/db/db_impl.cc:1001-1032 | A compaction that fails before installing loses nothing |
| Lifecycle.SurvivorsRead | DriveTribe/Pods/leveldb-library/db/db_impl.cc:878-1036 | For every snapshot that was or is taken while a compaction runs, replacing inputs by outputs changes no read |
| Lifecycle.ManifestIsThere | DriveTribe/Pods/leveldb-library/db/db_impl.cc:248-252 | The manifest in use is never collected |
| Lifecycle.FlushMovesEntries | DriveTribe/Pods/leveldb-library/db/db_impl.cc:557-562 | A flush that returns well has put the memtable's entries into the current version's tables, and the memtable is gone |
| Lifecycle.JobReplacesInputs | DriveTribe/Pods/leveldb-library/db/db_impl.cc:860-876 | A compaction that returns well has replaced its inputs by outputs that hold the survivors |
| LifecycleRuns.ReadsStandStill | DriveTribe/Pods/leveldb-library/db/db_impl.cc:1100-1130 | As long as a reader may be at a sequence number, what it reads there never changes, whatever is written, flushed or compacted meanwhile |
| LifecycleRuns.SnapshotsHold | DriveTribe/Pods/leveldb-library/db/db_impl.cc:1166-1174 | A snapshot can be read at until it is released, and shows what was acknowledged when it was taken |
| LifecycleRuns.WriteGetsDone | DriveTribe/Pods/leveldb-library/db/db_impl.cc:1202-1237 | A leader with room gets its batch into log and memtable |
| LifecycleRuns.SwitchGetsDone | DriveTribe/Pods/leveldb-library/db/db_impl.cc:1345-1366 | A full memtable can become the immutable one unless there is one or an error |
| LifecycleRuns.FlushGetsDone | DriveTribe/Pods/leveldb-library/db/db_impl.cc:535-566 | From every reachable state that allows a flush the immutable memtable gets into a table of the current version |
| LifecycleRuns.CompactionGetsDone | DriveTribe/Pods/leveldb-library/db/db_impl.cc:860-1036 | A compaction that has been picked gets installed: its inputs go, and its survivors are in the version instead |
| ObsoleteFiles.DBImpl.DeleteObsoleteFiles | DriveTribe/Pods/leveldb-library/db/db_impl.cc:223-278 | After an error nothing goes; otherwise, of the listed files, exactly these go: descriptors numbered below the manifest in use, logs below the log number other than the previous log, and tables and temporary files neither live nor pending; that is a collection the life cycle allows |
| Scheduling.NextIsOk | DriveTribe/Pods/leveldb-library/db/db_impl.cc:640-767 | Every step keeps: at most one job outstanding, and one whenever there is work or a waiter and no error or shutdown |
| Scheduling.RunIsOk | DriveTribe/Pods/leveldb-library/db/db_impl.cc:640-767 | So every run does |
| Scheduling.NoWaiterWithoutWaker | DriveTribe/Pods/leveldb-library/db/db_impl.cc:609-663 | Outside shutdown, pending work without an error, and any thread waiting, mean exactly one scheduled or running job |
| Scheduling.WaitersWake | DriveTribe/Pods/leveldb-library/db/db_impl.cc:669-686 | From every such state the outstanding job's steps, with the flush if that is its task, wake all waiting threads |
| Scheduling.RoomOrWait | DriveTribe/Pods/leveldb-library/db/db_impl.cc:1310-1366 | A writer switches to a new memtable, or waits, exactly as the older memtable and the tables in level 0 say, and when it waits a job is outstanding |
| Scheduling.MemTableGetsFlushed | DriveTribe/Pods/leveldb-library/db/db_impl.cc:669-694 | From every state with an immutable memtable and neither error nor shutdown, background calls alone flush it |
| Scheduling.BegunFlushes | DriveTribe/Pods/leveldb-library/db/db_impl.cc:669-694 | However a call begins then, a flush is what it can do next, and it cannot end before |
| Scheduling.FlushBeforeEnd | DriveTribe/Pods/leveldb-library/db/db_impl.cc:669-694 | In every run a call that began with an immutable memtable has flushed it, or failed to, before it ends |
| Scheduling.ManualGetsDone | DriveTribe/Pods/leveldb-library/db/db_impl.cc:696-767 | A registered manual compaction is taken up by background calls alone, and taken off |
| Scheduling.CompactionGetsDone | DriveTribe/Pods/leveldb-library/db/db_impl.cc:696-767 | When a level needs a compaction, background calls alone take one up and may install it |
| Scheduling.ManualStillThere | DriveTribe/Pods/leveldb-library/db/db_impl.cc:688-767 | While a manual compaction runs it is still the registered one, unless there was an error or a shutdown |
| Scheduling.ManualMayBeWithdrawn | DriveTribe/Pods/leveldb-library/db/db_impl.cc:609-621 | After a background error, and after a shutdown, it need not be: for both there is a run in which the owner withdraws it while its job is running |
| SnapshotReads.UpperFirst | DriveTribe/Pods/leveldb-library/db/db_impl.cc:1120-1130 | What is found in a newer layer is what both layers together give |
| SnapshotReads.LowerNext | DriveTribe/Pods/leveldb-library/db/db_impl.cc:1120-1130 | What is absent there is up to the older layer |
| SnapshotReads.Get | DriveTribe/Pods/leveldb-library/db/db_impl.cc:1100-1145 | Memtable, then immutable memtable, then version, stopping at the first answer, gives the newest entry at or below the snapshot over all three |
| SnapshotReads.FoundIsRead | DriveTribe/Pods/leveldb-library/db/memtable.cc:100-134 | A lookup's outcome is the read of the set of entries |
| SnapshotReads.LaterInsertsUnseen | DriveTribe/Pods/leveldb-library/db/db_impl.cc:1100-1130 | Entries inserted after the snapshot was taken change no lookup at it |
| SnapshotReads.NextIsLayered | DriveTribe/Pods/leveldb-library/db/db_impl.cc:1310-1370 | Every step of the life cycle keeps the memtable newer than the immutable one, and both newer than the tables |
| SnapshotReads.RunIsLayered | DriveTribe/Pods/leveldb-library/db/db_impl.cc:1310-1370 | So every run does |
| SnapshotReads.ShortCircuitIsExact | DriveTribe/Pods/leveldb-library/db/db_impl.cc:1100-1145 | In every reachable state the layered lookup answers as a read of every acknowledged write does |
| SnapshotReads.EntryNumberIs | DriveTribe/Pods/leveldb-library/db/write_batch.cc:117-137 | The i-th step of inserting a batch adds its i-th entry |
| SnapshotReads.AllOrNone | DriveTribe/Pods/leveldb-library/db/db_impl.cc:1202-1237 | In every interleaving of insertions, publications and readers, a snapshot sees all operations of a finished batch or none |
| SnapshotReads.HalfInsertedUnseen | DriveTribe/Pods/leveldb-library/db/db_impl.cc:1223-1237 | No snapshot sees an operation of the batch being inserted |
| SnapshotReads.BatchGetsVisible | DriveTribe/Pods/leveldb-library/db/db_impl.cc:1202-1237 | A batch gets inserted and published, and whoever takes a snapshot then sees all of it |
| BlockFormat.FastPathIsExact | DriveTribe/Pods/leveldb-library/table/block.cc:54-74 | Reading three one-byte lengths at once gives what decoding three varints gives, with the same 32-bit size check |
| BlockFormat.AcceptedStaysInside | DriveTribe/Pods/leveldb-library/table/block.cc:70-73 | An entry that passes the 32-bit size check lies inside the block if and only if its two lengths add up to less than 2^32 |
| BlockFormat.WrappedSumIsAccepted | DriveTribe/Pods/leveldb-library/table/block.cc:70-73 | Seven bytes that pass the check although their lengths lead out of the block |
| BlockFormat.OverrunIsWrap | DriveTribe/Pods/leveldb-library/table/block.cc:224-250 | A parsing step leaves the block if and only if an entry in its place shares no more than there is and has lengths of 2^32 or more together |
| BlockFormat.EntryRoundTrip | DriveTribe/Pods/leveldb-library/table/block_builder.cc:72-105 | An entry's lengths, key delta and value are found where the builder put them |
| BlockFormat.ListIsDetermined | DriveTribe/Pods/leveldb-library/table/block.cc:137-251 | The bytes of a well-formed block determine its entry list |
| BlockFormat.OpenBlock | DriveTribe/Pods/leveldb-library/table/block.cc:19-39 | Refused if and only if it is shorter than a count or than the count of restart points says; else the restart array and the count end a block under 4 GiB exactly |
| BlockIter.Iter.constructor | DriveTribe/Pods/leveldb-library/table/block.cc:115-124 | A new iterator is not valid |
| BlockIter.Iter.SeekToRestartPoint | DriveTribe/Pods/leveldb-library/table/block.cc:104-112 | Parsing will start at that restart point's entry |
| BlockIter.Iter.ParseNextKey | DriveTribe/Pods/leveldb-library/table/block.cc:224-251 | Key and value become those of the next entry of the list; in any bytes at all the outcome is told by what stands there: an entry inside the block with its key and value, the end, corruption, or an entry whose lengths wrap and lead out of the block |
| BlockIter.Iter.AdvanceRestartIndex | DriveTribe/Pods/leveldb-library/table/block.cc:246-249 | The restart index brackets the current entry again |
| BlockIter.Iter.Next | DriveTribe/Pods/leveldb-library/table/block.cc:137-140 | One entry on |
| BlockIter.Iter.Prev | DriveTribe/Pods/leveldb-library/table/block.cc:142-161 | One entry back, over a restart point if need be; off the list at the first |
| BlockIter.Iter.Seek | DriveTribe/Pods/leveldb-library/table/block.cc:163-201 | Binary search over restart points and a scan find the linear lower bound of the target; in any bytes the iterator ends invalid or on an entry inside the block and at or after the target |
| BlockIter.Iter.SeekToFirst | DriveTribe/Pods/leveldb-library/table/block.cc:203-206 | The first entry |
| BlockIter.Iter.SeekToLast | DriveTribe/Pods/leveldb-library/table/block.cc:208-213 | The last entry |
| BlockIter.MidKey | DriveTribe/Pods/leveldb-library/table/block.cc:163-190 | A restart point's key is stored whole and is the key of its entry |
| BlockIter.FoundBound | DriveTribe/Pods/leveldb-library/table/block.cc:191-201 | Where the scan stops is the lower bound |
| BlockBuilder.BlockBuilder.Add | DriveTribe/Pods/leveldb-library/table/block_builder.cc:72-105 | The list with one more entry, written with exactly the longest prefix it shares with the last key left out, and nothing left out at a restart |
| BlockBuilder.BlockBuilder.StartEntry | DriveTribe/Pods/leveldb-library/table/block_builder.cc:76-88 | Every interval-th entry becomes a restart point, which shares nothing; the others share the longest prefix |
| BlockBuilder.BlockBuilder.SharedPrefix | DriveTribe/Pods/leveldb-library/table/block_builder.cc:80-88 | The longest common prefix with the last key |
| BlockBuilder.BlockBuilder.Finish | DriveTribe/Pods/leveldb-library/table/block_builder.cc:62-70 | The finished block is well formed with exactly the entries added, so the iterator theorems apply to it, and has a restart point at every interval-th entry |
| VersionEdit.ItemRoundTrip | DriveTribe/Pods/leveldb-library/db/version_edit.cc:41-205 | Every field comes back from its tag and payload, whatever follows |
| VersionEdit.ItemsRoundTrip | DriveTribe/Pods/leveldb-library/db/version_edit.cc:107-205 | So do many in order |
| VersionEdit.EditRoundTrip | DriveTribe/Pods/leveldb-library/db/version_edit.cc:41-205 | Decoding an encoded edit restores every set field, deletion and new file in order; compact pointers go behind those the target had |
| VersionEdit.ExactIntoFresh | DriveTribe/Pods/leveldb-library/db/version_edit.cc:26-39 | The decoded edit equals the encoded one exactly when the target had no compact pointers, because clearing leaves them |
| VersionEdit.VersionEdit.Clear | DriveTribe/Pods/leveldb-library/db/version_edit.cc:26-39 | Everything but the compact pointers is reset |
| VersionEdit.VersionEdit.EncodeTo | DriveTribe/Pods/leveldb-library/db/version_edit.cc:41-85 | Appends the items in order: numbers, pointers, deletions in ascending order, new files |
| VersionEdit.VersionEdit.EncodeDeletions | DriveTribe/Pods/leveldb-library/db/version_edit.cc:67-72 | The set of deletions is written in ascending order, each once |
| VersionEdit.VersionEdit.DecodeFrom | DriveTribe/Pods/leveldb-library/db/version_edit.cc:107-205 | The fields are those of the items decoded up to the first error, and the message is that error's |
| VersionEdit.VersionEdit.TakeIn | DriveTribe/Pods/leveldb-library/db/version_edit.cc:117-193 | Each tag goes into its field |
| FormatExamples.LowestFirst | DriveTribe/Pods/leveldb-library/util/coding.h:60-85 | Fixed-width numbers have their lowest byte first |
| FormatExamples.VarintLimits | DriveTribe/Pods/leveldb-library/util/coding.cc:112-169 | Five bytes with the top bit set begin no varint of 32 bits, and ten none of 64; what does not fit 32 bits is cut off |
| FormatExamples.LogRecord | DriveTribe/Pods/leveldb-library/db/log_format.h:14-33 | Checksum, length in two bytes, kind, data; kinds 1 to 4; where blocks end |
| FormatExamples.Batch | DriveTribe/Pods/leveldb-library/db/write_batch.cc:5-17 | Sequence number, count, and operations of kind 1 and 0, byte by byte |
| FormatExamples.UnknownOperation | DriveTribe/Pods/leveldb-library/db/write_batch.cc:51-73 | An operation of another kind is refused |
| FormatExamples.MemTableEntry | DriveTribe/Pods/leveldb-library/db/memtable.cc:75-98 | A memtable entry and a lookup key, byte by byte |
| FormatExamples.ManifestItems | DriveTribe/Pods/leveldb-library/db/version_edit.cc:12-24 | Each item of a manifest record behind its own number, byte by byte |
| FormatExamples.ManifestRecord | DriveTribe/Pods/leveldb-library/db/version_edit.cc:41-85 | The order of the items |
| FormatExamples.ManifestRefuses | DriveTribe/Pods/leveldb-library/db/version_edit.cc:87-205 | Levels from seven on, and the number 8, are refused |
| FormatExamples.BlockEntry | DriveTribe/Pods/leveldb-library/table/block_builder.cc:72-105 | A block entry, byte by byte |
| FormatExamples.WireTypes | DriveTribe/Pods/nanopb/pb.h:319-324 | The wire types of the types of fields, and which of them can be packed |
| FormatExamples.FieldKey | DriveTribe/Pods/nanopb/pb_encode.c:669-673 | A key is the field number above three bits of wire type |
| FormatExamples.MessageEnds | DriveTribe/Pods/nanopb/pb_decode.c:298-319 | No bytes are the end of a message, and so is a zero key |
| FormatExamples.MessageBytes | DriveTribe/Pods/nanopb/pb_encode.c:341-426 | A field of each kind, byte by byte |
| FormatExamples.ArrayBytes | DriveTribe/Pods/nanopb/pb_encode.c:125-233 | Numbers of an array share one key, submessages have one each |
| PbVarint.Varint64RoundTrips | DriveTribe/Pods/nanopb/pb_encode.c:608-628 | Every uint64 comes back from its varint, which takes at most ten bytes |
| PbVarint.Varint32IsVarint64 | DriveTribe/Pods/nanopb/pb_decode.c:187-275 | Whatever the 32-bit decoder accepts in at most ten bytes, the 64-bit decoder accepts too, with the same number modulo 2^32 and the same rest |
| PbVarint.Varint32RoundTrips | DriveTribe/Pods/nanopb/pb_decode.c:187-246 | Every uint32 is accepted and comes back |
| PbVarint.LargeVarintRefused | DriveTribe/Pods/nanopb/pb_decode.c:205-246 | Of the numbers below 2^63 the 32-bit decoder accepts exactly those below 2^32 |
| PbVarint.NegativeVarint32RoundTrips | DriveTribe/Pods/nanopb/pb_decode.c:205-246 | Every negative int32, sign-extended to ten bytes, is accepted and comes back |
| PbVarint.ZigzagRoundTrip | DriveTribe/Pods/nanopb/pb_encode.c:630-639 | Every int64 comes back from its zigzag number, which is 2x, or -2x - 1 for negative x |
| PbVarint.UnzigzagRoundTrip | DriveTribe/Pods/nanopb/pb_decode.c:1272-1284 | Every uint64 is the zigzag number of exactly one int64 |
| PbStream.InputStream.ReadByte | DriveTribe/Pods/nanopb/pb_decode.c:141-164 | The first byte left, or failure at the end |
| PbStream.InputStream.Read | DriveTribe/Pods/nanopb/pb_decode.c:102-138 | The bytes asked for when that many are left, and otherwise nothing |
| PbStream.InputStream.DecodeVarint32Eof | DriveTribe/Pods/nanopb/pb_decode.c:187-246 | The accumulating loop computes the 32-bit decoding of the bytes left, and tells an empty stream from a bad varint |
| PbStream.InputStream.DecodeVarint | DriveTribe/Pods/nanopb/pb_decode.c:255-275 | The accumulating loop computes the 64-bit decoding of the bytes left |
| PbStream.InputStream.SkipVarint | DriveTribe/Pods/nanopb/pb_decode.c:278-287 | Leaves what follows the varint |
| PbStream.InputStream.SkipString | DriveTribe/Pods/nanopb/pb_decode.c:289-296 | Leaves what follows the string |
| PbStream.InputStream.SkipField | DriveTribe/Pods/nanopb/pb_decode.c:321-331 | Leaves what follows a field of any wire type; unknown wire types fail |
| PbStream.InputStream.DecodeTag | DriveTribe/Pods/nanopb/pb_decode.c:298-319 | Field number and wire type, or the end of the message, which a zero key marks as well |
| PbStream.InputStream.MakeSubstream | DriveTribe/Pods/nanopb/pb_decode.c:372-385 | The substream holds exactly the delimited bytes, and the parent what follows |
| PbStream.InputStream.CloseSubstream | DriveTribe/Pods/nanopb/pb_decode.c:387-400 | The parent goes on behind the delimited bytes, whatever was left unread |
| PbDescriptor.FieldIter.Begin | DriveTribe/Pods/nanopb/pb_common.c:8-18 | The walk stands at the first field |
| PbDescriptor.FieldIter.Next | DriveTribe/Pods/nanopb/pb_common.c:20-76 | The next field, or the first again; storage place and required index are those of a walk from the start |
| PbDescriptor.FieldIter.Find | DriveTribe/Pods/nanopb/pb_common.c:78-95 | From any position a field of that number is found if there is one, with the sums of a walk from the start |
| PbDescriptor.SlotsAscend | DriveTribe/Pods/nanopb/pb_common.c:41-74 | Storage places never go back along the descriptor |
| PbOutput.OutputStream.Write | DriveTribe/Pods/nanopb/pb_encode.c:103-124 | The bytes are appended when they fit, counted in any case when only counting, and nothing outside the window changes |
| PbOutput.Then | DriveTribe/Pods/nanopb/pb_encode.c:103-124 | Writes one after the other succeed exactly when their sum fits, and leave the bytes one behind the other |
| PbOutput.OutputStream.BufWrite | DriveTribe/Pods/nanopb/pb_encode.c:74-84 | The loop copies exactly the bytes given |
| PbOutput.Groups | DriveTribe/Pods/nanopb/pb_encode.c:608-625 | The loop that splits a number into groups of seven bits gives its varint, in ten bytes at most |
| PbOutput.OutputStream.EncodeVarint | DriveTribe/Pods/nanopb/pb_encode.c:608-628 | Writes the varint |
| PbOutput.OutputStream.EncodeSvarint | DriveTribe/Pods/nanopb/pb_encode.c:630-639 | Writes the varint of the zigzag number |
| PbOutput.OutputStream.EncodeFixed32 | DriveTribe/Pods/nanopb/pb_encode.c:641-650 | Writes four bytes, lowest first |
| PbOutput.OutputStream.EncodeFixed64 | DriveTribe/Pods/nanopb/pb_encode.c:653-666 | Writes eight bytes, lowest first |
| PbOutput.OutputStream.EncodeTag | DriveTribe/Pods/nanopb/pb_encode.c:669-673 | Writes the key |
| PbOutput.OutputStream.EncodeString | DriveTribe/Pods/nanopb/pb_encode.c:709-715 | Writes length and bytes |
| PbEncode.CheckDefault | DriveTribe/Pods/nanopb/pb_encode.c:240-337 | Whether a field would be left out as zero, as the recursive definition says |
| PbEncode.AllDefault | DriveTribe/Pods/nanopb/pb_encode.c:296-307 | The walk over a submessage finds out whether all of its fields would be |
| PbEncode.EncodeItemTo | DriveTribe/Pods/nanopb/pb_encode.c:769-912 | Every field encoder writes the item's bytes, or fails exactly where the specification has none or they do not fit |
| PbEncode.StringLength | DriveTribe/Pods/nanopb/pb_encode.c:889-896 | The loop stops at the terminator or the end of the array |
| PbEncode.EncodeSubmessage | DriveTribe/Pods/nanopb/pb_encode.c:717-765 | Counting first, then writing: the submessage with its exact length in front, on writing and on counting streams alike |
| PbEncode.WriteSubmessage | DriveTribe/Pods/nanopb/pb_encode.c:743-764 | The second pass writes exactly the counted size, so "submsg size changed" cannot occur |
| PbEncode.EncodePacked | DriveTribe/Pods/nanopb/pb_encode.c:162-205 | A packed array with its exact length in front, whether that was multiplied out or counted |
| PbEncode.CountItems | DriveTribe/Pods/nanopb/pb_encode.c:178-189 | The counting pass finds the exact size of the items |
| PbEncode.FixedItems | DriveTribe/Pods/nanopb/pb_encode.c:169-177 | Fixed-width items take four or eight bytes each |
| PbEncode.EncodeUnpacked | DriveTribe/Pods/nanopb/pb_encode.c:208-233 | Every item behind its own key |
| PbEncode.EncodeField | DriveTribe/Pods/nanopb/pb_encode.c:341-426 | A field by its kind: required, optional, singular, repeated or member of a union |
| PbEncode.EncodeMessage | DriveTribe/Pods/nanopb/pb_encode.c:528-550 | The walk over the descriptor writes all fields in order: succeeds exactly when the encoding exists and fits, and writes exactly it |
| PbEncode.GetEncodedSize | DriveTribe/Pods/nanopb/pb_encode.c:567-576 | The exact size, found without writing |
| PbEncode.EncodeSized | DriveTribe/Pods/nanopb/pb_encode.c:567-576 | A message fits a buffer exactly when the size found does, and takes up exactly that many bytes |
| PbDecode.SetToDefaults | DriveTribe/Pods/nanopb/pb_decode.c:911-922 | Every field's storage is set to its default, whatever it held: nothing is set in it, at any depth |
| PbDecode.FieldDefault | DriveTribe/Pods/nanopb/pb_decode.c:839-909 | An optional field is not there, an array is empty, a union has no member; values are the declared default, or zero; submessages recursively |
| PbDecode.DecodeInteger | DriveTribe/Pods/nanopb/pb_decode.c:1332-1415 | Numbers that do not fit the field's size are refused, the others stored |
| PbDecode.DecodeFixed | DriveTribe/Pods/nanopb/pb_decode.c:1286-1319 | Four or eight bytes put together |
| PbDecode.DecodeBlob | DriveTribe/Pods/nanopb/pb_decode.c:1434-1551 | Bytes, strings with room for the terminator, and fixed-length bytes, of which an empty one is all zeros |
| PbDecode.DecodeItemFrom | DriveTribe/Pods/nanopb/pb_decode.c:1321-1551 | Every field decoder gives what the specification gives, and leaves what follows |
| PbDecode.DecodeSubmessage | DriveTribe/Pods/nanopb/pb_decode.c:1506-1528 | Array entries start from defaults, other submessages from what is there; the parent goes on behind it |
| PbDecode.DecodePackedFrom | DriveTribe/Pods/nanopb/pb_decode.c:436-445 | The loop over a packed array stops at its end, at a full array or at a bad item, and only the first is success |
| PbDecode.DecodeField | DriveTribe/Pods/nanopb/pb_decode.c:406-483 | One occurrence of a field changes its own storage only, as the specification says |
| PbDecode.DecodeLoop | DriveTribe/Pods/nanopb/pb_decode.c:944-1024 | The loop over the fields of a stream gives the specified storage, with the mask holding exactly the required fields seen |
| PbDecode.DecodeNoinit | DriveTribe/Pods/nanopb/pb_decode.c:928-1076 | Succeeds exactly when every field decodes and no required one is missing, and leaves the specified storage |
| PbDecode.Decode | DriveTribe/Pods/nanopb/pb_decode.c:1078-1090 | The same from defaults; and of whole fields the storage tells which came: has flags exactly of those that came, a member in a union exactly if one came, all else unset |
| PbRequired.OrBitAdds | DriveTribe/Pods/nanopb/pb_decode.c:1015-1020 | Setting a bit adds its number to the set the word stands for |
| PbRequired.LowOnes | DriveTribe/Pods/nanopb/pb_decode.c:1054-1072 | A word equals 2^m - 1 exactly when its first m numbers are in the set and no others |
| PbRequired.ShiftedOnes | DriveTribe/Pods/nanopb/pb_decode.c:1064-1071 | All ones shifted right by k are n - k ones |
| PbRequired.Tick | DriveTribe/Pods/nanopb/pb_decode.c:1015-1020 | The two words hold the set with one more number |
| PbRequired.CheckRequired | DriveTribe/Pods/nanopb/pb_decode.c:1033-1073 | The mask test passes exactly when each of the first 64 required fields was seen |
| PbRequired.CountRequired | DriveTribe/Pods/nanopb/pb_decode.c:1035-1049 | Walking on to the end from anywhere counts all required fields |
| PbRoundTrip.ItemBack | DriveTribe/Pods/nanopb/pb_decode.c:1321-1551 | Every item comes back from its encoding, whatever follows |
| PbRoundTrip.SlotBack | DriveTribe/Pods/nanopb/pb_decode.c:406-483 | A field's part of the encoding takes the decoded message one field on |
| PbRoundTrip.FieldsBack | DriveTribe/Pods/nanopb/pb_decode.c:928-1076 | So do the first n fields |
| PbRoundTrip.MessageBack | DriveTribe/Pods/nanopb/pb_decode.c:1078-1090 | Decoding an encoded message into fresh storage gives it back with defaults for what is absent |
| PbRoundTrip.UnterminatedTextIsRefused | DriveTribe/Pods/nanopb/pb_decode.c:1471-1504 | A char array comes back exactly when it has room for its terminator |
| PbTheorems.MessageRoundTrip | DriveTribe/Pods/nanopb/pb_encode.c:528-550 | For every descriptor with distinct positive field numbers and every in-range message: decoding the encoding succeeds, uses all bytes and gives the message back, unchanged if its absent parts hold their defaults |
| PbTheorems.SlotsStay | DriveTribe/Pods/nanopb/pb_decode.c:911-922 | A message whose absent parts hold their defaults is its own normal form |
| PbDefaults.DefaultsAreUnset | DriveTribe/Pods/nanopb/pb_decode.c:839-922 | Storage set to its defaults has nothing set in it, at every depth: no has flag, no items, no members, declared values or zero |
| PbDefaults.AbsentFieldsAreUnset | DriveTribe/Pods/nanopb/pb_decode.c:839-1076 | After decoding whole fields from defaults an optional field is there if and only if its number came, a union has a member if and only if one of its members came, and then one that came, and what did not come is unset |
| PbDefaults.PresenceKept | DriveTribe/Pods/nanopb/pb_encode.c:240-337 | Through encoding and decoding every has flag, every length of an array and every member of a union is kept, and what was not there comes back unset |
| PbLimits.PresentIsWritten | DriveTribe/Pods/nanopb/pb_encode.c:341-426 | A field contributes bytes if and only if it is present |
| PbLimits.ZeroIsLeftOut | DriveTribe/Pods/nanopb/pb_encode.c:240-337 | A field without has flag is left out exactly when it holds zero or an empty string |
| PbLimits.EmptySubmessageIsLeftOut | DriveTribe/Pods/nanopb/pb_encode.c:296-307 | A submessage without has flag is left out exactly when nothing in it has been set |
| PbLimits.EncodingExists | DriveTribe/Pods/nanopb/pb_encode.c:341-550 | An in-range message can be encoded if and only if byte arrays and arrays that are present are within their bounds and integers of a size there is, at every depth |
| PbLimits.NumbersMustFit | DriveTribe/Pods/nanopb/pb_decode.c:1332-1415 | Of the numbers a sender may mean exactly those in the range of the field are taken, and as they are |
| PbLimits.TruthValues | DriveTribe/Pods/nanopb/pb_decode.c:1321-1330 | Every number but zero is true |
| PbLimits.BytesMustFit | DriveTribe/Pods/nanopb/pb_decode.c:1434-1551 | Byte arrays up to their bound, strings below their size, and bytes of a fixed length or none at all are taken; all others are refused |
| PbLimits.FullArrayRefuses | DriveTribe/Pods/nanopb/pb_decode.c:436-483 | A full array takes nothing more, packed or not |
| PbRoundTrip.EitherPacking | DriveTribe/Pods/nanopb/pb_decode.c:424-483 | An array of numbers may come packed or unpacked and in several parts: its items go behind those that have come |
| PbRoundTrip.ShortNegatives | DriveTribe/Pods/nanopb/pb_decode.c:1332-1372 | A negative number of up to 32 bits may come in five bytes or, sign-extended, in ten |
| PbMerge.MessagesConcatenate | DriveTribe/Pods/nanopb/pb_decode.c:928-1076 | Decoding one message after another into the same storage is decoding their bytes after one another |
| PbMerge.OccurrencesMerge | DriveTribe/Pods/nanopb/pb_decode.c:1506-1528 | A single submessage that comes twice is merged field by field |
| PbMerge.UnionMembers | DriveTribe/Pods/nanopb/pb_decode.c:467-478 | A new member of a union starts from its defaults whatever the union held; the current one is merged |
| PbUnknown.ThroughFields | DriveTribe/Pods/nanopb/pb_decode.c:946-1024 | Decoding goes through whole fields and on from there with what follows |
| PbUnknown.UnknownIsNeutral | DriveTribe/Pods/nanopb/pb_decode.c:960-989 | An unknown field put at any field boundary changes neither the result nor whether there is one |
| PbUnknown.UnknownInsideIsNeutral | DriveTribe/Pods/nanopb/pb_decode.c:960-989 | So is one inside a submessage at any depth, with the lengths around it written anew |
| PbUnknown.SubmessagesAlike | DriveTribe/Pods/nanopb/pb_decode.c:1506-1528 | Two submessage contents that decode alike over the storage at hand are alike to the message around them |
| PbUnknown.PayloadIsSkipped | DriveTribe/Pods/nanopb/pb_decode.c:321-331 | Skipped, whatever follows, are exactly: bytes of 128 or more and one below for wire type 0, eight bytes for 1, a length and that many bytes for 2, four bytes for 5 |
| PbUnknown.EncodedPayloads | DriveTribe/Pods/nanopb/pb_encode.c:608-715 | What the encoder writes for numbers, fixed-width numbers and strings is such a payload |
| PbUnknown.SeenIsExact | DriveTribe/Pods/nanopb/pb_decode.c:1015-1020 | A required field is ticked off exactly when its number is among those that came |
| PbUnknown.RequiredAreCounted | DriveTribe/Pods/nanopb/pb_decode.c:1033-1073 | Whole fields are accepted exactly when each of the first 64 required field numbers is among them |
| PbCodec.Transmit | DriveTribe/Pods/nanopb/pb_encode.c:528-550 | Encoding into a buffer and decoding from it works exactly when the encoding fits, and gives the message back |

## Left out

- Compaction.CompactionPreservesReads: that compaction inputs are closed over user keys within the levels involved, and that what lies deeper is older and inside some deeper file's range, are hypotheses (`Surroundings`), as the comments of version_set.h promise; the choice of inputs in version_set.cc is not modelled. The last sequence number is below the largest possible one.
- Lifecycle.NextIsOk: picking a compaction promises the same as a step's guard (`Picked`), which also asks that no deleted value comes back past an unparseable key (`Compaction.NoneRevived`); log appends succeed, though a sync behind one may fail; a partial manifest record left by a failed LogAndApply with a later append to the same manifest behind it is not modelled; and of file collection only that it deletes no file which is live or pending is used, so a collection may also keep more.
- SnapshotReads.Get: the version's own answer is handed in; searching levels of tables, the table cache and bloom filters are not modelled.
- LogReader.Reader.ReadRecord: read errors of the file, the number of bytes in a report and its text are not modelled; reports are counted.
- LogTheorems.DamageIsConfined: a damaged block stays where it is and keeps its length; bytes do not move.
- Recovery.RecoverLogFile: keeping a log in use after recovery is a free choice, and what is then appended behind a torn tail is not modelled.
- LogWriter.Writer.AddRecord: after a failed append of a fragment nothing is promised about later records.
- BlockIter.Iter.ParseNextKey: what becomes of an iterator whose entry leads out of the block is not modelled; the code reads memory that is not the block's.
- BlockIter.Iter.Seek: on malformed bytes it is not stated which entry at or after the target it ends on.
- MemTable.MemTable.Add: the arena and reference counts are not modelled; garbage collection takes their place.
- SkipListRuns.ReadersAreExact: loads and stores are sequentially consistent; the weak memory model is not modelled.
- WriterQueue.NextIsOk: time does not pass, so the one-millisecond delay of a write is not a step; making room is one step that may fail.
- Scheduling.WaitersWake: that a job handed to the environment starts and ends at some time is assumed.
- PbMessage.DecodeItem: storage of a shape no field of that type ever has is treated as fresh; in-range messages never have it.
- PbDecode.DecodeField: a submessage is decoded in a struct of its own and then stored, so a failure half-way leaves storage unspecified rather than half-written.
- PbEncode.EncodeMessage: sizes do not wrap at 2^64.
- PbTheorems.MessageRoundTrip: encodings are shorter than 4 GiB, as the 32-bit length prefix of nested messages demands.
- PbUnknown.UnknownInsideIsNeutral: one unknown field at a time; several are taken out one after the other.
- PbDescriptor.FieldIter.Find: with an empty descriptor the code's loop finds the terminator for a key of field number 0 (bytes 1 to 7) and decodes it as a field; the model skips such a key.
- PbDecode.DecodeLoop: field number 0 on the wire with an empty descriptor, as for `Find`.
- PbDecode.DecodeNoinit: field number 0 on the wire with an empty descriptor, as for `Find`.
- PbDecode.Decode: field number 0 on the wire with an empty descriptor, as for `Find`.
- Compaction.CompactionState.OpenCompactionOutputFile: the insertion into pending_outputs_ is part of `Lifecycle`'s steps, not of this contract.
- Compaction.CompactionState.DoCompactionWork: flushing the immutable memtable inside the loop, and installing the results, are steps of `Lifecycle`.
- SnapshotReads.AllOrNone: a group whose insertion breaks off half-way is not among its steps, and its visibility state is separate from the life cycle's.
- nanopb extensions, callbacks, pointer fields and malloc, fixed-count arrays, builds without 64-bit integers, field number 0 in descriptors, and 32-bit varints of more than ten bytes.
- FindShortestSeparator and FindShortSuccessor of the internal key comparator, and filter policies: index and filter blocks are not modelled.
- Internal keys of fewer than eight bytes: an entry has a user key and a tag, and unparseable ones are those with an unknown type.
- Statistics, read sampling, properties, the C bindings, dumping, repair, file locking, compression and info logs: no deep property, or input and output.
- The application's own screens and its calls to remote services: what they keep is simple set membership.
