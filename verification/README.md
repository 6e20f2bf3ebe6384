# LevelDB and nanopb, modelled in Dafny

This project models the two components of the iOS application's vendored
dependencies that hold real algorithms, and proves properties of the models:
the LevelDB storage engine (`iosApp/Pods/leveldb-library`) and the nanopb
protobuf codec (`iosApp/Pods/nanopb`). `dafny verify dfyconfig.toml` checks all
of it.

Objects whose methods update their fields are classes with those fields, and
each method is proved against a specification on values; what the source
promises is then proved of the specification.

## The storage engine

**The store as a state machine.** `Keys` (internal keys, runs of entries, the
newest visible entry), `Versions` (files per level, `Version::Get`),
`VersionBuilder` (folding of edits), `Recovery` (of the MANIFEST),
`InputSelection` and `CompactionInputs` (which files a flush or a compaction
takes), `Compaction` (the drop loop), `CompactionStep` (installing the
outputs), `CompactionTheorem` (what a compaction keeps), `Lsm` and
`LsmTheorem` (every step and every run), `DbImpl` (the object with the methods
that take those steps), `SnapshotList`, `Resurrection` (a counterexample).
`LongCompaction` takes a compaction apart: it begins, takes file numbers and is
installed, and writes, switches, flushes and snapshots come in between;
`FlushOverlap` is a counterexample to it. `DbScan` puts the iterators on top: a
scan reads what the history holds. `Replay` says what that means to a client: the
store is a map, and reads and scans find what the operations that succeeded make
of an empty one.

The main result, `LsmTheorem.RunKeepsInv`: in every state of every run of
writes, failed writes, memtable switches, flushes, compactions, trivial moves
and snapshots, the levels are sorted, disjoint and ordered by age, and each live
read answers what the history of all writes answers. `Replay.ReadsAreReplayed`
says it without the history: a read at a number answers what the operations
numbered up to it make of an empty map, a put setting its key and a deletion
removing it. `Client.ReadsAreContained` and `Client.ScansAreContained` say it of
byte strings and of runs with many writers at once.

The compactions of that run must not meet one hazard. `SetupOtherInputs` adds
boundary files to the inputs of the first level only. If a user key ends one
file of the next level and begins the file after it, and only the first of them
is compacted, a deletion in it may be dropped as obsolete while an older value
stays in the second. `CompactionTheorem.ReadsKeptExactly` states when a
compaction keeps a read: if and only if that does not happen; and by
`LsmTheorem.CompactKeepsInv` a compaction keeps the invariant of the store if
and only if no live read meets it.
`Resurrection.DeletedKeyComesBack` gives a version with all invariants, and
inputs the code selects, where it happens.

A memtable may be flushed while a compaction is under way. By
`LongCompaction.InstallKeepsInv`, installing the compaction then keeps the
invariant if and only if no live read meets the hazard and no output meets a
file that was flushed into its level meanwhile. Inputs without a gap meet the
second condition by themselves (`LongCompaction.LinkedInputsAreApart`), and
`PickCompaction` never leaves a gap (`CompactionInputs.PickCompaction`).
`CompactRange` may, and then two files of a level come to overlap:
`FlushOverlap.GapIsFilled`.

**Iterators.** `Cursor` (a run and a position), `Merger` (merging with changes
of direction), `DbIter` (the live user keys of a merging iterator), `TwoLevel`
(index over blocks).

**Formats.** `Coding`, `Comparator`, `Crc32c`, `Log`, `LogReader`,
`LogTheorem`, `WriteBatch`, `VersionEdit`, `Block`, `BlockReader`, `Bits`,
`Bloom`, `Concat`, `FilterBlock`, `TableFormat`, `TableOrder`, `TableBuilder`,
`Table`. Each printer is proved against a function from values to bytes, each
parser against a function from bytes to values, and the two functions against
each other. `CrcPolynomial` proves that the checksum is the remainder of section
12.1 of RFC 3720, `LogDamage` that damage to a log is local and that nothing of a
log is lost without being reported, `CutOff` that batches and edits that were cut
off are refused. `Formats` fixes constants and layouts byte by byte.

**Memory.** `MemTable`, `SkipList` (with every single pointer store),
`SkipReader` (searches with stores between their loads), `HandleTable`, `Rings`
(circular lists), `LruSpec`, `LruCache`.

**Writers.** `WriteQueue` (one group), `GroupCommit` (all runs of the queue),
`GroupStore` (the queue refines the store machine), `Engine` (the queue with its
groups half inserted, and all background work, interleaved), `Client` (what its
clients see).

## The protobuf codec

`Pb` (numbers on the wire), `PbVarint` (exactly which 32 bit varints are read,
and as what), `PbIter` (the circular field iterator, the bits of
required fields), `PbMessage` (what a message is, its encoding, its decoding,
the round trip), `PbEncode` and `PbDecode` (the streams and loops of the
source), `PbTheorem` (both together), `PbWire` (what any encoder may send: the
wire types, fields in any order and number, arrays and submessages in parts, and
fields that the descriptors do not have).

## Main results

- What a client sees: `Client.ReadsAreContained`, `Client.ScansAreContained`,
  `Replay.ReadsAreReplayed`, `Replay.WriteIsRead`.
- Reads: `Versions.Get`, `DbImpl.DBImpl.Get`, `LsmTheorem.RunKeepsInv`. Scans:
  `DbScan.Scan`, `DbScan.ScanIsReplayed`.
- Compaction: `Compaction.KeptExactly`, `CompactionTheorem.StepKeepsInv`,
  `CompactionTheorem.ReadsKeptExactly`,
  `LongCompaction.InstallKeepsInv`, `LongCompaction.RunKeepsInv`.
- The whole engine: `Engine.EngineRefinesStore`, `Engine.EngineReadsHistory`,
  `Engine.ScansAreFixed`.
- Cursors: the methods of `DbIter.DBIter`, `Merger.MergingIterator` and
  `TwoLevel.TwoLevelIterator`, from any state.
- The log: `LogTheorem.CutLogReads`, `LogDamage.DamageIsLocal`,
  `LogDamage.AllAccounted`. The checksum: `Crc32c.Extend`,
  `CrcPolynomial.CrcIsRemainder`.
- Blocks and tables: `BlockReader.BuildAndScan`, `TwoLevel.BuildAndScanTable`,
  `TwoLevel.BuildAndLookUp`.
- The MANIFEST: `Recovery.RecoverMatchesExactly`, `VersionEdit.EditRoundTrip`.
- Input selection: `InputSelection.GetOverlappingInputs`,
  `CompactionInputs.AddBoundaryInputs`.
- The skip list: `SkipList.SkipList.Insert`, `SkipList.SkipList.Publish`,
  `SkipReader.SearchIsLinear`.
- The cache: `LruSpec.RunIsOk`, `LruSpec.LeastRecentlyUsedGoes`, with the methods
  of `LruCache.LRUCache` and `HandleTable.HandleTable`.
- Grouped writes: `GroupCommit.FirstComeFirstServed`, `GroupCommit.NumbersInOrder`,
  `GroupCommit.AllOrNothing`, `GroupCommit.SyncedIsOnDisk`,
  `GroupCommit.NothingAfterFailedSync`, `WriteQueue.GroupIsExactly`,
  `GroupStore.GroupsRefineStore`, `GroupStore.ReadsAnswerHistory`.
- nanopb: `PbMessage.MsgRoundTripExactly`, `PbTheorem.EncodeAndDecode`,
  `PbWire.ResultRead`, `PbWire.ForwardCompatible`, `PbWire.ValueIsSized`,
  `PbVarint.ReadsExactly`,
  `PbEncode.EncodeSubmessage`, `PbIter.FieldIter.Find`, `PbDecode.BitsAnswer`.

## Where the code differs from what one would expect

- Decoding an edit into an object that was used before keeps its compaction
  pointers, because `Clear` does not clear them: `VersionEdit.EditRoundTrip`.
- A file number that is deleted and then names another file of the level makes
  recovery differ from what was installed: `Recovery.ReusedNumberDiffers`, and
  `Recovery.RecoverMatchesExactly` for all lists of edits.
- `pb_field_iter_find` succeeds for tag 0 in a message type without fields,
  where it finds the terminator: `PbIter.FieldIter.Find`.
- A string as long as its buffer is encoded but not decoded:
  `PbTheorem.FullStringIsLost`.
- An implicit field that holds zero comes back as its default, so one whose
  descriptor has a non-zero default loses the value 0: `PbTheorem.ImplicitRoundTrip`,
  and `PbMessage.MsgRoundTripExactly` for whole messages.
- `pb_decode_varint32` refuses neither all varints that are too long nor all that are
  too large. The bit position wraps in eight bits, so from the 38th byte on some
  bytes are or-ed into low places again; and the bits of a fifth byte that do not
  fit are an overflow only if it is the last byte. `PbVarint.ReadsExactly` states
  for all bytes what is refused and what is read. What is read is the number
  modulo 2^32 if and only if the late bits that are or-ed into it were set
  already, and always at up to 37 bytes (`PbVarint.ReadsRight`).
  `PbVarint.LateBitsAreRead` and `PbVarint.HighBitsAreLost` are inputs that are
  read wrong: one of 38 bytes, and one of six.
- The reader of a log takes a physical record of type 5, if its checksum is right,
  for the end of the file, and drops the payload of one of type 6 without a report,
  because its codes for the end and for a bad record are those numbers:
  `LogDamage.NothingAfterType5`, and the exceptions in `LogDamage.DamageIsLocal`
  and `LogDamage.Content`. The writer writes neither.
- A memtable flushed during a manual compaction may go into a gap between the
  compaction's inputs, and an output then spans it: the level has files that
  overlap, which `MaybeAddFile` asserts against, and a lookup misses the flushed
  key. `FlushOverlap.GapIsFilled` and `FlushOverlap.FlushedKeyIsMissed`; the exact
  condition is in `LongCompaction.InstallKeepsInv`.

## Assumptions

- In the store model and the iterators over it, a user key is its place in the
  comparator's order, a real number; `Comparator.PlaceKeepsOrder` embeds byte
  strings into it. Modules for formats work on bytes.
- The sequence numbers of live reads stay below the greatest one, as the code
  assumes.
- The CRC tables are the functions they tabulate.
- `uint_fast8_t` has eight bits.
- A file is a sequence of bytes; writing and reading it do not fail, except
  where a parameter says so.

## Model

| member | source | states |
|---|---|---|
| Keys.OrderIsTotal | iosApp/Pods/leveldb-library/db/dbformat.cc:47-63 | The internal key order (user key up, packed sequence number and type down) is total: of two keys one comes first, or they are the same key |
| Keys.SeekFindsNewest | iosApp/Pods/leveldb-library/db/dbformat.cc:117-134 | In a sorted run, the first entry at or after the seek key `(u, s)` is the newest entry of `u` that `s` can see when it has the user key `u`; otherwise none is visible |
| Keys.NewestIsUnique | iosApp/Pods/leveldb-library/db/dbformat.cc:47-63 | With distinct internal keys, at most one entry is the newest visible one |
| Keys.NewestOfUnion | iosApp/Pods/leveldb-library/db/db_impl.cc:1135-1144 | Reading a newer part first and falling back to an older one reads their union |
| Versions.FindFile | iosApp/Pods/leveldb-library/db/version_set.cc:87-105 | The binary search finds the exact split: every file before the index ends before the key, and none from it on does |
| Versions.NewestFirstSorts | iosApp/Pods/leveldb-library/db/version_set.cc:277-279 | Sorting level-0 candidates newest first gives a permutation in descending file number |
| Versions.GetFromLevel0 | iosApp/Pods/leveldb-library/db/version_set.cc:281-303 | Level 0, searched newest file first and stopped at the first hit, answers the newest visible entry of all its files |
| Versions.GetFromLevel | iosApp/Pods/leveldb-library/db/version_set.cc:305-321 | At most one binary-searched file per deeper level answers the newest visible entry of the whole level |
| Versions.NewestAtLevel | iosApp/Pods/leveldb-library/db/version_set.cc:304-321 | When no shallower level sees the user key, the newest entry of a level is the newest of the whole version |
| Versions.Get | iosApp/Pods/leveldb-library/db/version_set.cc:324-400 | Under the level invariants, stopping at the first hit or tombstone returns exactly the newest visible entry over all entries of all files |
| VersionBuilder.Builder.Apply | iosApp/Pods/leveldb-library/db/version_set.cc:629-668 | Per level, an edit adds its deletions and takes a re-added number out of the deleted set |
| VersionBuilder.Builder.SaveTo | iosApp/Pods/leveldb-library/db/version_set.cc:671-715 | Each level of the new version is the specified merge of its base files and its added files |
| VersionBuilder.SaveLevel | iosApp/Pods/leveldb-library/db/version_set.cc:671-715 | The merge loop over base files and added files computes that level |
| VersionBuilder.SavedLevelHolds | iosApp/Pods/leveldb-library/db/version_set.cc:717-730 | A file is in a saved level exactly if it was in the base or added, and its number is not deleted |
| VersionBuilder.RestIsSorted | iosApp/Pods/leveldb-library/db/version_set.cc:671-715 | The merge is ordered by smallest key, then by number |
| Recovery.RecoverMatchesExactly | iosApp/Pods/leveldb-library/db/version_set.cc:900-976 | Folding all edits into one builder, as recovery does, gives the same levels as installing a version after each edit if and only if, for every number added to a level and not deleted in the end, the base has no file of it, all files added under it begin with the same key, and the first added is the last added |
| Recovery.RecoverMatchesRunning | iosApp/Pods/leveldb-library/db/version_set.cc:900-976 | So it does when no file number is added to a level twice |
| Recovery.FoldHolds | iosApp/Pods/leveldb-library/db/version_set.cc:629-668 | Of the files the builder is given it keeps, among those with the same number and smallest key, the first |
| Recovery.RunningHolds | iosApp/Pods/leveldb-library/db/version_set.cc:671-730 | Of the numbers not deleted, the running database holds the last file added under each, and the base files of the others |
| Recovery.ReusedNumberDiffers | iosApp/Pods/leveldb-library/db/version_set.cc:629-668 | Adding a file, deleting its number and adding a file under it again: recovery agrees with what was installed if and only if it is the same file |
| InputSelection.SomeFileOverlapsRange | iosApp/Pods/leveldb-library/db/version_set.cc:121-156 | True exactly if some file meets the user-key range, for the binary search and for the linear scan, with either end open |
| InputSelection.PickLevelForMemTableOutput | iosApp/Pods/leveldb-library/db/version_set.cc:470-495 | The level found meets the range neither at itself nor above; for each level passed, little of the level two below meets it; and what stopped the search is named |
| InputSelection.GetOverlappingInputs | iosApp/Pods/leveldb-library/db/version_set.cc:498-538 | Exactly the files meeting the range, in order; at level 0 the files meeting the least range that covers it and is closed under overlap, despite the restarts |
| InputSelection.Widening | iosApp/Pods/leveldb-library/db/version_set.cc:520-536 | Each restart of the scan stays below every closed range and makes progress, so the scan ends |
| InputSelection.GetRange | iosApp/Pods/leveldb-library/db/version_set.cc:1182-1201 | The smallest and largest internal key of the inputs |
| CompactionInputs.FindSmallestBoundaryFile | iosApp/Pods/leveldb-library/db/version_set.cc:1321-1339 | The nearest file that starts with older entries of the user key the inputs end with, or none when there is none |
| CompactionInputs.AddBoundaryInputs | iosApp/Pods/leveldb-library/db/version_set.cc:1355-1378 | Terminates with no file of the level left that continues the largest user key; adds nothing else; keeps a contiguous run contiguous and an overlap-closed set as it is |
| CompactionInputs.RunGrows | iosApp/Pods/leveldb-library/db/version_set.cc:1355-1378 | In a disjoint level the nearest continuation of a run is the file next to it |
| CompactionInputs.ScanIsOverlapClosed | iosApp/Pods/leveldb-library/db/version_set.cc:1285-1294 | The level-0 scan leaves out no file that meets the range of those it found |
| CompactionInputs.MeetingIsRun | iosApp/Pods/leveldb-library/db/version_set.cc:498-538 | Past level 0 the files meeting a range are contiguous |
| CompactionInputs.SetupOtherInputs | iosApp/Pods/leveldb-library/db/version_set.cc:1380-1439 | The inputs are boundary-closed and take exactly the files of the next level that meet them; they are grown to all files of the level in the range of both, with their boundary files, exactly if those are more, stay within the size limit and meet no further file of the next level; files picked without a gap give inputs without a gap |
| CompactionInputs.PickCompaction | iosApp/Pods/leveldb-library/db/version_set.cc:1247-1299 | The file taken is the first past the compaction pointer, or the first of the level; at level 0 everything that overlaps it comes along; the inputs of both levels together have no gap |
| CompactionInputs.LeastHasNoGap | iosApp/Pods/leveldb-library/db/version_set.cc:498-541 | The range the restarts of a level-0 scan end with is covered by the range they began with and the files found: no place in it is left out |
| CompactionInputs.ExpansionIsLinked | iosApp/Pods/leveldb-library/db/version_set.cc:1394-1411 | What the first level is grown to has no gap together with the files of the next level |
| CompactionInputs.CompactRange | iosApp/Pods/leveldb-library/db/version_set.cc:1441-1472 | Nothing exactly if no file meets the range; at level 0 all files meeting it, deeper the first of them up to the size limit |
| Compaction.Compaction.IsBaseLevelForKey | iosApp/Pods/leveldb-library/db/version_set.cc:1510-1529 | The forward-only cursors agree with a full scan of all levels from `level + 2`, as long as user keys do not decrease |
| Compaction.Compaction.ShouldDrop | iosApp/Pods/leveldb-library/db/db_impl.cc:940-973 | The decision equals rule (A), hidden by a newer entry at or below the smallest snapshot, or rule (B), an obsolete deletion; what the rules come to is `KeptExactly` |
| Compaction.Compaction.DoCompactionWork | iosApp/Pods/leveldb-library/db/db_impl.cc:899-1009 | The outputs hold exactly the kept entries in order, each file bounded by its first and last entry, wherever files are cut; an input entry is in them if and only if no newer input entry of its user key is at or below the smallest snapshot, and it is not a deletion at or below the smallest snapshot whose user key no file from level + 2 on has in its range |
| Compaction.KeptExactly | iosApp/Pods/leveldb-library/db/db_impl.cc:940-973 | For every input entry: it is kept if and only if no newer one of its user key is at or below the smallest snapshot, and, if it is a deletion, it is above the smallest snapshot or a file from level + 2 on has its user key in its range |
| Compaction.KeptByReads | iosApp/Pods/leveldb-library/db/db_impl.cc:949-970 | The same by reads, when no two input entries share a number (as in every run, `Replay.RunWritesOnce`): an input entry is written if and only if some reader from the smallest snapshot on finds it among the inputs, and it is not a deletion that all of them see while no file deeper down can hold its user key |
| Compaction.DropLoopKeepsReads | iosApp/Pods/leveldb-library/db/db_impl.cc:956-970 | For every user key and every snapshot from the smallest on, the newest input entry is kept, or is an obsolete deletion and then nothing of its user key is visible |
| Compaction.KeptIsSorted | iosApp/Pods/leveldb-library/db/db_impl.cc:984-1004 | Dropping entries keeps the order |
| Compaction.CutIsDisjoint | iosApp/Pods/leveldb-library/db/db_impl.cc:820-867 | Files cut from one sorted run are well formed and pairwise disjoint |
| CompactionStep.EditReplaces | iosApp/Pods/leveldb-library/db/version_set.cc:1502-1508 | Deleting the inputs and adding the outputs in one edit replaces exactly those files, at exactly those two levels |
| CompactionStep.InstallCompactionResults | iosApp/Pods/leveldb-library/db/db_impl.cc:869-885 | The installed version has the outputs for the inputs, and every other file unchanged |
| CompactionStep.LogAndApply | iosApp/Pods/leveldb-library/db/version_set.cc:777-860 | Running the builder over the current version computes the edited version |
| CompactionTheorem.LeftOutIsBeside | iosApp/Pods/leveldb-library/db/version_set.cc:1380-1439 | A file of the next level that was left out lies entirely before or after every input entry |
| CompactionTheorem.RestNewerThanInputs | iosApp/Pods/leveldb-library/db/version_set.cc:1355-1378 | What stays at the input level is newer than the input entries of the same user key; boundary files make this hold past level 0 |
| CompactionTheorem.StepKeepsInv | iosApp/Pods/leveldb-library/db/db_impl.cc:869-885 | Installing a compaction keeps every level sorted, disjoint, uniquely numbered and newer than what is deeper |
| CompactionTheorem.PartsByAge | iosApp/Pods/leveldb-library/db/version_set.cc:1380-1439 | For each user key, what is above the inputs is newer than the rest, and what is below the next level is older |
| CompactionTheorem.ReadsKeptExactly | iosApp/Pods/leveldb-library/db/db_impl.cc:899-1009 | For every user key and every snapshot from the smallest on: a compaction keeps the answer if and only if it does not drop a deletion that hides an older value in a left-out file of the next level |
| CompactionTheorem.ReadsKeptWhenClosed | iosApp/Pods/leveldb-library/db/db_impl.cc:899-1009 | With inputs closed over the older entries of their user keys at the next level, every such read is kept |
| Resurrection.DeletedKeyComesBack | iosApp/Pods/leveldb-library/db/version_set.cc:1384-1399 | A concrete version with all invariants and a compaction with the inputs the code selects, after which a read of a deleted key gets another answer |
| Resurrection.HazardMet | iosApp/Pods/leveldb-library/db/version_set.cc:1384-1399 | That compaction meets the condition of ReadsKeptExactly |
| LongCompaction.BeginKeepsInv | iosApp/Pods/leveldb-library/db/db_impl.cc:887-906 | A compaction begins with inputs and smallest snapshot that fit the version and the live reads there are |
| LongCompaction.OtherKeepsInv | iosApp/Pods/leveldb-library/db/db_impl.cc:917-929 | Writes, switches, flushes and snapshots while a compaction is under way keep the store invariant and all that the compaction relies on: its inputs are still there, what was flushed is newer than all it works on and met nothing on its way, its file numbers stay its own, and no live read is below its snapshot |
| LongCompaction.InstallKeepsLevels | iosApp/Pods/leveldb-library/db/db_impl.cc:868-885 | Installing the outputs into the version there is by then keeps the level invariants if and only if no output meets a file that was flushed into the level of the outputs meanwhile |
| LongCompaction.InstallKeepsReads | iosApp/Pods/leveldb-library/db/db_impl.cc:868-885 | It keeps the agreement of live reads with the history if and only if no live read that memtables and flushed files leave open meets the hazard in the version the compaction was begun with |
| LongCompaction.InstallKeepsInv | iosApp/Pods/leveldb-library/db/db_impl.cc:868-885 | It keeps the store invariant if and only if both hold |
| LongCompaction.LinkedInputsAreApart | iosApp/Pods/leveldb-library/db/version_set.cc:470-495 | When the inputs have no gap, no output meets a flushed file, because a flush only goes where it meets no input |
| LongCompaction.LinkedInstallKeepsInv | iosApp/Pods/leveldb-library/db/db_impl.cc:868-885 | So a compaction with inputs without a gap, as PickCompaction's are, keeps the store invariant if and only if no live read meets the hazard, whatever was flushed meanwhile |
| LongCompaction.RunKeepsInv | iosApp/Pods/leveldb-library/db/db_impl.cc:887-1046 | In every state of every run, with compactions under way or not, the store has its invariant |
| FlushOverlap.GapIsFilled | iosApp/Pods/leveldb-library/db/db_impl.cc:917-929 | A run from a store with all invariants: a manual compaction of two files, a switch, a flush to the level the flush picks, an output, and an installation after which two files of a level overlap |
| FlushOverlap.FlushedKeyIsMissed | iosApp/Pods/leveldb-library/db/version_set.cc:304-321 | After it, the one file of that level a lookup of the flushed key goes to has nothing of its user key, while the version holds it |
| Keys.RunGetIsNewest | iosApp/Pods/leveldb-library/db/memtable.cc:101-135 | A memtable or table lookup answers the newest visible entry of its run |
| LsmTheorem.WriteKeepsInv | iosApp/Pods/leveldb-library/db/db_impl.cc:1195-1266 | A write of any batch keeps the store invariant: layers by age, levels, numbers, and every live read agreeing with the history |
| LsmTheorem.FailedKeepsInv | iosApp/Pods/leveldb-library/db/db_impl.cc:1217-1246 | A write that fails uses up its sequence numbers, and a read at the number then published still agrees with the history |
| LsmTheorem.FlushKeepsInv | iosApp/Pods/leveldb-library/db/db_impl.cc:544-575 | A flush, at whatever level it lands, keeps the store invariant |
| LsmTheorem.CompactKeepsInv | iosApp/Pods/leveldb-library/db/db_impl.cc:887-1046 | A compaction keeps the store invariant if and only if no live read meets the hazard of ReadsKeptExactly |
| LsmTheorem.MoveKeepsInv | iosApp/Pods/leveldb-library/db/db_impl.cc:727-742 | A trivial move keeps the store invariant and every entry |
| LsmTheorem.NextKeepsInv | iosApp/Pods/leveldb-library/db/db_impl.cc:697-776 | Every step of the store keeps the store invariant |
| LsmTheorem.RunKeepsInv | iosApp/Pods/leveldb-library/db/db_impl.cc:1110-1155 | In every state of every run, each live read answers what the history of all writes answers at its sequence number |
| LsmTheorem.SnapshotIsFixed | iosApp/Pods/leveldb-library/db/db_impl.cc:1176-1184 | What a sequence number can see of the history never changes in any later state of the run |
| Replay.WriteIsRead | iosApp/Pods/leveldb-library/db/write_batch.cc:115-127 | After a write a read at the last number finds, for every user key, the value that the last operation on it put, nothing if that deleted it, and what it found before if there is none |
| Replay.FailedIsNotRead | iosApp/Pods/leveldb-library/db/db_impl.cc:1224-1247 | After a write that failed a read finds what it found before |
| Replay.HistoryIsReplayed | iosApp/Pods/leveldb-library/include/leveldb/db.h:60-88 | In every state of every run the history answers, at every number, what the operations that succeeded up to that number make of an empty map |
| Replay.ReadsAreReplayed | iosApp/Pods/leveldb-library/include/leveldb/db.h:60-88 | In every state of every run a live read at a number answers the fold of all operations that succeeded up to that number into a map from user key to value |
| Replay.RunWritesOnce | iosApp/Pods/leveldb-library/db/db_impl.cc:1216-1217 | In every state of every run no two entries stored share a sequence number |
| DbImpl.DBImpl.Get | iosApp/Pods/leveldb-library/db/db_impl.cc:1110-1155 | Memtable, then immutable memtable, then version: the value returned is the answer of the whole write history at that snapshot, and the value the store is said to hold in the laws of `Replay` |
| DbImpl.DBImpl.Write | iosApp/Pods/leveldb-library/db/db_impl.cc:1214-1247 | The state takes exactly the write step: consecutive numbers in batch order, and all updates in the memtable; a read at the new last number then finds, for every user key, the value that the last operation on it put, nothing if that deleted it, and what it found before if there is none; when the log failed, the numbers are used up and reads find what they found before |
| DbImpl.DBImpl.SwitchMemTable | iosApp/Pods/leveldb-library/db/db_impl.cc:1356-1376 | The state takes exactly the switch step |
| DbImpl.DBImpl.WriteLevel0Table | iosApp/Pods/leveldb-library/db/db_impl.cc:500-542 | The flushed file holds the memtable and joins a level where nothing above or beside meets it |
| DbImpl.DBImpl.CompactMemTable | iosApp/Pods/leveldb-library/db/db_impl.cc:544-575 | The state takes exactly a flush step |
| DbImpl.DBImpl.GetSnapshot | iosApp/Pods/leveldb-library/db/db_impl.cc:1176-1179 | The snapshot handed out is the last sequence number, and it is live; nothing else changes |
| DbImpl.DBImpl.ReleaseSnapshot | iosApp/Pods/leveldb-library/db/db_impl.cc:1181-1184 | One snapshot is given up and nothing else changes |
| DbImpl.DBImpl.SmallestSnapshot | iosApp/Pods/leveldb-library/db/db_impl.cc:899-903 | The head of the snapshot list is the oldest live snapshot; without snapshots it is the last sequence number; it is the least number a client can read at |
| DbImpl.DBImpl.IsTrivialMove | iosApp/Pods/leveldb-library/db/version_set.cc:1492-1500 | True exactly for one input file, none of the next level, and little of the level after that |
| DbImpl.DBImpl.Move | iosApp/Pods/leveldb-library/db/db_impl.cc:727-742 | The file changes level and the state takes exactly a move step |
| DbImpl.DBImpl.Compact | iosApp/Pods/leveldb-library/db/db_impl.cc:743-752 | Merging, dropping, cutting and installing together take exactly a compaction step, and keep the invariant if and only if the hazard is not met |
| DbImpl.DBImpl.BackgroundCompaction | iosApp/Pods/leveldb-library/db/db_impl.cc:697-776 | A flush when there is one to do, else a move (never for a manual range) or a compaction; nothing exactly if there is nothing to do |
| SnapshotList.SnapshotList.New | iosApp/Pods/leveldb-library/db/snapshot.h:57-70 | The new snapshot is linked in before the head of the ring, and the sequence numbers stay in order |
| SnapshotList.SnapshotList.Delete | iosApp/Pods/leveldb-library/db/snapshot.h:79-86 | The ring stays closed and loses exactly that snapshot |
| SnapshotList.SnapshotList.Oldest | iosApp/Pods/leveldb-library/db/snapshot.h:47-50 | The first of the ring is the smallest sequence number held |
| Merger.SeekCuts | iosApp/Pods/leveldb-library/table/merger.cc:47-53 | Seeking every child finds the cut of its run at the place where a seek in the merged run stops |
| Merger.LeastAtCuts | iosApp/Pods/leveldb-library/table/merger.cc:148-161 | With all children at their cuts, the smallest current entry is the next of the merged run |
| Merger.GreatestBeforeCuts | iosApp/Pods/leveldb-library/table/merger.cc:163-176 | One step before the cuts, the largest current entry is the previous of the merged run |
| Merger.MergingIterator.FindSmallest | iosApp/Pods/leveldb-library/table/merger.cc:148-161 | The current child is the one that holds the merged entry at the position, or none at the end |
| Merger.MergingIterator.FindLargest | iosApp/Pods/leveldb-library/table/merger.cc:163-176 | The same one entry back, or none at the beginning |
| Merger.MergingIterator.PositionAfter | iosApp/Pods/leveldb-library/table/merger.cc:63-75 | A turn to forward puts every other child strictly past the current key |
| Merger.MergingIterator.PositionBefore | iosApp/Pods/leveldb-library/table/merger.cc:89-104 | A turn to reverse puts every other child strictly before the current key |
| Merger.MergingIterator.Seek | iosApp/Pods/leveldb-library/table/merger.cc:47-53 | A seek lands at the first merged entry from the target on |
| Merger.MergingIterator.SeekToFirst | iosApp/Pods/leveldb-library/table/merger.cc:31-37 | The position is the first merged entry |
| Merger.MergingIterator.SeekToLast | iosApp/Pods/leveldb-library/table/merger.cc:39-45 | The position is the last merged entry |
| Merger.MergingIterator.Next | iosApp/Pods/leveldb-library/table/merger.cc:55-79 | From any state, whatever calls led to it, the position in the sorted merge goes up by one |
| Merger.MergingIterator.Prev | iosApp/Pods/leveldb-library/table/merger.cc:81-108 | From any state, whatever calls led to it, the position in the sorted merge goes down by one |
| DbIter.LiveIsNewest | iosApp/Pods/leveldb-library/db/db_iter.cc:177-207 | The live entries are exactly the values that are the newest visible entries of their user keys |
| DbIter.LiveUsersIncrease | iosApp/Pods/leveldb-library/db/db_iter.cc:34-39 | Live entries have strictly increasing user keys |
| DbIter.LaterInsertsUnseen | iosApp/Pods/leveldb-library/db/db_iter.cc:177-207 | Entries that come into the merged run later, with numbers above the iterator's, leave the live entries and their order as they are |
| DbIter.DBIter.FindNextUserEntry | iosApp/Pods/leveldb-library/db/db_iter.cc:177-207 | The scan stops at the first live entry from a place on, or finds that there is none |
| DbIter.DBIter.FindPrevUserEntry | iosApp/Pods/leveldb-library/db/db_iter.cc:236-276 | The backward scan stops before the last live entry below a place, with its key and value saved, or finds that there is none |
| DbIter.DBIter.Current | iosApp/Pods/leveldb-library/db/db_iter.cc:64-71 | Key and value are those of the live entry at the position, in both directions |
| DbIter.DBIter.Seek | iosApp/Pods/leveldb-library/db/db_iter.cc:278-290 | The position is the first live entry whose user key is at or after the target |
| DbIter.DBIter.SeekToFirst | iosApp/Pods/leveldb-library/db/db_iter.cc:292-301 | The position is the first live entry |
| DbIter.DBIter.SeekToLast | iosApp/Pods/leveldb-library/db/db_iter.cc:303-308 | The position is the last live entry |
| DbIter.DBIter.Next | iosApp/Pods/leveldb-library/db/db_iter.cc:141-175 | From any state, also right after going backward, the position among the live entries goes up by one |
| DbIter.DBIter.Prev | iosApp/Pods/leveldb-library/db/db_iter.cc:209-234 | From any state, also right after going forward, the position among the live entries goes down by one |
| DbScan.AddIterators | iosApp/Pods/leveldb-library/db/version_set.cc:229-245 | One cursor for each file of level 0 and one for each deeper level that has files: sorted runs that share no key and hold exactly the entries of the version |
| DbScan.LevelRunIsSorted | iosApp/Pods/leveldb-library/db/version_set.cc:237-244 | The files of a deeper level, read one after the other, are one sorted run |
| DbScan.NewInternalIterator | iosApp/Pods/leveldb-library/db/db_impl.cc:1072-1097 | The merging iterator walks exactly the entries of memtable, immutable memtable and version |
| DbScan.LiveIsHistory | iosApp/Pods/leveldb-library/db/db_iter.cc:177-207 | The live entries among all that the store holds are, user key by user key and in order, what the history of writes answers at a live sequence number |
| DbScan.NewIterator | iosApp/Pods/leveldb-library/db/db_impl.cc:1157-1167 | The iterator handed to a client walks the user keys the history holds at the snapshot, or at the last sequence number |
| DbScan.Scan | iosApp/Pods/leveldb-library/db/db_impl.cc:1157-1167 | A scan of the store yields, in strictly increasing order, exactly the pairs of user key and value that the history answers |
| DbScan.ScanIsReplayed | iosApp/Pods/leveldb-library/db/db_impl.cc:1157-1167 | In every state of every run a scan at a live number yields exactly the pairs of the map that the operations that succeeded up to that number make |
| Coding.FixedRoundTrip | iosApp/Pods/leveldb-library/util/coding.h:54-103 | Fixed 32 and 64 bit words decode to what was encoded |
| Coding.FixedOfLittle | iosApp/Pods/leveldb-library/util/coding.h:54-103 | Encoding what bytes decode to gives the bytes back |
| Coding.FixedDigit | iosApp/Pods/leveldb-library/util/coding.h:54-103 | Byte i of a fixed word is its digit i in base 256: the lowest comes first |
| Coding.EncodeVarint32 | iosApp/Pods/leveldb-library/util/coding.cc:21-47 | The five hand-written cases write the base-128 varint |
| Coding.EncodeVarint64 | iosApp/Pods/leveldb-library/util/coding.cc:55-64 | The loop writes the base-128 varint |
| Coding.GetVarint | iosApp/Pods/leveldb-library/util/coding.cc:86-131 | The shift-and-or loop, cut to the word, computes what the recursive parse of at most so many bytes computes, and fails exactly when it fails |
| Coding.Varint32RoundTrip | iosApp/Pods/leveldb-library/util/coding.cc:104-114 | A 32 bit varint before any bytes is read back, and leaves those bytes |
| Coding.Varint64RoundTrip | iosApp/Pods/leveldb-library/util/coding.cc:133-143 | A 64 bit varint before any bytes is read back, and leaves those bytes |
| Coding.VarintDigit | iosApp/Pods/leveldb-library/util/coding.cc:55-64 | Byte i of a varint is its digit i in base 128; the top bit is set on all but the last; and there are no more bytes than the number needs |
| Coding.LengthPrefixedRoundTrip | iosApp/Pods/leveldb-library/util/coding.cc:72-75 | A length-prefixed slice before any bytes is read back, and leaves those bytes |
| Coding.GetLengthPrefixedSlice | iosApp/Pods/leveldb-library/util/coding.cc:155-164 | Reads the slice, or fails exactly when the length is malformed or longer than the input |
| Crc32c.ByteShiftIsShift | iosApp/Pods/leveldb-library/util/crc32c.cc:20-64 | Eight steps of the register are linear, move high bytes down and keep 32 bits: what the fast forms below need; that it is the register of CRC32C is `CrcPolynomial.CrcIsRemainder` |
| Crc32c.TableStep | iosApp/Pods/leveldb-library/util/crc32c.cc:286-291 | One table step on the low byte is the register stepped over that byte |
| Crc32c.Step4Is | iosApp/Pods/leveldb-library/util/crc32c.cc:293-300 | Four table lookups, one per byte lane, advance the register over sixteen zero bytes |
| Crc32c.SwathStep | iosApp/Pods/leveldb-library/util/crc32c.cc:302-310 | One round over the four interleaved registers advances the register they stand for over sixteen bytes |
| Crc32c.WordStep | iosApp/Pods/leveldb-library/util/crc32c.cc:349-358 | One word taken by the first register, which then goes last, advances the register they stand for over four bytes |
| Crc32c.Interleaved | iosApp/Pods/leveldb-library/util/crc32c.cc:332-366 | Load, rounds and combination together compute the register over a prefix of at least sixteen bytes |
| Crc32c.Extend | iosApp/Pods/leveldb-library/util/crc32c.cc:276-377 | For every length and every buffer alignment the result is the byte-at-a-time CRC; which is the one of section 12.1 of RFC 3720 by `CrcPolynomial.CrcIsRemainder` |
| Crc32c.CrcAppend | iosApp/Pods/leveldb-library/util/crc32c.h:14-17 | Extending over A and then over B is extending over A followed by B |
| CrcPolynomial.PolynomialIsReflected | iosApp/Pods/leveldb-library/util/crc32c.cc:42 | The constant of the register is the generator 0x1_1EDC_6F41 of RFC 3720 without its highest bit, reflected |
| CrcPolynomial.DivisionIsRight | iosApp/Pods/leveldb-library/util/crc32c.cc:286-291 | Long division over GF(2) gives a remainder of lower degree that is a multiple of the generator away from the dividend |
| CrcPolynomial.RemainderIsUnique | iosApp/Pods/leveldb-library/util/crc32c.cc:286-291 | There is only one such remainder |
| CrcPolynomial.RegisterIsDivision | iosApp/Pods/leveldb-library/util/crc32c.cc:286-291 | Shifting a message through the register is dividing what the register and the message, with 32 zeros behind it, make together |
| CrcPolynomial.CrcIsRemainder | iosApp/Pods/leveldb-library/util/crc32c.cc:276-377 | For every string: the CRC, with its bits reflected, is the complement of the remainder of the message times x^32, its first 32 bits complemented, divided by the generator: section 12.1 of RFC 3720 |
| Crc32c.UnmaskOfMask | iosApp/Pods/leveldb-library/util/crc32c.h:29-38 | Unmask undoes Mask on every word |
| Crc32c.MaskOfUnmask | iosApp/Pods/leveldb-library/util/crc32c.h:29-38 | Mask undoes Unmask on every word |
| Formats.MaskRotates | iosApp/Pods/leveldb-library/util/crc32c.h:22-32 | A masked checksum has the low 15 bits in front of the high 17, and 0xa282ead8 added modulo 2^32 |
| Formats.TableEntry128 | iosApp/Pods/leveldb-library/util/crc32c.cc:42 | Entry 128 of the table is 0x82f63b78 |
| Log.Writer.EmitPhysicalRecord | iosApp/Pods/leveldb-library/db/log_writer.cc:82-108 | Appends the seven-byte header with the masked checksum of type and payload, and the payload |
| Log.Writer.AddRecord | iosApp/Pods/leveldb-library/db/log_writer.cc:34-80 | Appends exactly the specified fragments of the record, with block trailers, from the current offset in the block |
| Log.EndIsStart | iosApp/Pods/leveldb-library/db/log_writer.cc:27-30 | Writing at the end of a block is writing at the start of the next, so that a reopened log goes on as before |
| LogReader.ChecksumDecides | iosApp/Pods/leveldb-library/db/log_reader.cc:243-257 | The stored checksum matches exactly if the header is the one the writer makes for that type and payload |
| LogReader.Reader.ReadPhysicalRecord | iosApp/Pods/leveldb-library/db/log_reader.cc:189-271 | Reads what stands at the position of the file, whatever is buffered, and reports exactly the bytes it drops |
| LogReader.Reader.ParseHeader | iosApp/Pods/leveldb-library/db/log_reader.cc:216-269 | Bad length, bad checksum and preallocated zeros are told apart as the code does |
| LogReader.Reader.ReadRecord | iosApp/Pods/leveldb-library/db/log_reader.cc:56-174 | The fragment loop computes the record, the place after it and the drops that the specification reads from that place |
| LogTheorem.ReadsRecord | iosApp/Pods/leveldb-library/db/log_reader.cc:91-150 | A record that agrees with the file as far as the file goes is read whole, or is cut off and then nothing is reported |
| LogTheorem.WholeIsExact | iosApp/Pods/leveldb-library/db/log_reader.cc:144-151 | The number of whole records is the exact count of those that end inside the prefix |
| LogTheorem.CutLogReads | iosApp/Pods/leveldb-library/db/log_reader.cc:56-174 | For any list of records and any byte truncation, the reader returns exactly the records wholly inside the prefix, and reports nothing |
| LogTheorem.LogRoundTrip | iosApp/Pods/leveldb-library/db/log_writer.cc:34-80 | For any list of records the reader returns exactly that list, and reports nothing |
| LogTheorem.ReopenedLog | iosApp/Pods/leveldb-library/db/log_writer.cc:27-30 | Records appended to a reopened log read as if written in one go |
| LogTheorem.WriteLog | iosApp/Pods/leveldb-library/db/log_writer.cc:34-80 | Adding records one by one with the writer writes the specified log |
| LogTheorem.ReadLog | iosApp/Pods/leveldb-library/db/log_reader.cc:56-174 | Reading to the end with the reader returns all records and drops of any file |
| LogTheorem.ReturnsFramed | iosApp/Pods/leveldb-library/db/log_reader.cc:91-142 | Whatever a file holds: a record that is returned is the payload of one full physical record, or of a first one, middle ones and a last one that lie one after the other, with nothing before it and nothing left out |
| LogTheorem.ReadWhateverBefore | iosApp/Pods/leveldb-library/db/log_reader.cc:91-121 | A record that was written whole is read as it is, whatever was read before it |
| LogDamage.DamageIsLocal | iosApp/Pods/leveldb-library/db/log_reader.cc:189-271 | A file that from a block boundary on holds what was written of a log is read back with every record that begins behind the boundary, whatever comes before it: bytes that have changed, a record that was cut off, or anything else; unless the reader meets a physical record of type 5 with the right checksum there, which it takes for the end of the file |
| LogDamage.ChangedLogReads | iosApp/Pods/leveldb-library/db/log_reader.cc:243-257 | So it is with a log that was changed anywhere before a block boundary |
| LogDamage.WrittenOnReads | iosApp/Pods/leveldb-library/db/log_reader.cc:91-121 | And with a log that is written on behind a record that was cut off, or behind anything: every record that begins in a later block is read back |
| LogDamage.NothingAfterType5 | iosApp/Pods/leveldb-library/db/log_reader.cc:144-151 | Behind a physical record of type 5 with the right checksum nothing is read |
| LogDamage.AllAccounted | iosApp/Pods/leveldb-library/db/log_reader.cc:91-171 | For every file: the bytes returned, the bytes reported as dropped and what was collected of a record that the end cuts off are together the payload of the physical records and the stretches found bad, so that none is lost in silence and none is counted twice; a record of type 5 ends the file, and the payload of one of type 6 does not count |
| Formats.ThreeRecords | iosApp/Pods/leveldb-library/db/log_format.h:14-30 | Records of 1000, 97270 and 8000 bytes in blocks of 32768: a full one; a first, a middle and a last fragment, six zeros; a full one in the fourth block, each behind its header of masked checksum, length and type |
| Comparator.Compare | iosApp/Pods/leveldb-library/util/comparator.cc:27-29 | The sign of the comparison is the lexicographic order of the bytes |
| Comparator.PlaceKeepsOrder | iosApp/Pods/leveldb-library/util/comparator.cc:27-29 | Byte strings embed into the reals, in order and one to one: the keys of the store model stand for byte strings |
| Comparator.FindShortestSeparator | iosApp/Pods/leveldb-library/util/comparator.cc:31-52 | At or after start, before limit, never longer; shortened exactly if a byte fits at the first difference, and then cut there |
| Comparator.FindShortSuccessor | iosApp/Pods/leveldb-library/util/comparator.cc:54-66 | At or after the key and never longer; cut at the first byte that is not 0xff, and unchanged exactly if there is none |
| Comparator.ExtractsParts | iosApp/Pods/leveldb-library/db/dbformat.cc:21-24 | User key and tag are read back from an encoded internal key |
| Comparator.EncodingKeepsOrder | iosApp/Pods/leveldb-library/db/dbformat.cc:47-63 | The order of encoded internal keys is the order of the parsed ones |
| Comparator.InternalShortestSeparator | iosApp/Pods/leveldb-library/db/dbformat.cc:65-82 | Not before start and before limit; a changed key is shorter, has the greatest tag and a user key before that of limit; changed exactly if that shortens it |
| Comparator.InternalShortSuccessor | iosApp/Pods/leveldb-library/db/dbformat.cc:84-97 | Not before the key; changed exactly if a shorter user key will do, and then with the greatest tag |
| Block.BlockBuilder.Add | iosApp/Pods/leveldb-library/table/block_builder.cc:71-105 | One more entry, with the restart and sharing rules kept for every restart interval |
| Block.BlockBuilder.Finish | iosApp/Pods/leveldb-library/table/block_builder.cc:61-69 | Entries, restart offsets and their count, laid out by the rules |
| Block.EstimateIsExact | iosApp/Pods/leveldb-library/table/block_builder.cc:55-59 | The size estimate of an open block is the length of the finished block |
| Formats.EntryBytes | iosApp/Pods/leveldb-library/table/block_builder.cc:16-21 | The bytes of an entry: shared, not shared, length of the value, the rest of the key, the value |
| Formats.BlockBytes | iosApp/Pods/leveldb-library/table/block_builder.cc:24-27 | The bytes of a block of three entries and two restart points |
| Block.LaidRestarts | iosApp/Pods/leveldb-library/table/block_builder.cc:84-88 | A full interval starts a new restart point, where nothing is shared |
| BlockReader.DecodeEntry | iosApp/Pods/leveldb-library/table/block.cc:55-75 | The one-byte fast path and the varint path agree; fails exactly when the entry does not fit |
| BlockReader.ParsesEntry | iosApp/Pods/leveldb-library/table/block.cc:55-75 | A written entry is parsed back, with the bytes after it |
| BlockReader.OpensContents | iosApp/Pods/leveldb-library/table/block.cc:25-40 | A finished block below 4 GB opens with its restart array where the builder put it |
| BlockReader.Iter.ParseNextKey | iosApp/Pods/leveldb-library/table/block.cc:225-252 | From the end of an entry the next key and value are rebuilt, or the end is found |
| BlockReader.Iter.Next | iosApp/Pods/leveldb-library/table/block.cc:138-141 | The position goes up by one |
| BlockReader.Iter.Prev | iosApp/Pods/leveldb-library/table/block.cc:143-162 | The position goes down by one: Prev undoes Next |
| BlockReader.Iter.SeekToLast | iosApp/Pods/leveldb-library/table/block.cc:209-214 | The position is the last entry |
| BlockReader.Iter.LastRestartBefore | iosApp/Pods/leveldb-library/table/block.cc:164-190 | The binary search finds the last restart point whose key is before the target |
| BlockReader.Iter.Seek | iosApp/Pods/leveldb-library/table/block.cc:164-202 | The position is the first entry whose key is at or after the target |
| BlockReader.BuildAndScan | iosApp/Pods/leveldb-library/table/block_builder.cc:71-105 | For every restart interval from 1 on, scanning a built block below 4 GB yields exactly the pairs added |
| SkipList.SkipList.SearchStep | iosApp/Pods/leveldb-library/db/skiplist.h:265-280 | One look at one link goes on exactly if the next key is before the target, and stops at the cut of the level |
| SkipList.SkipList.FindGreaterOrEqual | iosApp/Pods/leveldb-library/db/skiplist.h:262-281 | The multi-level search finds the node and, on all levels in use, the predecessors that linear search finds |
| SkipList.SkipList.FindLessThan | iosApp/Pods/leveldb-library/db/skiplist.h:285-302 | The last node before the key, as by linear search |
| SkipList.SkipList.FindLast | iosApp/Pods/leveldb-library/db/skiplist.h:305-322 | The last node |
| SkipList.SkipList.Contains | iosApp/Pods/leveldb-library/db/skiplist.h:371-378 | True exactly if an entry has the key |
| SkipList.SkipList.PrepareLink | iosApp/Pods/leveldb-library/db/skiplist.h:363-365 | Setting the link of a node that no level holds yet changes nothing a reader can see, and is a store after which the list is right |
| SkipList.SkipList.Publish | iosApp/Pods/leveldb-library/db/skiplist.h:366-366 | After the single store that puts the node on a level, the whole list is valid again and every node is still found on every level it was on |
| SkipList.SkipList.RaiseHeight | iosApp/Pods/leveldb-library/db/skiplist.h:347-359 | Raising the height before any link is set leaves a valid list |
| SkipList.SkipList.RandomHeight | iosApp/Pods/leveldb-library/db/skiplist.h:242-252 | The height is one more than the successes before the first failure, at most twelve |
| SkipList.SkipList.Insert | iosApp/Pods/leveldb-library/db/skiplist.h:337-368 | The entries are the old ones with the new one where a seek to it stops; levels stay sorted and nested |
| SkipList.StoreKeepsLinks | iosApp/Pods/leveldb-library/db/skiplist.h:361-367 | One stored pointer keeps all links of all levels right |
| SkipList.PlaceFits | iosApp/Pods/leveldb-library/db/skiplist.h:361-367 | The place found before the insertion is still right when the levels below are done |
| SkipList.Iterator.Seek | iosApp/Pods/leveldb-library/db/skiplist.h:224-226 | The position is the first entry at or after the target |
| SkipList.Iterator.Next | iosApp/Pods/leveldb-library/db/skiplist.h:207-210 | The position goes up by one |
| SkipList.Iterator.Prev | iosApp/Pods/leveldb-library/db/skiplist.h:213-221 | Searching again for the node before makes the position go down by one |
| SkipList.Iterator.SeekToLast | iosApp/Pods/leveldb-library/db/skiplist.h:234-239 | The position is the last entry |
| SkipReader.StepStandsWell | iosApp/Pods/leveldb-library/db/skiplist.h:262-322 | A store of a writer leaves a search that is under way, of any of the three kinds, standing before its key on a right list, and a load of the search keeps it there |
| SkipReader.CanLoad | iosApp/Pods/leveldb-library/db/skiplist.h:265-280 | A search that is not done can always take its next load |
| SkipReader.SearchIsLinear | iosApp/Pods/leveldb-library/db/skiplist.h:262-322 | Whatever stores come between its loads, a FindGreaterOrEqual, FindLessThan or FindLast ends where a linear search ends in the list at the moment of its last load |
| SkipReader.NothingIsMissed | iosApp/Pods/leveldb-library/db/skiplist.h:8-28 | A search finds a key that was in the list when it began, and never passes over a node that was there |
| SkipReader.NothingIsLeftBehind | iosApp/Pods/leveldb-library/db/skiplist.h:285-322 | A FindLessThan or FindLast among a writer's stores does not stop short of a node before its key that was there when it began, and stops at a node before its key |
| MemTable.Add | iosApp/Pods/leveldb-library/db/memtable.cc:76-99 | The buffer is filled with the encoded entry: prefixed internal key, prefixed value |
| MemTable.OpRoundTrip | iosApp/Pods/leveldb-library/db/memtable.cc:14-19 | Key, tag and value are read back from an encoded entry |
| Formats.MemTableEntryBytes | iosApp/Pods/leveldb-library/db/memtable.cc:76-100 | The bytes of an entry with a value and of a deletion |
| Formats.InternalKeyBytes | iosApp/Pods/leveldb-library/db/dbformat.cc:15-23 | Sequence number and type, 56 and 8 bits, stand behind the user key, lowest byte first |
| Formats.GreatestTag | iosApp/Pods/leveldb-library/db/dbformat.h:54-67 | The tag that comes before all others of a user key: the greatest sequence number of 56 bits, and the type for seeking |
| MemTable.KeyBefore | iosApp/Pods/leveldb-library/db/memtable.cc:28-34 | The comparison of encoded entries is that of their internal keys |
| MemTable.SeekLeads | iosApp/Pods/leveldb-library/db/dbformat.cc:117-134 | The first entry from a lookup key on is the newest visible one, if it has the user key |
| MemTable.Get | iosApp/Pods/leveldb-library/db/memtable.cc:101-135 | Value, deletion or nothing, as the newest visible operation on the key says |
| HandleTable.HandleTable.FindPointer | iosApp/Pods/leveldb-library/util/cache.cc:115-121 | The slot of the first match in the right bucket, or of the end of its chain |
| HandleTable.HandleTable.Lookup | iosApp/Pods/leveldb-library/util/cache.cc:75-77 | A match exactly if the table holds one |
| HandleTable.HandleTable.Insert | iosApp/Pods/leveldb-library/util/cache.cc:79-93 | The table gains the handle and loses exactly the match it replaces, also across a resize |
| HandleTable.HandleTable.Remove | iosApp/Pods/leveldb-library/util/cache.cc:95-103 | The table loses exactly the match, and nothing when there is none |
| HandleTable.HandleTable.Resize | iosApp/Pods/leveldb-library/util/cache.cc:123-147 | The new buckets hold exactly the handles of the old ones |
| HandleTable.HandleTable.MoveHandle | iosApp/Pods/leveldb-library/util/cache.cc:133-140 | Relinking one handle puts it at the head of its new bucket and leaves the unmoved chains readable |
| HandleTable.SplicedBuckets | iosApp/Pods/leveldb-library/util/cache.cc:79-103 | Changing one slot or link splices one chain and keeps all buckets |
| HandleTable.SplicedAll | iosApp/Pods/leveldb-library/util/cache.cc:79-103 | A splice takes out at most one handle and puts in at most one |
| LruSpec.ReferencedKeeps | iosApp/Pods/leveldb-library/util/cache.cc:218-224 | A new reference keeps the cache consistent and the usage |
| LruSpec.ReleasedKeeps | iosApp/Pods/leveldb-library/util/cache.cc:226-238 | A release keeps the cache consistent and the usage; the last one caches or deletes |
| LruSpec.UncachedKeeps | iosApp/Pods/leveldb-library/util/cache.cc:306-317 | Taking a handle out of the cache lowers the usage by its charge and loses no handle |
| LruSpec.EvictedKeeps | iosApp/Pods/leveldb-library/util/cache.cc:294-301 | Eviction takes a shortest prefix of the LRU list, oldest first, after which the usage fits or the list is empty |
| LruSpec.InsertedKeeps | iosApp/Pods/leveldb-library/util/cache.cc:267-304 | After an insert the usage is within capacity or the LRU list is empty; the handle is cached exactly if the capacity is not zero; the one it replaces is not |
| LruSpec.PrunedIsUncached | iosApp/Pods/leveldb-library/util/cache.cc:324-334 | Pruning all at once is taking the oldest out again and again |
| LruSpec.NextKeeps | iosApp/Pods/leveldb-library/util/cache.cc:253-334 | Every operation keeps: each cached handle on one list, decided by its references, and nothing deleted twice or while in use |
| LruSpec.RunIsOk | iosApp/Pods/leveldb-library/util/cache.cc:253-334 | Over every run that holds, no handle is ever lost, and one no longer cached or held has been deleted |
| LruSpec.LruIsInOrderOfUse | iosApp/Pods/leveldb-library/util/cache.cc:218-251 | In every state of every run the LRU list is in the order in which its handles were last given to a client or given back |
| LruSpec.LeastRecentlyUsedGoes | iosApp/Pods/leveldb-library/util/cache.cc:294-301 | A handle that an insert evicts was last used before every handle that stays unused |
| LruCache.RingRemoved | iosApp/Pods/leveldb-library/util/cache.cc:240-243 | Two stores take a handle out of a ring and leave a ring |
| LruCache.RingAppended | iosApp/Pods/leveldb-library/util/cache.cc:245-251 | Four stores put a handle before the head and leave a ring |
| LruCache.ListsRemoved | iosApp/Pods/leveldb-library/util/cache.cc:240-243 | Taking a handle out of one list leaves both lists right |
| LruCache.ReferencedCounts | iosApp/Pods/leveldb-library/util/cache.cc:218-224 | Reference counts still equal client references plus one for the cache |
| LruCache.ReleasedCounts | iosApp/Pods/leveldb-library/util/cache.cc:226-238 | The same after a release |
| LruCache.UncachedCounts | iosApp/Pods/leveldb-library/util/cache.cc:306-317 | The same after leaving the cache |
| LruCache.LRUCache.LRU_Remove | iosApp/Pods/leveldb-library/util/cache.cc:240-243 | The handle leaves the list it is on |
| LruCache.LRUCache.LRU_Append | iosApp/Pods/leveldb-library/util/cache.cc:245-251 | The handle becomes the newest of the list |
| LruCache.LRUCache.Ref | iosApp/Pods/leveldb-library/util/cache.cc:218-224 | The state becomes the referenced one, with a move from LRU to in-use at the first reference |
| LruCache.LRUCache.Unref | iosApp/Pods/leveldb-library/util/cache.cc:226-238 | One reference less; at zero the deleter runs, at one the handle goes to the LRU list |
| LruCache.LRUCache.FinishErase | iosApp/Pods/leveldb-library/util/cache.cc:308-317 | The state becomes the one without the handle in the cache |
| LruCache.LRUCache.Lookup | iosApp/Pods/leveldb-library/util/cache.cc:253-260 | The cached match, referenced; nothing exactly if no cached handle matches |
| LruCache.LRUCache.Insert | iosApp/Pods/leveldb-library/util/cache.cc:267-304 | The state becomes the inserted one, with the replaced match out of the cache, and the usage fits or the LRU list is empty |
| LruCache.LRUCache.Release | iosApp/Pods/leveldb-library/util/cache.cc:262-265 | The state becomes the released one |
| LruCache.LRUCache.Erase | iosApp/Pods/leveldb-library/util/cache.cc:319-322 | The cached match leaves the cache; nothing changes when there is none |
| LruCache.LRUCache.Prune | iosApp/Pods/leveldb-library/util/cache.cc:324-334 | The whole LRU list is deleted, oldest first |
| LruCache.LRUCache.EvictOldest | iosApp/Pods/leveldb-library/util/cache.cc:294-301 | The oldest unused handle leaves the table, the list and the usage |
| LruCache.LRUCache.NoTwoMatch | iosApp/Pods/leveldb-library/util/cache.cc:79-93 | No two cached handles match one key |
| WriteBatch.RecordRoundTrip | iosApp/Pods/leveldb-library/db/write_batch.cc:42-71 | A written update is parsed back, with the bytes after it |
| WriteBatch.RecordsRoundTrip | iosApp/Pods/leveldb-library/db/write_batch.cc:42-80 | All updates are parsed back in order |
| WriteBatch.RepIsParsed | iosApp/Pods/leveldb-library/db/write_batch.cc:42-80 | A batch with sequence number and count in its header is read back whole |
| Formats.BatchBytes | iosApp/Pods/leveldb-library/db/write_batch.cc:5-14 | The bytes of a batch with a put and a deletion |
| CutOff.BatchCut | iosApp/Pods/leveldb-library/db/write_batch.cc:42-79 | For every batch that is cut off inside an update: the handler is given the updates before it, and the status says whether a put or a deletion was cut |
| CutOff.BatchOfUnknown | iosApp/Pods/leveldb-library/db/write_batch.cc:42-79 | At a byte that is no type the handler has been given the updates before it, and the status is unknown tag |
| WriteBatch.WriteBatch.Put | iosApp/Pods/leveldb-library/db/write_batch.cc:98-103 | The batch gains the update at its end, and the count goes up |
| WriteBatch.WriteBatch.Delete | iosApp/Pods/leveldb-library/db/write_batch.cc:105-109 | The batch gains the deletion at its end, and the count goes up |
| WriteBatch.WriteBatch.Append | iosApp/Pods/leveldb-library/db/write_batch.cc:144-148 | The batch gains the updates of the other in order |
| WriteBatch.WriteBatch.SetSequence | iosApp/Pods/leveldb-library/db/write_batch.cc:94-96 | Only the sequence number changes |
| WriteBatch.WriteBatch.Iterate | iosApp/Pods/leveldb-library/db/write_batch.cc:42-80 | The calls made are exactly the updates parsed, and each malformed batch gets the status of the code |
| WriteBatch.WriteBatch.InsertInto | iosApp/Pods/leveldb-library/db/write_batch.cc:115-137 | The updates get consecutive numbers from the one of the batch on |
| WriteQueue.OneGroup | iosApp/Pods/leveldb-library/db/db_impl.cc:1270-1316 | Queue and rules determine the group |
| WriteQueue.GroupIsExactly | iosApp/Pods/leveldb-library/db/db_impl.cc:1279-1310 | A group is at most 1 MB, or 128 KB more than a first batch of up to 128 KB, unless its first batch alone is bigger; it ends before a writer that wants a sync when the first does not, or before a batch that would make it bigger than that, and nowhere else |
| WriteQueue.BuildBatchGroup | iosApp/Pods/leveldb-library/db/db_impl.cc:1270-1316 | The group is the longest prefix of the queue the rules allow, its batch the concatenation of theirs, and the batches of the callers are not touched |
| GroupCommit.NextKeepsInv | iosApp/Pods/leveldb-library/db/db_impl.cc:1195-1266 | Every step of writers and leader keeps the queue invariant |
| GroupCommit.RunKeepsInv | iosApp/Pods/leveldb-library/db/db_impl.cc:1195-1266 | It holds in every state of every run |
| GroupCommit.FirstComeFirstServed | iosApp/Pods/leveldb-library/db/db_impl.cc:1201-1214 | Writers leave in the order they came, none twice and none left out |
| GroupCommit.OneTurn | iosApp/Pods/leveldb-library/db/db_impl.cc:1249-1258 | Each writer served has a turn it was served in |
| GroupCommit.OneTurnOnly | iosApp/Pods/leveldb-library/db/db_impl.cc:1249-1258 | No writer is served in two turns, or twice in one |
| GroupCommit.NumbersInOrder | iosApp/Pods/leveldb-library/db/db_impl.cc:1215-1217 | The updates of the turns get consecutive sequence numbers in queue order, never used twice |
| GroupCommit.NumbersIncrease | iosApp/Pods/leveldb-library/db/write_batch.cc:115-137 | Sequence numbers in the memtable strictly increase in insertion order |
| GroupCommit.AllOrNothing | iosApp/Pods/leveldb-library/db/db_impl.cc:1246-1246 | What a reader at a published number sees, now and in every later state, is exactly the successful turns published before |
| GroupCommit.WholeGroups | iosApp/Pods/leveldb-library/db/db_impl.cc:1246-1246 | A published number never falls inside a group |
| GroupCommit.SyncedIsOnDisk | iosApp/Pods/leveldb-library/db/db_impl.cc:1224-1243 | The record of a successful turn with a sync writer is on disk, and its leader asked for the sync |
| GroupCommit.NothingAfterFailedSync | iosApp/Pods/leveldb-library/db/db_impl.cc:1237-1242 | After a failed sync every turn that ends later fails, and nothing more goes to the log or into the memtable |
| GroupCommit.LeaderHasBatch | iosApp/Pods/leveldb-library/db/db_impl.cc:1214-1215 | A turn that wrote was led by a writer with a batch |
| GroupStore.TurnIsStep | iosApp/Pods/leveldb-library/db/db_impl.cc:1214-1247 | A leader's turn is one write of its whole group to the store, or one failed write of as many numbers |
| GroupStore.GroupsRefineStore | iosApp/Pods/leveldb-library/db/db_impl.cc:1195-1266 | In every run of the queue, the end of a turn with a batch is exactly that step of the store machine, and no other step of writers or leader changes the store; published numbers agree and the store invariant holds throughout |
| GroupStore.ReadsAnswerHistory | iosApp/Pods/leveldb-library/db/db_impl.cc:1223-1246 | A read at a published number, in any later state, however far the inserts of later groups have come, answers what the history of the turns published by then answers |
| Engine.EngineRunIsOk | iosApp/Pods/leveldb-library/db/db_impl.cc:1195-1266 | In every state of every run of writers, leaders and background work, the memtable is what is published and the part of the group under way that is in, and what is published has the store invariant |
| Engine.EngineRefinesStore | iosApp/Pods/leveldb-library/db/db_impl.cc:1195-1266 | What is published takes exactly the steps of the store machine: one write of the whole group at the end of a turn, or one failed write; the switches, flushes, moves, snapshots and compactions in the background; nothing for all other steps |
| Engine.EngineReadsHistory | iosApp/Pods/leveldb-library/db/db_impl.cc:1110-1155 | A read at a live number, of the memtable with all that is inserted and not yet published and of all below it, answers what the history answers |
| Engine.HazardSeen | iosApp/Pods/leveldb-library/db/db_impl.cc:895-899 | Entries not yet published make no difference to the hazard of a compaction |
| Engine.HistoryIsFixed | iosApp/Pods/leveldb-library/db/db_impl.cc:1176-1184 | What a published number can see of the history never changes again in any run of the engine |
| Engine.ScansAreFixed | iosApp/Pods/leveldb-library/db/db_impl.cc:1072-1097 | A scan at a live number lists what the history held when that number was published, whatever has been inserted, flushed, moved or compacted since, and whatever is inserted while its iterator is in use |
| Client.HistoryIsContained | iosApp/Pods/leveldb-library/db/db_impl.cc:1195-1266 | In every run of writers, leaders and background work from an empty store, the history answers, at every number, what the batches of the calls that succeeded, updates numbered up to that number, make of an empty map from byte strings to byte strings |
| Client.ReadsAreContained | iosApp/Pods/leveldb-library/include/leveldb/db.h:60-88 | In every state of such a run a read at a live number answers what that map holds |
| Client.ScansAreContained | iosApp/Pods/leveldb-library/include/leveldb/db.h:90-107 | A scan at a live number, made at any later time and with any inserts while its iterator is in use, shows a key with a value exactly if that map holds it so |
| VersionEdit.ItemsRoundTrip | iosApp/Pods/leveldb-library/db/version_edit.cc:41-203 | The tagged fields of an edit are parsed back in order |
| VersionEdit.ItemsRebuild | iosApp/Pods/leveldb-library/db/version_edit.cc:105-203 | Setting the fields one by one rebuilds the edit |
| VersionEdit.EditRoundTrip | iosApp/Pods/leveldb-library/db/version_edit.cc:26-39 | Decoding the encoding gives the edit back exactly if the decoding object had no compaction pointers, which Clear keeps |
| Formats.EditBytes | iosApp/Pods/leveldb-library/db/version_edit.cc:14-24 | The bytes of one field of each kind, with the tags that are written to disk |
| Formats.RefusedFields | iosApp/Pods/leveldb-library/db/version_edit.cc:85-203 | A field with any other tag, with a level of 7 or more, or with an empty key is refused |
| CutOff.EditCut | iosApp/Pods/leveldb-library/db/version_edit.cc:106-203 | For every edit that is cut off inside a field: the fields before it are set, and decoding fails |
| VersionEdit.VersionEdit.EncodeTo | iosApp/Pods/leveldb-library/db/version_edit.cc:41-84 | The present fields are appended in the order of the code |
| VersionEdit.VersionEdit.DecodeFrom | iosApp/Pods/leveldb-library/db/version_edit.cc:105-203 | Succeeds exactly if all of the input is well formed, and sets the fields in order up to the first error |
| VersionEdit.VersionEdit.RemoveFile | iosApp/Pods/leveldb-library/db/version_edit.h:74-76 | The deleted files are a sorted set with the file added |
| Bits.WithBitHas | iosApp/Pods/leveldb-library/util/bloom.cc:50-50 | Setting a bit sets that bit and no other |
| Bits.IsLowBits | iosApp/Pods/nanopb/pb_decode.c:1069-1077 | A word equals the mask of the low `n` bits exactly if it has those bits and no others |
| Bloom.CreateFilter | iosApp/Pods/leveldb-library/util/bloom.cc:28-54 | The filter has exactly the bits its keys probe, and ends with the number of probes |
| Bloom.KeyMayMatch | iosApp/Pods/leveldb-library/util/bloom.cc:56-80 | The loop over probes computes the specified match, with its rules for short filters and reserved probe counts |
| Bloom.NeverMisses | iosApp/Pods/leveldb-library/util/bloom.cc:56-80 | A key of the filter always matches |
| Bloom.MatchIsExact | iosApp/Pods/leveldb-library/util/bloom.cc:56-80 | A filter says no exactly if one of the bits the key probes is probed by none of the keys it was made from |
| Bloom.ProbesAreEven | iosApp/Pods/leveldb-library/util/bloom.cc:46-52 | Probe j of a key is its hash and j times its hash rotated right by 17 bits, modulo 2^32 and then modulo the number of bits |
| FilterBlock.FilterBlockBuilder.StartBlock | iosApp/Pods/leveldb-library/table/filter_block.cc:21-27 | One group of keys per 2 KB of offsets, empty ones included |
| FilterBlock.FilterBlockBuilder.GenerateFilter | iosApp/Pods/leveldb-library/table/filter_block.cc:51-75 | The pending keys become the next group, with a filter over their user keys |
| FilterBlock.FilterBlockBuilder.Finish | iosApp/Pods/leveldb-library/table/filter_block.cc:35-49 | Filters, their offsets, the start of the offsets and the base |
| FilterBlock.FilterAt | iosApp/Pods/leveldb-library/table/filter_block.cc:90-98 | In a filter block below 4 GB, the offset array leads to each filter |
| FilterBlock.KeyMayMatch | iosApp/Pods/leveldb-library/table/filter_block.cc:90-104 | Computes the specified answer, with yes for what it cannot tell |
| FilterBlock.NeverHides | iosApp/Pods/leveldb-library/table/filter_block.cc:90-104 | For a filter block below 4 GB, never a no for a key whose user key was added to the group of that offset |
| FilterBlock.AnswersAreExact | iosApp/Pods/leveldb-library/table/filter_block.cc:90-104 | For a filter block below 4 GB: the answer for an offset is that of the filter of its 2 KB, no where no block begins in them, and yes past the last of them |
| FilterBlock.NoFiltersHideNothing | iosApp/Pods/leveldb-library/table/filter_block.cc:77-88 | Contents too short, or whose offsets would begin past their end, never say no |
| Formats.FilterBlockBytes | iosApp/Pods/leveldb-library/table/filter_block.cc:35-49 | The bytes of a filter block of two filters, and of an empty one |
| TableFormat.HandleRoundTrip | iosApp/Pods/leveldb-library/table/format.cc:15-29 | A block handle before any bytes is read back |
| TableFormat.HandleDecides | iosApp/Pods/leveldb-library/table/two_level_iterator.cc:150-154 | Equal encodings are equal handles, so comparing encodings tells blocks apart |
| TableFormat.FooterRoundTrip | iosApp/Pods/leveldb-library/table/format.cc:31-62 | Both handles are read back from the fixed-size footer |
| Formats.FooterBytes | iosApp/Pods/leveldb-library/table/format.h:48-76 | The 48 bytes of a footer, with the magic number |
| Formats.TrailerBytes | iosApp/Pods/leveldb-library/table/format.h:78-79 | Behind a stored block stand its type and the masked checksum of block and type |
| Formats.FilterKeyBytes | iosApp/Pods/leveldb-library/table/table_builder.cc:211-222 | The name a filter block is found under, "filter." and the name of the policy |
| TableFormat.WriteRawBlock | iosApp/Pods/leveldb-library/table/table_builder.cc:177-194 | Block, type and masked checksum are stored at the returned handle |
| TableFormat.ReadBlock | iosApp/Pods/leveldb-library/table/format.cc:64-139 | Returns the stored bytes exactly if they are all there, of known type and, when asked to check, with the right checksum |
| TableOrder.SeekLands | iosApp/Pods/leveldb-library/table/two_level_iterator.cc:82-87 | The block of the first separator from the target on, and the place in it, is the first entry from the target on in the whole table |
| TableOrder.GapHasNoUserKey | iosApp/Pods/leveldb-library/table/table.cc:214-242 | When that block has no entry from the target on, the next entry has another user key: a shortened separator never hides one |
| TableBuilder.TableBuilder.Add | iosApp/Pods/leveldb-library/table/table_builder.cc:94-123 | The table gains the entry; pending separator, filter and flush keep the table rules; the block with the entry stays open while its estimated size is below the block size, and is flushed as soon as it is not |
| TableBuilder.TableBuilder.AddIndexEntry | iosApp/Pods/leveldb-library/table/table_builder.cc:102-109 | The index gains the separator and the handle of the finished block |
| TableBuilder.TableBuilder.Flush | iosApp/Pods/leveldb-library/table/table_builder.cc:125-139 | The open block goes to the file; all entries stay |
| TableBuilder.TableBuilder.Finish | iosApp/Pods/leveldb-library/table/table_builder.cc:198-253 | The file is a well-formed table that holds exactly the entries added |
| TableBuilder.ChainSeparates | iosApp/Pods/leveldb-library/table/table_builder.cc:102-109 | Separators chosen one at a time separate all blocks of the table |
| TableBuilder.CoversMore | iosApp/Pods/leveldb-library/table/table_builder.cc:111-113 | Each key added is in the filter group of its block |
| Table.Open | iosApp/Pods/leveldb-library/table/table.cc:38-80 | A built table opens, with its filter when one was written with the policy |
| Table.ReadMeta | iosApp/Pods/leveldb-library/table/table.cc:82-109 | The filter is found exactly if there is one of that policy |
| Table.Table.FilterAllows | iosApp/Pods/leveldb-library/table/table.cc:221-226 | The answer of the filter; a no means that the block has no entry of the user key |
| Table.Table.InternalGet | iosApp/Pods/leveldb-library/table/table.cc:214-242 | Hands back nothing or the first entry from the key on, and that entry whenever it has the user key of the key |
| TwoLevel.TwoLevelIterator.InitDataBlock | iosApp/Pods/leveldb-library/table/two_level_iterator.cc:146-161 | The data iterator is over the block of the index entry; an equal handle keeps it |
| TwoLevel.TwoLevelIterator.SkipEmptyDataBlocksForward | iosApp/Pods/leveldb-library/table/two_level_iterator.cc:115-126 | The position does not change, and the iterator is valid unless at the end |
| TwoLevel.TwoLevelIterator.SkipEmptyDataBlocksBackward | iosApp/Pods/leveldb-library/table/two_level_iterator.cc:128-139 | The position is the entry before, or the end when there is none |
| TwoLevel.TwoLevelIterator.Seek | iosApp/Pods/leveldb-library/table/two_level_iterator.cc:82-87 | The position is the first entry of the table from the target on |
| TwoLevel.TwoLevelIterator.SeekToFirst | iosApp/Pods/leveldb-library/table/two_level_iterator.cc:89-94 | The position is the first entry |
| TwoLevel.TwoLevelIterator.SeekToLast | iosApp/Pods/leveldb-library/table/two_level_iterator.cc:96-101 | The position is the last entry |
| TwoLevel.TwoLevelIterator.Next | iosApp/Pods/leveldb-library/table/two_level_iterator.cc:103-107 | The position goes up by one, also across blocks |
| TwoLevel.TwoLevelIterator.Prev | iosApp/Pods/leveldb-library/table/two_level_iterator.cc:109-113 | The position goes down by one, also across blocks |
| TwoLevel.ScanTable | iosApp/Pods/leveldb-library/table/table.cc:208-212 | A full scan yields exactly the entries added |
| TwoLevel.BuildAndScanTable | iosApp/Pods/leveldb-library/table/table_builder.cc:94-253 | For every strictly increasing list of internal keys, any block size, restart interval and filter policy: building, opening and scanning the table gives the list back (file below 4 GB) |
| TwoLevel.BuildAndLookUp | iosApp/Pods/leveldb-library/table/table.cc:38-242 | For every such table and every key, the lookup hands back the first entry from the key on if it has its user key, and else that entry or nothing |
| Pb.Varint32Read | iosApp/Pods/nanopb/pb_decode.c:187-252 | The 32 bit decoder, with its checks on the fifth byte, reads back every 32 bit varint |
| PbVarint.ReadsExactly | iosApp/Pods/nanopb/pb_decode.c:187-243 | For all bytes: the read fails if the varint does not end; else it succeeds if and only if a last byte at position 28 is below 16 and every byte at a position from 32 on has no bits or continues a set sign bit; and what it then gives is the number modulo 2^32 or-ed with the late bits, those from the 38th byte on whose wrapped position is below 32, and the rest of the bytes |
| PbVarint.ReadsRight | iosApp/Pods/nanopb/pb_decode.c:187-243 | When it succeeds it takes as many bytes as a parse of the varint, and gives its number modulo 2^32 if and only if the late bits are among the bits of that; always at up to 37 bytes |
| PbVarint.NumberIsParsed | iosApp/Pods/nanopb/pb_decode.c:255-275 | The number of a varint that ends, as the sum over its bytes, is what the recursive parse gives |
| PbVarint.SignIs | iosApp/Pods/nanopb/pb_decode.c:225-233 | The sign bit the check looks at is set exactly if some byte before put a bit at place 31 |
| PbVarint.ZerosOnlyMove | iosApp/Pods/nanopb/pb_decode.c:211-240 | A byte 0x80 after the first only moves the bit position on, at every position; the position wraps in eight bits |
| PbVarint.LateBitsAreRead | iosApp/Pods/nanopb/pb_decode.c:211-240 | After 37 such bytes the seven bits that follow are not an overflow, but are read three bits up, while the number has them 259 bits up |
| PbVarint.HighBitsAreLost | iosApp/Pods/nanopb/pb_decode.c:236-240 | A fifth byte with bits that do not fit is not refused if a sixth byte follows: w times 2^32 is read as 0 |
| Pb.VarintRead | iosApp/Pods/nanopb/pb_decode.c:255-275 | The 64 bit decoder reads back every 64 bit varint |
| Pb.NumberRoundTrip | iosApp/Pods/nanopb/pb_decode.c:1345-1445 | Every in-range number of every scalar kind is read back, with sign extension, zigzag and range checks |
| PbIter.FieldIter.Begin | iosApp/Pods/nanopb/pb_common.c:8-27 | The iterator stands at the first field; false exactly if there is none |
| PbIter.FieldIter.Next | iosApp/Pods/nanopb/pb_common.c:29-85 | The next field, or the first again and false; the required-field index is right throughout |
| PbIter.FieldIter.Find | iosApp/Pods/nanopb/pb_common.c:87-104 | From any position the circular search ends, and succeeds exactly if the tag is that of a non-extension field, or is 0 in a message type without fields |
| PbIter.RequiredAt | iosApp/Pods/nanopb/pb_common.c:74-79 | Required fields are numbered without gaps |
| PbIter.FieldsSeen.Mark | iosApp/Pods/nanopb/pb_decode.c:1021-1026 | One more bit is set in the word array |
| PbIter.FieldsSeen.Complete | iosApp/Pods/nanopb/pb_decode.c:1057-1079 | The word-and-mask test passes exactly if the first so many bits are set |
| PbMessage.TagRoundTrip | iosApp/Pods/nanopb/pb_decode.c:298-319 | Tag and wire type are read back, for tags from 1 to below 2^29 |
| PbMessage.PackedRoundTrip | iosApp/Pods/nanopb/pb_decode.c:424-455 | Packed elements are read back up to the array size |
| PbMessage.ValueRead | iosApp/Pods/nanopb/pb_encode.c:769-910 | Every fitting value of every kind, submessages included, is read back, up to zeros that were left out, unless a string in it fills its buffer; then reading fails |
| PbMessage.SlotRead | iosApp/Pods/nanopb/pb_decode.c:406-483 | What a field writes is read back into that field and no other, for every rule: required, optional, implicit, repeated, oneof; reading fails exactly if a string in it fills its buffer |
| PbMessage.ZeroIsDefault | iosApp/Pods/nanopb/pb_encode.c:240-337 | Without descriptor defaults for implicit fields, a submessage that is not written because it is zero is the default of its type |
| PbMessage.MsgRead | iosApp/Pods/nanopb/pb_decode.c:934-1096 | For every static descriptor and every fitting message, what decoding its encoding into a cleared message gives: the message with each slot that was left out as zero at the default of its field, or failure exactly if a string written, at any depth, fills its buffer |
| PbMessage.MsgRoundTripExactly | iosApp/Pods/nanopb/pb_decode.c:934-1096 | The message itself comes back if and only if every string written leaves room for its terminator and every slot left out as zero, at every depth, is the default of its field |
| PbMessage.MsgRoundTrip | iosApp/Pods/nanopb/pb_decode.c:934-1096 | So every fitting message whose strings leave room comes back when implicit fields have no default but zero |
| PbEncode.OStream.Write | iosApp/Pods/nanopb/pb_encode.c:103-124 | Counts the bytes, and writes them unless sizing; fails exactly when the buffer is too small for them |
| PbEncode.VarintBytes | iosApp/Pods/nanopb/pb_encode.c:608-628 | The loop writes the base-128 varint |
| PbEncode.PackedSize | iosApp/Pods/nanopb/pb_encode.c:169-190 | The sizing pass of a packed array gives the length of what is written then |
| PbEncode.EncodePackedArray | iosApp/Pods/nanopb/pb_encode.c:164-205 | Tag, length and elements; succeeds exactly if all elements may be encoded and there is room |
| PbEncode.EncodeArray | iosApp/Pods/nanopb/pb_encode.c:147-236 | Packed or one by one, exactly the specified bytes |
| PbEncode.EncodeSubmessage | iosApp/Pods/nanopb/pb_encode.c:717-765 | The sizing pass equals the bytes written, so "submsg size changed" is never the error |
| PbEncode.EncodeField | iosApp/Pods/nanopb/pb_encode.c:341-426 | Exactly the specified bytes of the field, or an error that is not the size change |
| PbEncode.Encode | iosApp/Pods/nanopb/pb_encode.c:528-550 | Succeeds exactly if the message may be encoded and there is room, and then writes exactly its encoding; what the wire types in it mean is `PbWire.ValueIsSized` |
| PbTheorem.GetEncodedSize | iosApp/Pods/nanopb/pb_encode.c:567-576 | The size is that of the encoding |
| PbDecode.IStream.DecodeVarint32 | iosApp/Pods/nanopb/pb_decode.c:187-252 | The loop computes the specified read, failures included |
| PbDecode.IStream.DecodeVarint | iosApp/Pods/nanopb/pb_decode.c:255-275 | The loop computes the specified read, failures included |
| PbDecode.IStream.SkipField | iosApp/Pods/nanopb/pb_decode.c:321-331 | Skips exactly the field of that wire type, as `PbWire.SkipsField` and `PbWire.SkipsOnly` say |
| PbDecode.ReadPacked | iosApp/Pods/nanopb/pb_decode.c:424-455 | The loop computes the specified decoding of a packed array |
| PbDecode.ReadValue | iosApp/Pods/nanopb/pb_decode.c:1334-1570 | Every kind is decoded as specified, submessages through a substream |
| PbDecode.DecodeStaticField | iosApp/Pods/nanopb/pb_decode.c:406-483 | The field is decoded as specified for its rule and wire type, failures included |
| PbDecode.MarksRequired | iosApp/Pods/nanopb/pb_decode.c:1021-1026 | Marking by required-field index records exactly the required fields seen |
| PbDecode.BitsAnswer | iosApp/Pods/nanopb/pb_decode.c:1039-1079 | All marked bits present is the same as every one of the first 64 required fields seen |
| PbDecode.CountRequired | iosApp/Pods/nanopb/pb_decode.c:1045-1055 | Walking to the end of the descriptor counts the required fields |
| PbDecode.DecodeField | iosApp/Pods/nanopb/pb_decode.c:957-1030 | One turn of the loop decodes or skips one field, as the specification does |
| PbDecode.DecodeNoinit | iosApp/Pods/nanopb/pb_decode.c:934-1082 | The loop decodes as specified: last value wins, unknown fields skipped, false when a required field is missing; what that gives for anything an encoder may send is `PbWire.ResultRead` |
| PbDecode.Decode | iosApp/Pods/nanopb/pb_decode.c:1084-1096 | The same from the defaults |
| PbTheorem.EncodeAndDecode | iosApp/Pods/nanopb/pb_encode.c:528-550 | Sizing, encoding into a buffer of that size and decoding succeed exactly if every string written leaves room for its terminator, and give the message back exactly if moreover every slot left out as zero is the default of its field |
| PbTheorem.FullStringIsLost | iosApp/Pods/nanopb/pb_decode.c:1487-1523 | A string that can be encoded is read back if and only if it leaves room for its terminator |
| PbTheorem.ZeroIsLost | iosApp/Pods/nanopb/pb_encode.c:240-337 | Every implicit field that holds zero is not written, and is read as its default, whatever that is |
| PbTheorem.ImplicitRoundTrip | iosApp/Pods/nanopb/pb_encode.c:240-337 | An implicit field keeps its value if and only if the value is not zero and itself survives, or is zero and the default |
| PbWire.ValueIsSized | iosApp/Pods/nanopb/pb_encode.c:675-693 | For every fitting value of every kind the wire type says where it ends: 0 a varint, 1 eight bytes, 2 a length and as many bytes, 5 four bytes |
| PbWire.PackedIsSized | iosApp/Pods/nanopb/pb_encode.c:163-192 | A packed array stands behind its length, at wire type 2 |
| PbWire.ValueIsSkipped | iosApp/Pods/nanopb/pb_decode.c:321-331 | So a reader without descriptors skips every value to its end |
| PbWire.SkipsField | iosApp/Pods/nanopb/pb_decode.c:321-331 | A field of any wire type is skipped to its end |
| PbWire.SkipsOnly | iosApp/Pods/nanopb/pb_decode.c:321-331 | Exactly eight bytes at wire type 1 and four at 5, and nothing at types the encoding does not have |
| PbWire.ResultRead | iosApp/Pods/nanopb/pb_decode.c:934-1082 | Whatever order and parts a message is written in, with unknown fields anywhere and at any depth: what is decoded is what its items mean, one after the other, and decoding fails exactly if an array overflows, a string leaves no room for its end, or one of the first 64 required fields is missing, at any depth |
| PbWire.ItemsAreEncoded | iosApp/Pods/nanopb/pb_encode.c:528-550 | The encoding of every fitting message is such items |
| PbWire.ForwardCompatible | iosApp/Pods/nanopb/pb_decode.c:966-995 | A fitting message encoded with further fields at any place and depth, of any wire type and of tags its descriptors do not have, is decoded as it is without them |
| PbWire.ZeroEndsMessage | iosApp/Pods/nanopb/pb_decode.c:310-314 | A tag of zero ends a message, whatever follows it |
| PbWire.LastValueCounts | iosApp/Pods/nanopb/pb_decode.c:414-422 | Of a singular field that is sent more than once the last value counts |
| PbWire.ArrayCollects | iosApp/Pods/nanopb/pb_decode.c:424-464 | An array has all that was sent, in order, whether packed, in parts or one by one |
| PbWire.LastMemberIsSet | iosApp/Pods/nanopb/pb_decode.c:466-478 | Of a oneof only the member that was sent last is set |
| PbWire.PartsAreMerged | iosApp/Pods/nanopb/pb_decode.c:1525-1570 | A submessage sent in two parts is the submessage sent at once |
| PbWire.AnyNumberRead | iosApp/Pods/nanopb/pb_decode.c:1345-1430 | What each integer field makes of the varint of any number below 2^64: the low 32 bits in two's complement, the number, or the zigzag of it; what does not fit is refused |
| PbWire.AnyBoolRead | iosApp/Pods/nanopb/pb_decode.c:1334-1343 | Any 32 bit number but zero is read as true |
| PbWire.AnyStringRead | iosApp/Pods/nanopb/pb_decode.c:1487-1523 | A string is refused if and only if it leaves no room for its end, and else read up to its first zero |
| Formats.MessageBytes | iosApp/Pods/nanopb/pb_encode.c:669-672 | The bytes of a number, a string, a submessage and a packed array with their tags |

## Left out

- Recovery.RecoverMatchesExactly: edits are those that add, to a level, numbers it does not hold at that time, as the running database makes them; for other edits nothing is stated.
- LsmTheorem.NextKeepsInv: flush, compaction and move are atomic up to their `LogAndApply`; a compaction with other steps in between is `LongCompaction`.
- LongCompaction.RunKeepsInv: its runs install compactions that meet neither the hazard nor a flushed file, because after one that does the invariant is false (`LongCompaction.InstallKeepsInv`). That writes go on while a flush builds its table is not modelled.
- Engine.EngineRunIsOk: as long as sequence numbers stay below the greatest one.
- FlushOverlap.GapIsFilled: the level of the flush and the inputs of the compaction are those that `PickLevelForMemTableOutput` and `CompactRange` give by their contracts; a lemma cannot call the methods.
- BlockReader.BuildAndScan: nothing is stated for a block of 4 GB or more.
- BlockReader.OpensContents: the same.
- FilterBlock.FilterAt: nothing is stated for a filter block of 4 GB or more.
- FilterBlock.NeverHides: the same.
- Compaction.Compaction.DoCompactionWork: where output files are cut (`ShouldStopBefore`, file size) is a parameter, and the result holds for every choice.
- CompactionInputs.SetupOtherInputs: the compaction pointer it leaves behind is not modelled.
- CompactionInputs.PickCompaction: the level is a parameter, and a compaction that too many seeks ask for is not modelled.
- LsmTheorem.RunKeepsInv: its runs hold compactions that do not meet the hazard, because after one that does the invariant is false (`LsmTheorem.CompactKeepsInv`; `Resurrection.DeletedKeyComesBack` is an input), and the code does not rule them out.
- Table.Open: is about files written by the table builder whose blocks are below 4 GB; corrupted tables are not modelled.
- BlockReader.Iter.Seek: corrupted blocks are not modelled; `Block::Iter` reports them as errors.
- BlockReader.Iter.ParseNextKey: the same.
- TableFormat.ReadBlock: blocks compressed with Snappy are not modelled.
- TwoLevel.BuildAndScanTable: nothing is stated for a file of 4 GB or more.
- TwoLevel.BuildAndLookUp: the same.
- DbScan.NewIterator: an iterator is over what the store holds when it is made; that later inserts into the same memtable leave its live entries as they are is `DbIter.LaterInsertsUnseen` and `Engine.ScansAreFixed`, not part of the cursor. For a single child the source hands back the child itself instead of a merging iterator over it.
- GroupCommit.RunKeepsInv: `MakeRoomForWrite` is a parameter, its answer; that a null batch riding in a group forces no switch of the memtable is therefore not visible.
- Bloom.CreateFilter: the number of probes and the hash are parameters, because the first comes from floating point; the bit size is not cut to the machine word.
- SkipList.SkipList.Insert: the coin flips of the height are a parameter; memory order is not modelled, only the order of the single stores.
- SkipReader.SearchIsLinear: loads and stores are interleaved one by one.
- GroupStore.GroupsRefineStore: between two switches of the memtable, and as long as sequence numbers stay below the greatest one; with switches and all background work in between it is `Engine.EngineRefinesStore`.
- LruCache.LRUCache.Unref: the deleter is a log of handles; the destructor of the cache, and its shards, are not modelled.
- HandleTable.HandleTable.FindPointer: `hash & (length - 1)` is written as a remainder, which is the same as lengths are powers of two.
- LogReader.Reader.ReadPhysicalRecord: the initial offset of a reader is not modelled.
- LogReader.Reader.ReadRecord: a reader that starts at an offset, resynchronizes or tells record offsets is not modelled; reading does not fail.
- PbMessage.MsgRoundTripExactly: contents of absent fields are not represented, so the round trip is up to them.
- PbEncode.Encode: size overflow of the byte counter, callbacks, extensions, pointer fields and fixed-count arrays are not modelled.
- PbEncode.OStream.Write: overflow of the byte counter and a callback that fails are not modelled.
- PbDecode.DecodeNoinit: callbacks, extensions, pointer fields and builds without 64 bit numbers are not modelled; an optional submessage that was absent is decoded over its defaults, not over what its memory holds.
- Client.HistoryIsContained: as long as sequence numbers stay below the greatest one, as for `Engine.EngineReadsHistory`.
- Client.ReadsAreContained: the same.
- Client.ScansAreContained: the same.
- LogDamage.DamageIsLocal: what is returned of records that begin before the boundary is not stated, as the damage may be anything.
- PbWire.ResultRead: tags, lengths and numbers are varints in their shortest form; what 32 bit varints in other forms give is `PbVarint.ReadsExactly`. A known field with the wire type of another kind is not stated.
- Version references, reference counts of memtables and deletion of obsolete files.
- Read sampling, seek-triggered compaction, the choice of the level by size, and the compaction pointers after a compaction.
- Snappy, hardware CRC, mmap, environment, file names, repair, logging and the C interface.
- The block cache and the table cache.
- Threads, mutexes and condition variables; a step is what happens under the mutex.
- `DbImpl` keeps the sequence numbers of the snapshot list, and `Lsm` keeps memtables as sorted runs; the linked structures behind them are `SnapshotList` and `SkipList`.
- The JavaScript functions, the Swift interface and BoringSSL are not modelled.
