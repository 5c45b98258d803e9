# Lentovodec: a model of tape backup, chain restore and their bookkeeping

Lentovodec backs files up onto LTO cartridges. A cartridge is a sequence of blocks and
filemarks: a label, two segments (index and tar) for each session, and a closing pair of
marks. Every position follows from counting marks, and any write destroys what lies behind
it. A backup that does not fit one cartridge goes on to the next; pointers at the end of a
cartridge and back references at the beginning of the next one make a chain. A catalogue
mirrors what lies on the cartridges. This project models that machinery in Dafny and proves
what the program relies on:

- **Tape** (`TapeMachine`, `FakeTape`, `FileTape`, `BlockIO`): the abstract tape with a
  capacity; the byte-level tape file refines it operation by operation; byte streams survive
  any chunking.
- **Format** (`Canonical`, `TapeFormat`, `CodecWitness`, `Layout`): the length-prefixed
  canonical form is injective; index, label, pointer and tar read back as written; positions
  by counting marks.
- **Planner** (`Grouping`, `SpanPlanner`, `SpanPlannerTheorems`, `PlanOnTape`, `TapeNames`): what
  the directory groups below the roots of a job are; greedy planning with group rollback keeps
  order, is optimal, and refines planning of whole groups; all of it measured by what the parts
  take in their tar streams.
- **Backup run** (`WritePart`, `Snapshot`, `Verify`, `Chains`, `SpanRun`, `Backup`): one part on one
  cartridge and its restoration after a failure at any item; the loop over parts with planned
  changes, moves off full cartridges and rollback, and what every end of it is due to; the
  configuration snapshot every session carries or refers back to.
- **The whole system** (`Catalog`, `World`, `Format`, `Station`, `Backup`, `Rebuild`): after
  every format and every way a backup can end, each cartridge is within its capacity, its
  sessions are numbered as they lie, and its rows are numbered from 1 and mirror its first
  sessions; a rebuild completes them and is idempotent.
- **Restore** (`Destination`, `DiskLaws`, `Replay`, `Restore`, `ScanOnDisk`, `RoundTrip`, `Plain`,
  `RestoreExamples`, `Smart`): the directory a restore writes to, with directories, links and
  files that may have several names; what a restore of a chain reads and writes, exactly when
  it comes to the end, and exactly what is then held of every entry of the walk; histories in
  which everything comes back, and inputs for which it does not; the freshest healthy copy of
  chosen paths.
- **Scanner** (`Scanner`, `ScannerTheorems`): what a walk adds to the list of the last session,
  and what the lists, one patched onto the other, then say of each path.
- **Device gate and tasks** (`TapeGate`, `TaskState`): all interleavings of handlers and task
  goroutines; exclusive use, nobody new at the device between a reservation and its release,
  no refusal after a reservation, no deadlock, termination.

`dafny verify dfyconfig.toml` checks all of it.

## How it is modelled

Objects that change in place are classes (`FakeTape`, `FileTape`, the block writer and
reader, `Catalog`, `SpanState`, `SpanRun`, `Scanner`, `Task`); each method is proved against
a function of the old state. A ghost `Cart` describes the layout of a cartridge, a ghost
`World` all cartridges. The gate is a transition system: one step is one critical section,
one lock or unlock, or one move of a thread.

JSON, tar and the digests are functions in a `Codec` about which only `Lawful` is assumed:
printed JSON is not empty, does not end in a zero byte and parses back; padding behind a tar
stream does not change what is read from it. `CodecWitnesses.LawfulExists` shows that these
laws can be met. Nothing is assumed about the digests.

The destination is a directory reached as internal/iface/destfs does it: nothing is written
through a symbolic link. Its operations do what internal/port/filesystem.go:70-89 says and
internal/adapter/osfs/writer.go does.

An operation that can fail for reasons outside the model (catalogue, changer, clock, network,
a file that cannot be read, a destination that is full) fails or not by an arbitrary choice;
the contracts hold for every choice, and ghost results called `fault` say whether one was made,
so that every other way to fail is given its exact reason. The only fault of a tape is the capacity refusal of the
file tape, and a failure to re-read a part for verification; a capacity of 0 means no limit.

## Where the code does not do what it says

- A forced full backup drops the sessions of the cartridge but is scanned against the last of
  them, although internal/usecase/backup/usecase.go:357-358 promises no snapshot for it; a
  move to a new cartridge before the first part has the same effect on the new chain. What
  was unchanged is then on no cartridge of the chain. `RestoreExamples.ForcedFullLosesFiles`
  is the failing input; `RoundTrips.BackupReadsBack` says exactly what is restored.
- A restore is said to give back what was walked. It ends with an error at the first entry that
  does not fit what earlier sessions left, and the rest of the chain is not read:
  `RestoreExamples.ReplacedDirectoryIsRefused`. A file is truncated in place, so names that
  shared a file in an earlier session share it still:
  `RestoreExamples.HardLinkTakenApart`. `RoundTrips.BackupReadsBack` says exactly when a chain
  is read to its end and what each entry comes to; `PlainHistories.EverythingComesBack` gives
  a condition on the lists of the sessions under which neither happens.
- Tombstones are applied in alphabetical order, a directory before what lies in it, and only
  empty directories can be removed. A directory that was not empty stays:
  `RestoreExamples.NonemptyDirectoryStays`; `ScanOnDisk.FullAndIncrementRestore` and
  `ScanOnDisk.VanishedPath` say exactly what stays.
- A deletion is noticed only if the last session named the file, because a scan is compared
  with the files of the last session alone. `ScannerTheorems.UnvisitedPath` gives the exact
  condition, `ScannerTheorems.DeletionIsForgotten` all runs of three sessions where a deleted
  file stays listed, `RestoreExamples.DeletedFileComesBack` one in which a restore brings it
  back.
- `unchanged` does not compare the kind of an entry, and compares with tombstones as with
  files. `ScannerTheorems.WalkedPathIsShown` states exactly when an entry is missed and when
  its kind is wrong, `ScannerTheorems.TombstoneLookalikeIsMissed` and
  `ScannerTheorems.ReplacedDirectoryKeepsItsKind` are inputs for both.
- A damaged session is said to be skipped without affecting the others. On the first
  cartridge the index mark is already behind the tape when the two marks are passed, so the
  index of the next session is passed as well, or the pointer that closes the cartridge, and
  the rest of the chain is then dropped without an error: `Restoring.SkipPassesTheNextIndex`
  says exactly when that happens. On later cartridges the marks are passed on the first
  tape, and nothing is skipped on the one being read:
  `Restoring.LaterCartridgesAreNotSkipped`.
- A run rolls its rows back on every failure but three. A failed verification and a part that
  does not fit a whole cartridge keep the rows of the parts written (`SpanRuns.SpanRun.Run`);
  a write position that cannot be reached keeps the row of the part at hand
  (`WriteParts.WritePart`), which cannot happen on a laid-out cartridge.
- A cartridge that was taken and then abandoned without a session breaks the chain for a
  restore: `RoundTrips.ChainIsLinked`.
- docs/FORMAT.md names `sha256-canon2` as the rule of new tapes in section 5 and canon3 in
  section 5.2; the code writes canon3, and so does the model.
- docs/FORMAT.md (section 3) counts 2K+3 marks on every tape; a freshly formatted one has
  two marks in all, as `Formatting.FreshCart` has it.

## Model

| member | source | states |
|---|---|---|
| `TapeMachine.ForwardExactly` | internal/testutil/faketape.go:106-124 | moving n marks forward ends at p if and only if p lies right behind a mark and exactly n marks lie between; for every tape, start, n and p |
| `TapeMachine.BackwardExactly` | internal/testutil/faketape.go:128-146 | the same for moving backward: n-1 marks lie between p and the start |
| `TapeMachine.ForwardSucceeds` | internal/testutil/faketape.go:106-124 | a forward move succeeds if and only if n marks lie ahead |
| `TapeMachine.SegmentOf` | internal/testutil/faketape.go:57-74 | blocks laid down before a mark are the segment a reader gets from their first block on |
| `FakeTapes.FakeTape.ReadBlock` | internal/testutil/faketape.go:57-74 | returns the block at the position or end of file; a mark is consumed, the end of data is not |
| `FakeTapes.FakeTape.Write` | internal/testutil/faketape.go:77-102 | cuts off what lies behind the position and appends one item; a write over the capacity is refused and changes nothing |
| `FakeTapes.FakeTape.ForwardFilemarks` | internal/testutil/faketape.go:106-124 | goes where the abstract forward move goes, and stays where it was if there are too few marks |
| `FakeTapes.FakeTape.BackwardFilemarks` | internal/testutil/faketape.go:128-146 | the same for the backward move |
| `FileTapes.FileTape.Open` | internal/adapter/filetape/filetape.go:94-134 | opening with a limit succeeds on exactly the empty and the well-formed files, without one on every file that begins with the magic; the content is kept, and a well-formed file stands for its parsed items at their beginning |
| `FileTapes.FileTape.UsageUpTo` | internal/adapter/filetape/filetape.go:354-370 | succeeds exactly at record boundaries and then gives the usage of the items before the offset |
| `FileTapes.FileTape.ReadBlock` | internal/adapter/filetape/filetape.go:138-161 | commutes with the abstract read, result and position |
| `FileTapes.FileTape.Append` | internal/adapter/filetape/filetape.go:311-348 | commutes with the abstract write; refused exactly if the item does not fit, and then the whole object is unchanged |
| `FileTapes.FileTape.WriteBlock` | internal/adapter/filetape/filetape.go:165-179 | writes the block padded with zeros; a block longer than a tape block is an error that changes nothing |
| `FileTapes.FileTape.WriteEOF` | internal/adapter/filetape/filetape.go:182-189 | commutes with writing a mark; a refusal changes nothing |
| `FileTapes.FileTape.ForwardFilemarks` | internal/adapter/filetape/filetape.go:193-219 | commutes with the abstract forward move |
| `FileTapes.FileTape.BackwardFilemarks` | internal/adapter/filetape/filetape.go:223-249 | commutes with the abstract backward move, computed from the list of mark offsets |
| `FileTapes.FileTape.EndOfData` | internal/adapter/filetape/filetape.go:263-271 | goes behind the last item |
| `FileTapes.AppendRecord` | internal/adapter/filetape/filetape.go:311-348 | a record appended at a boundary parses to the items before it and the new one, whatever lay behind |
| `FileTapes.Uint32RoundTrip` | internal/adapter/filetape/filetape.go:290-305 | the length word of a record header is read as it was written |
| `BlockIO.TapeBlockWriter.Write` | internal/adapter/tapeformat/blockio.go:43-55 | accepts bytes in any chunks; the blocks on the tape and the buffer together hold what was accepted; the first refusal sticks |
| `BlockIO.TapeBlockWriter.Flush` | internal/adapter/tapeformat/blockio.go:59-72 | on success the blocks hold exactly the bytes accepted, in ceil(n/BLOCK_SIZE) full blocks with less than one block of padding; zero padding for a stream of one block |
| `BlockIO.TapeBlockReader.Read` | internal/adapter/tapeformat/blockio.go:84-102 | hands out the next bytes of the segment, at most m of them, never none before the end; at the end the tape stands behind the segment's mark |
| `BlockIO.WriteStream` | internal/adapter/tapeformat/blockio.go:43-72 | a whole stream, given in any chunks; it is refused only where one of the blocks its bytes need does not fit |
| `BlockIO.WriteThenRead` | internal/adapter/tapeformat/blockio.go:43-102 | for any chunking of writes and any read size the bytes come back, padded to the next block boundary |
| `Canonical.JobConfigInjective` | internal/domain/jobhash.go:44-66 | two configurations with the same canonical form are equal, order of paths and excludes included |
| `Canonical.SnapshotInjective` | internal/adapter/tapeformat/index_hash.go:127-132 | an absent snapshot is told apart from every snapshot |
| `Canonical.CanonicalInjective` | internal/adapter/tapeformat/index_hash.go:65-112 | for each of canon1, canon2 and canon3: equal forms mean equal covered fields, file lists included |
| `Canonical.CanonicalCoversNoMore` | internal/adapter/tapeformat/index_hash.go:65-112 | the converse: equal covered fields give equal forms |
| `Canonical.RulesNeverCoincide` | internal/adapter/tapeformat/index_hash.go:65-112 | forms of different rules never coincide |
| `Canonical.SealVerifies` | internal/adapter/tapeformat/index_hash.go:141-170 | a sealed index passes its own check |
| `Canonical.TamperingIsACollision` | internal/adapter/tapeformat/index_hash.go:152-170 | an index that passes the check with the checksum of a sealed one agrees with it on all covered fields, or the two forms are a collision of the digest |
| `TapeFormat.TrimUndoesPad` | internal/adapter/tapeformat/label.go:96-109 | trimming undoes padding if and only if the data does not end in a zero byte |
| `CodecWitnesses.LawfulExists` | internal/adapter/tapeformat/label.go:35-77 | the laws assumed of the codec can be met, with any digests: a prefix-free coding of documents and tar entries has them |
| `TapeFormat.LabelRoundTrip` | internal/adapter/tapeformat/label.go:35-77 | a label of ours decodes to itself |
| `Formatting.HeadIs` | internal/adapter/tapeformat/label.go:49-77 | what a tape begins with, read off the first block: a label of ours, one of the family with another magic or a newer version, one of ours with a broken time stamp, or nothing to respect; each if and only if the text says so |
| `TapeFormat.IndexRoundTrip` | internal/adapter/tapeformat/decoder.go:123-166 | an index written by the encoder is read as sealed, with no damage reported |
| `TapeFormat.IndexIsRead` | internal/adapter/tapeformat/decoder.go:123-166 | what the bytes of an index segment are read as, for every text: the end for zeros alone, a pointer, a newer format, an index exactly if type, states, kinds and targets are known ones and the sum agrees, damage otherwise |
| `TapeFormat.AlteredIsNotRead` | internal/adapter/tapeformat/decoder.go:144-153 | bytes that carry the sum of a sealed index but differ from it in what the rule covers are damaged, or of a newer format, or show a collision of the digest |
| `TapeFormat.PointerIsWritten` | internal/adapter/tapeformat/continuation.go:81-99 | a pointer is written if and only if it names a cartridge and its text takes no more than a block of 262144 bytes, which holds the text and zeros |
| `TapeFormat.ContinuationRoundTrip` | internal/adapter/tapeformat/continuation.go:55-99 | a pointer block is read as that pointer, never as an index or as the end |
| `TapeFormat.TarRoundTrip` | internal/adapter/tapeformat/decoder.go:229-317 | a tar stream of unchanged files with distinct paths passes every check of the reader, whatever padding follows |
| `TapeFormat.EntryTells` | internal/adapter/tapeformat/encoder.go:195-262 | the tar entry of a file: its name; directory, symbolic link, hard link or regular file; size and content of a regular file, target of a link |
| `TapeFormat.EntryIsChecked` | internal/adapter/tapeformat/decoder.go:288-411 | an entry passes if and only if it is a directory, or of the kind, size, sum and target the index lists under its name; sha256 where one is recorded, xxhash otherwise |
| `TapeFormat.StrangerFails` | internal/adapter/tapeformat/decoder.go:255-258 | an entry the index does not list never passes |
| `TapeFormat.LostEntryIsDamage` | internal/adapter/tapeformat/decoder.go:274-285 | a stream that lost an entry of a live file is never read as a success |
| `TapeFormat.WrongDataAreDamage` | internal/adapter/tapeformat/decoder.go:376-411 | a stream with a regular file of another size or sum than recorded is never read as a success |
| `Layout.MarksOfBody` | docs/FORMAT.md:46-76 | label and k sessions hold 2k+1 marks |
| `Layout.PositionOf` | internal/usecase/backup/usecase.go:388-393 | mark 2k+1 of a laid-out cartridge ends right behind its first k sessions, and these are what lies before it |
| `Layout.SessionAt` | internal/adapter/tapeformat/decoder.go:54-71 | from there the two segments of session k+1 are read, and the tape then stands at session k+2 |
| `Layout.TailAt` | internal/adapter/tapeformat/decoder.go:123-138 | behind the last session the pointer block is read, or nothing |
| `Catalogs.Catalog.CreateSession` | internal/testutil/memcatalog.go:105-122 | without a failure of the catalogue a row under a new key if and only if the cartridge is registered; nothing else changes |
| `Catalogs.Catalog.SaveFiles` | internal/testutil/memcatalog.go:141-155 | adds all files to the session, or none: exactly if the session is there and the catalogue does not fail |
| `Catalogs.Catalog.DeleteSession` | internal/testutil/memcatalog.go:332-344 | removes exactly the row and its files |
| `Catalogs.Catalog.ListSessions` | internal/testutil/memcatalog.go:215-234 | all rows of the cartridge, or of every cartridge for an empty identifier, each once, by cartridge and number |
| `Catalogs.Catalog.LastSession` | internal/usecase/backup/usecase.go:574-581 | the largest session number and a row that has it |
| `WriteParts.DetourReturns` | internal/usecase/backup/usecase.go:461-492 | back three marks, read a segment, forward one mark leads to mark 2K+1 again, on every tape that has that mark |
| `WriteParts.PrevJobConfigHash` | internal/usecase/backup/usecase.go:471-504 | leaves the write position where it was, whether or not the previous index could be read; without a read failure the hash is the one in that index, if it is one |
| `WriteParts.Deduplicates` | internal/usecase/backup/usecase.go:430-459 | the job body is left out if and only if the previous session can be read and carries the same configuration hash |
| `WriteParts.PreviousIsBefore` | internal/usecase/backup/usecase.go:461-492 | on a laid-out cartridge the index read by going back three marks is that of the session before |
| `WriteParts.WriteTar` | internal/adapter/tapeformat/encoder.go:157-240 | a stream that is written is the tar of unchanged files; any stop leaves only blocks behind the position; it is full only where the stream has no room, and fails only for a file that changed or cannot be read |
| `WriteParts.WriteSession` | internal/adapter/tapeformat/encoder.go:81-192 | an invalid index is refused before anything is written; a success adds index segment, mark, tar segment, mark; full only where these have no room, failed only for the index or a file |
| `WriteParts.RecordedReadsBack` | internal/adapter/tapeformat/decoder.go:54-166 | a session as written is read back: the index as sealed, the tar without damage |
| `WriteParts.SessionUsage` | internal/adapter/tapeformat/encoder.go:122-192 | a recorded session takes what its index and tar stream say: whole blocks and one mark each |
| `WriteParts.WrittenIndexTells` | internal/usecase/backup/usecase.go:418-458 | what is read back from the tape where a session was written: job name, time stamp, run, part and back reference, version and source of the configuration, its hash, the files, and the job itself exactly if it was not left out |
| `WriteParts.CloseEOD` | internal/usecase/backup/usecase.go:532-540 | writes as many of the two closing marks as fit |
| `WriteParts.RestoreEOD` | internal/usecase/backup/usecase.go:515-529 | the tape becomes the front up to mark 2K+1 and the marks that fit; unchanged if none fits |
| `WriteParts.WritePointerEnd` | internal/usecase/backup/span.go:331-353 | puts pointer and closing marks behind the first K sessions as far as they fit; succeeds if and only if all fit and the pointer has a name and takes one block |
| `WriteParts.WritePart` | internal/usecase/backup/usecase.go:378-421 | never changes an item before mark 2K+1; on success adds exactly session, pointer and closing pair, and its index reads back with this run, configuration, files and, unless the previous one carries its hash, the job; on any failure the tape is restored and the row deleted; written only if all of it fits the capacity, full only if not, and failed only if a file cannot be read or changed, a file is invalid or the pointer takes no block |
| `WriteParts.FailureRestores` | internal/usecase/backup/usecase.go:515-540 | on a cartridge whose K sessions are followed by a closing pair or more sessions, the restoring pair always fits, at whatever block or mark the write failed; with a plain closing pair the cartridge is unchanged |
| `WriteParts.FailureFits` | internal/usecase/backup/usecase.go:515-540 | a cartridge within its capacity is still within it after a failed part |
| `WriteParts.WritePartOnCart` | internal/usecase/backup/usecase.go:378-421 | the same in terms of the cartridge: the first K sessions and the part, or the first K sessions closed again |
| `Snapshots.NearestJobIsTheOne` | internal/usecase/backup/usecase.go:423-458 | going back from any session of a cartridge a job is found, and the nearest one has the hash this session carries |
| `Worlds.JobIsAtHand` | internal/usecase/backup/usecase.go:423-458 | the same on every cartridge that formats and backups leave behind, for they keep it in order |
| `SpanPlanner.SpanState.Push` | internal/domain/span.go:141-147 | state change of the accumulator, against the functional planner |
| `SpanPlanner.SpanState.Cut` | internal/domain/span.go:150-155 | state change of the accumulator, against the functional planner |
| `SpanPlanner.SpanState.RollbackGroup` | internal/domain/span.go:160-170 | state change of the accumulator, against the functional planner |
| `SpanPlanner.GroupStats` | internal/domain/span.go:175-185 | the group key of every file below the roots of the job, and for each key the total budget of its group |
| `Grouping.NormalizeIsIdempotent` | internal/domain/filter.go:30-34 | normalising a normalised path changes nothing |
| `Grouping.WithinBySegments` | internal/domain/span.go:243-256 | one clean path lies in another exactly if its segments begin with the other's, the root directory and relative paths included |
| `Grouping.LongestRootIsLongest` | internal/domain/span.go:243-256 | the root found is the longest of all normalised roots the path lies in; empty exactly if there is none |
| `Grouping.FindRoot` | internal/domain/span.go:243-256 | the loop over the roots computes that root |
| `Grouping.GroupIsAncestor` | internal/domain/span.go:187-217 | the group of a path is a directory between the path and its longest root, at most depth levels below it; it is its own group under the same root |
| `Grouping.GroupMembers` | internal/domain/span.go:187-217 | two paths share a group if and only if they have the same longest root and either the group lies depth levels below it and both paths in it, or they are the same path |
| `Grouping.OutsideIsAlone` | internal/domain/span.go:187-217 | a path outside every root shares its group with nothing else |
| `Grouping.FilesFollowTheirDirectory` | internal/domain/span.go:219-241 | a file has the group of the directory it lies in |
| `SpanPlanner.PlanSpan` | internal/domain/span.go:104-128 | the loop computes the functional plan, whose laws are the following lemmas, in terms of costs here and of tar entries below |
| `SpanPlannerTheorems.PlanFailsExactly` | internal/domain/span.go:109-127 | with a budget, planning fails if and only if one entry exceeds it, and names such an entry |
| `SpanPlannerTheorems.PlanKeepsOrder` | internal/domain/span.go:104-128 | the parts, one after the other, are the files in scanner order; no budget gives one part |
| `SpanPlannerTheorems.PlanFillsParts` | internal/domain/span.go:104-128 | each part is within the budget, and none is empty unless there are no files |
| `SpanPlannerTheorems.GroupsStayTogether` | internal/domain/span.go:110-170 | a cut falls between two groups or inside a group too large for a cartridge |
| `SpanPlannerTheorems.PlanIsOptimal` | internal/domain/span.go:104-155 | without grouping no order-preserving partition within the budget has fewer parts |
| `SpanPlannerTheorems.GroupedPlanIsPlanOfGroups` | internal/domain/span.go:110-170 | when every group is contiguous and fits, grouped planning is plain planning of whole groups |
| `SpanPlannerTheorems.GroupedPlanIsOptimal` | internal/domain/span.go:110-170 | so no partition that keeps groups whole has fewer parts |
| `SpanPlannerTheorems.PartsAreTheFiles` | internal/domain/span.go:104-128 | the parts planned for a scan result concatenate to it |
| `PlansOnTape.CostIsOnTape` | internal/domain/span.go:279-287 | the budget a file is charged is the size of the regular entry it makes in the tar stream, nothing if it makes none |
| `PlansOnTape.PartsFitCartridges` | internal/domain/span.go:104-128 | in every part planned with a budget the regular entries of its tar stream sum to at most the budget |
| `PlansOnTape.PlanningFailsExactly` | internal/domain/span.go:109-127 | planning fails if and only if a single regular entry of the tar stream is larger than the budget, and names a file that makes one |
| `PlansOnTape.PlanningIsOptimal` | internal/domain/span.go:104-155 | without grouping no partition that keeps the order, and whose tar streams fit the budget, has fewer parts |
| `PlansOnTape.DirectoriesStayTogether` | internal/domain/span.go:110-170 | between two parts the directory group changes, unless the regular entries of its files exceed the budget |
| `PlansOnTape.GroupedPlanningIsOptimal` | internal/domain/span.go:110-170 | when every directory group fits, no partition that keeps them whole, measured by tar entries, has fewer parts |
| `TapeNames.NextNameDiffers` | internal/domain/span.go:289-310 | a cartridge is never named as its own continuation, even where the number overflows |
| `TapeNames.NextNameCounts` | internal/domain/span.go:297-304 | a name that ends in a number is followed by the same name with the next number, in as many digits unless it needs more |
| `TapeNames.NextNameStarts` | internal/domain/span.go:305-309 | a name without a number, or with one that is no Go int, is followed by that of the job, or its own, and -002 |
| `SpanRuns.RequestNext` | internal/usecase/backup/span.go:254-271 | the changer's answer: a freshly formatted cartridge under an identifier the catalogue did not have; taken if and only if it was given with a name, bears no label of the family, has room for one, and the catalogue does not fail |
| `SpanRuns.RollbackRows` | internal/usecase/backup/span.go:317-325 | removes exactly the rows of the run, with their files |
| `SpanRuns.SpanRun.Swap` | internal/usecase/backup/span.go:254-271 | the next cartridge is empty and in the drive, the budget is the full capacity; it fails exactly if changer or catalogue do, and then changes nothing of the run |
| `SpanRuns.SpanRun.Link` | internal/usecase/backup/span.go:241-271 | the cartridge closed becomes a link of the chain; a failure brings the catalogue back |
| `SpanRuns.SpanRun.BeginPart` | internal/usecase/backup/span.go:167-203 | number, type, part and pointer of the part; its row; only a failure of catalogue or changer prevents it and brings the catalogue back |
| `SpanRuns.SpanRun.Attempt` | internal/usecase/backup/span.go:143-153 | one attempt: the part lies on the cartridge behind what it kept, or cartridge and catalogue are as before; unless a file or the pointer cannot be written, written if and only if it has room behind the sessions kept |
| `SpanRuns.SpanRun.Settle` | internal/usecase/backup/span.go:212-235 | the written part gets its files unless the catalogue fails; a verification fails only with the medium or for doubled paths, and keeps the part without going on |
| `SpanRuns.SpanRun.Commit` | internal/usecase/backup/span.go:212-236 | then the planned change of cartridge, unless it was the last part |
| `SpanRuns.SpanRun.AbandonTape` | internal/usecase/backup/span.go:331-353 | a full cartridge is closed behind the sessions it keeps by exactly this pointer, if and only if pointer and marks have room there and the pointer takes one block |
| `SpanRuns.SpanRun.MoveAfterENOSPC` | internal/usecase/backup/span.go:289-309 | a move strictly lowers the number of attempts left; only a fault or a cartridge that cannot be closed rolls the run back; the second refusal at full capacity ends it and keeps the rows of the parts written before |
| `SpanRuns.SpanRun.Turn` | internal/usecase/backup/span.go:138-161 | one turn of the loop: a part entered, or moved, or the end; unless a file or the pointer cannot be written, the part is on the tape if and only if it has room; it is moved if and only if it has none and there are a changer and a capacity; what each way to end is due to |
| `SpanRuns.SpanRun.Run` | internal/usecase/backup/span.go:132-163 | at most 2n+1 attempts for n parts; a finished run has one row with its files for each part, under its run identifier, and all parts in order on a chain of linked cartridges; every other end but the two that keep the parts written leaves the rows and files of before. It is rolled back only if catalogue, changer or a file failed, a part cannot be written anywhere, or a part found no room and there is no changer or no capacity, or the cartridge that refused it could not be closed; too big only if refused behind nothing at full capacity |
| `Verifying.VerifyPart` | internal/usecase/backup/verify.go:46-90 | on a sound medium the verdict says whether the session reads without damage and lists as many files as were written |
| `Verifying.WrittenPartPasses` | internal/usecase/backup/verify.go:46-90 | a part written with distinct paths passes, so only the medium can make verification fail |
| `Worlds.TopNumber` | internal/usecase/backup/usecase.go:574-581 | the largest number among the rows of a cartridge in step is their count |
| `Backups.UsedBytes` | internal/usecase/backup/usecase.go:308-322 | bytes of the files of these sessions without tombstones |
| `Backups.BytesAddUp` | internal/usecase/backup/usecase.go:305-322 | these bytes add up over lists and files: the size of a file, nothing for a tombstone |
| `Backups.UsedAddsUp` | internal/usecase/backup/usecase.go:305-322 | and over sessions: the bytes of the files the catalogue has for each |
| `Backups.BytesCoverTheTape` | internal/usecase/backup/usecase.go:305-322 | they are never less than the regular entries of the tar streams sum to |
| `Backups.PlanSpanning` | internal/usecase/backup/usecase.go:252-303 | budget, new-cartridge rule and plan: what is left if it reaches min_tail, else the whole capacity on a new cartridge; it fails if and only if a single tar entry exceeds that budget, or the capacity is negative |
| `Backups.Prepare` | internal/usecase/backup/usecase.go:199-230 | label, rows and last number of the cartridge; the files compared with are those its last session lists |
| `Backups.RunEndsInStep` | internal/usecase/backup/span.go:132-163 | after every way a run can end, rows of each cartridge are numbered from 1 and mirror its first sessions |
| `Backups.WritePlan` | internal/usecase/backup/span.go:70-128 | writes a plan from a world in step to a world in step; the rows of the parts written, under this run identifier; the chain begins with the cartridge in the drive, behind the sessions kept there, or with a new one |
| `Backups.DropAndWrite` | internal/usecase/backup/usecase.go:164-185 | a full backup drops the rows of the cartridge first; a run that is rolled back leaves the rows of before, without the dropped ones |
| `Backups.Backup` | internal/usecase/backup/usecase.go:142-185 | scan, plan, write: catalogue and cartridges are in step, numbered and within capacity before and after. No cartridge if and only if the tape bears no readable label the catalogue knows; no changer if and only if more than one part is planned, it is no dry run and there is none; nothing changes before the plan stands or on a dry run; why a run ended as it did; the rows after a rollback; otherwise one row with its files for each part written, under this run identifier; after a finished run first cartridge, kept sessions, scan, plan and cartridges left behind |
| `Stations.FormatCartridge` | internal/usecase/format/usecase.go:66-105 | formatting keeps catalogue and cartridges in step and in order; the cartridge leaves under its old identifier and enters under the new one; refusals change nothing, and only room or the catalogue make it fail |
| `Formatting.Format` | internal/usecase/format/usecase.go:66-105 | for every first block of the tape: a label of ours is refused unless forced, one of a newer format or a broken one of ours always, with the tape unchanged, and nothing else for what it says; then it succeeds if and only if the label fits and the catalogue does not fail; a formatted tape is the label and two marks, and is registered |
| `Restoring.ReadSession` | internal/adapter/tapeformat/decoder.go:54-71 | outcome and position for every content of the two segments at the position; an index that was tampered with is damage unless it shows a collision of the digest |
| `Destinations.Destination.Extract` | internal/adapter/tapeformat/decoder.go:288-420 | one tar entry: checked against the index, put in its place if the filter lets it through, a file that does not pass removed again |
| `Replaying.WrongDataAreRemoved` | internal/adapter/tapeformat/decoder.go:376-425 | a regular file with another sum than recorded is damage, and none is left in its place; where the filter holds it back nothing is touched |
| `Destinations.Destination.ExtractAll` | internal/adapter/tapeformat/decoder.go:229-268 | the entries of a stream in order, up to the first that is damaged or refused |
| `Destinations.Destination.ApplyTombstones` | internal/usecase/restore/usecase.go:389-409 | tombstones in the order of the list; what cannot be removed is left |
| `DiskLaws.OnlyAskedAreCleared` | internal/usecase/restore/usecase.go:389-409 | of a selection only tombstones of the very paths asked for are applied; every other place stays as it was |
| `DiskLaws.PlacesLieInside` | internal/iface/destfs/destfs.go:173-208 | whatever path an index names, it is written inside the destination or refused |
| `DiskLaws.PlacesOfPaths` | internal/iface/destfs/destfs.go:173-208 | an absolute path goes where its segments say, one that leads up nowhere, and the volume name of another system is cut off |
| `DiskLaws.WantedBySegments` | internal/usecase/restore/usecase.go:452-469 | a path is wanted if and only if it is asked for or lies below an asked-for directory other than the root, by segments |
| `DiskLaws.TargetsComeAlong` | internal/adapter/tapeformat/decoder.go:183-213 | besides what is wanted exactly the targets of wanted hard links are written |
| `DiskLaws.MkdirAllAt` | internal/adapter/osfs/writer.go:27-33 | makes a directory and all above it, or changes nothing: exactly where no file or link is in the way |
| `DiskLaws.RemoveAtPlace` | internal/adapter/osfs/writer.go:44-50 | takes away one name, exactly if it is a file, a link or an empty directory |
| `DiskLaws.PutAt` | internal/adapter/osfs/writer.go:27-70 | an entry is accepted exactly if nothing but directories lies above it and what is in its place is of its kind or gives way; what every place and every file then holds, names that share a file included |
| `DiskLaws.PutFrame` | internal/adapter/osfs/writer.go:27-70 | accepted or not: no other place changes but for directories made above, and no data but those of the file truncated |
| `Replaying.StepsShape` | internal/adapter/tapeformat/decoder.go:229-268 | the entries of a tree are all accepted exactly if each fits what was there before; then every place and every file is known |
| `Replaying.StepsClear` | internal/usecase/restore/usecase.go:389-409 | tombstones, no directory behind what lies in it: each takes its place away exactly if nothing was in it before all of them |
| `Replaying.SessionIsSteps` | internal/usecase/restore/usecase.go:96-136 | reading a session whose tombstones come last is putting its files in place one after the other, up to the first refused |
| `Restoring.ReadSessionInto` | internal/adapter/tapeformat/decoder.go:54-71 | outcome, position and destination for every content of the two segments at the position; a tampered index writes nothing |
| `Restoring.Follow` | internal/usecase/restore/chain.go:57-124 | unless the changer fails, the next cartridge is taken if and only if its name is the one pointed to and its first session points back; it then stands at that session |
| `Restoring.FollowsLeg` | internal/usecase/restore/chain.go:57-124 | for laid-out cartridges that is: the link holds |
| `Restoring.AllLinked` | internal/usecase/restore/chain.go:57-124 | the whole chain is reached if and only if every link holds |
| `Restoring.NextTurn` | internal/usecase/restore/usecase.go:96-136 | each turn reads the next session, ends for a stated reason, or moves to the next cartridge |
| `Restoring.Full` | internal/usecase/restore/usecase.go:81-141 | from an intact chain: every session of every cartridge up to the first link that does not hold is read and written, in order and nothing else; it ends at the first entry the destination refuses, and the destination is left as it then is; without a changer the first cartridge and then the pointer; a beginning of that when cancelled or when changer or destination fails |
| `Restoring.RefusedOrRead` | internal/usecase/restore/usecase.go:96-136 | unless stopped from outside it reads all it reaches exactly if the destination accepts every entry |
| `Restoring.SkipPassesTheNextIndex` | internal/usecase/restore/usecase.go:376-387 | after damage noticed anywhere in a session, the next read is undisturbed if and only if neither a session nor a closed pointer follows on the cartridge; where the tape stands otherwise |
| `Restoring.SkipToNextSession` | internal/usecase/restore/usecase.go:376-387 | the tape moved is the one given, over two marks as far as there are marks |
| `Restoring.LaterCartridgesAreNotSkipped` | internal/usecase/restore/usecase.go:376-387 | on a later cartridge nothing is passed, for the first tape is moved: the next session is read exactly if the damaged tar was used up or its rest reads as a damaged index; at its closing mark the restore ends as if there were no more sessions |
| `RoundTrips.RunSessionsReadBack` | internal/adapter/tapeformat/decoder.go:54-166 | the sessions of a run read back as their sealed indexes, behind those that were there before |
| `RoundTrips.ChainIsIntact` | internal/usecase/backup/span.go:132-271 | the cartridges of a finished run form an intact chain: all closed by pointers but the last |
| `RoundTrips.ChainIsLinked` | internal/usecase/restore/chain.go:57-124 | its links all hold if and only if every later cartridge has the name asked for and got a session |
| `RoundTrips.ChainLiesInWorld` | internal/usecase/backup/span.go:132-271 | the cartridges left in the world under the labels of the chain are the chain of the run |
| `RoundTrips.ChainAtHand` | internal/usecase/backup/span.go:132-271 | a restore finds these cartridges as an intact chain |
| `RoundTrips.RunReadsBack` | internal/usecase/restore/usecase.go:81-141 | a restore of the cartridges left behind succeeds exactly if the chain is followable and the destination accepts every session; it then reads the old sessions, then the parts in order, whose files concatenate to the plan's |
| `RoundTrips.ScanReadsBack` | internal/usecase/backup/span.go:132-271 | and, planned from a scan result without doubled paths, the files read behind the old sessions are the scan result |
| `RoundTrips.BackupReadsBack` | internal/usecase/backup/usecase.go:142-185 | from walk to restore, into any destination: the cartridges left by a finished backup are read to the end exactly if the chain is followable, the destination takes the sessions kept, and every new entry fits what those left; then, for every entry looked at and every path that vanished, exactly what the destination holds |
| `PlainHistories.EverythingComesBack` | internal/usecase/backup/usecase.go:142-185 | into an empty destination, where no path changes between directory, symbolic link and file and nothing is a hard link, and the sessions kept were written as they list their files: a followable chain is always read to its end, every entry reported is held, and an entry left out is held if the new sessions build on those it was compared with, and (directories aside) only then; they do unless a full backup is forced onto sessions or a new cartridge is taken first |
| `RestoreExamples.ForcedFullLosesFiles` | internal/usecase/backup/usecase.go:357-368 | an input: a file unchanged since the last session is not restored after a forced full backup |
| `RestoreExamples.ReplacedDirectoryIsRefused` | internal/adapter/tapeformat/decoder.go:365-399 | an input: a directory replaced by a file is refused, and the restore ends |
| `RestoreExamples.HardLinkTakenApart` | internal/adapter/tapeformat/decoder.go:365-399 | an input: of two names of one file that became two files, one ends with the data of the other |
| `RestoreExamples.NonemptyDirectoryStays` | internal/usecase/restore/usecase.go:389-409 | an input: a directory removed with the file in it stays |
| `RestoreExamples.DeletedFileComesBack` | internal/usecase/backup/usecase.go:357-368 | an input: a file gone at the third scan is there after a restore of the three sessions |
| `ScanOnDisk.ScanIsTree` | internal/usecase/scan/scanner.go:58-116 | a scan result is a tree of entries, hard links behind the files they name, and tombstones behind it, no directory after what lies in it |
| `ScanOnDisk.ScanIsPut` | internal/usecase/restore/usecase.go:96-136 | it is put onto a destination without a refusal exactly if every entry fits what is there; what every place then shows |
| `ScanOnDisk.EntryHeld` | internal/adapter/tapeformat/decoder.go:365-409 | an entry is held in the end exactly if it is no file that was there under this name, or the last entry to write that file had data that pass for it |
| `ScanOnDisk.LeftOutHeld` | internal/usecase/scan/scanner.go:147-174 | an entry left out as unchanged is held exactly if the sessions before hold it and no entry wrote its file with data that do not pass |
| `ScanOnDisk.VanishedPath` | internal/usecase/restore/usecase.go:389-409 | a path with a tombstone is gone exactly if nothing lies below it, left by the sessions before or among the new entries |
| `ScanOnDisk.UnsharedIsHeld` | internal/adapter/tapeformat/decoder.go:365-399 | where no two names share a file every entry is held, and every one left out that was held before |
| `ScanOnDisk.FullAndIncrementRestore` | internal/usecase/restore/usecase.go:81-141 | a full and an incremental mirror session, restored into an empty destination: the first is never refused, the second exactly if its entries fit; of what was not met any more exactly that stays which has something listed below it |
| `Rebuilding.RebuildSession` | internal/usecase/catalog/rebuild.go:117-149 | enters the session with its files, or skips it if its number has a row |
| `Rebuilding.RebuildNext` | internal/usecase/catalog/rebuild.go:81-105 | one turn: the session at the position entered or skipped, or the end or pointer recognised |
| `Rebuilding.Rebuild` | internal/usecase/catalog/rebuild.go:53-112 | on a whole cartridge exactly the sessions whose numbers are missing are entered; sessions, files, skipped ones and the next cartridge are reported; only the catalogue can make it fail |
| `Rebuilding.RebuildIsIdempotent` | internal/usecase/catalog/rebuild.go:53-112 | a second rebuild finds nothing missing |
| `Rebuilding.RebuildCompletesStep` | internal/usecase/catalog/rebuild.go:53-112 | a catalogue in step is afterwards in step with all sessions of the cartridge |
| `Rebuilding.RebuildKeepsSystem` | internal/usecase/catalog/rebuild.go:53-112 | rebuilding one cartridge leaves catalogue and all cartridges in step |
| `Rebuilding.RebuildReproduces` | internal/usecase/catalog/rebuild.go:53-112 | from a catalogue that does not know the cartridge the native rows and files come back, and only these exactly if the cartridge has no session without a native row |
| `SmartRestores.CopiesBySession` | internal/usecase/restore/usecase.go:294-314 | every session of this cartridge that mentions a path, each once, newest first |
| `SmartRestores.ReadSelected` | internal/usecase/restore/usecase.go:245-265 | what reading a session for the paths asked for does to the destination, read or damaged |
| `SmartRestores.RestoredAt` | internal/usecase/restore/usecase.go:389-409 | a session that is read leaves a path asked for as it says: its entry, or nothing, or a directory that is not empty where it has a tombstone |
| `SmartRestores.ReadCopy` | internal/usecase/restore/usecase.go:243-266 | a copy that reads settles the paths it mentions and keeps those settled by newer sessions |
| `SmartRestores.DamagedCopy` | internal/usecase/restore/usecase.go:247-261 | a damaged copy, whatever entries it gave, leaves settled paths alone |
| `SmartRestores.Smart` | internal/usecase/restore/usecase.go:216-279 | a path that stands on its own is left over if and only if no session the catalogue knows holds a healthy copy; otherwise the destination holds what the newest such session says |
| `SmartRestores.InStepIsCatalogued` | internal/testutil/memcatalog.go:281-328 | a cartridge in step whose sessions are as a backup writes them meets what that statement asks of the catalogue |
| `Scanning.ExcludedBelow` | internal/usecase/scan/scanner.go:231-244 | a pattern that excludes a directory excludes everything below it |
| `Scanning.Scanner.ScanEntry` | internal/usecase/scan/scanner.go:118-164 | one visit: what is reported, and the paths and inodes seen |
| `Scanning.Scanner.Scan` | internal/usecase/scan/scanner.go:58-116 | the result is the reports in walk order, then in mirror mode exactly the tombstones of vanished paths, in alphabetical order; there is none exactly if the walk or the reading of a file failed |
| `Scanning.Tombstones` | internal/usecase/scan/scanner.go:204-229 | exactly the paths of the snapshot that were not visited and lie under the normalised roots, alphabetically |
| `ScannerTheorems.ScanIsDistinct` | internal/usecase/scan/scanner.go:58-116 | no path occurs twice in a scan result |
| `ScannerTheorems.HardlinksNameTheFirst` | internal/usecase/scan/scanner.go:191-200 | an entry is a hard link if and only if its inode was met before, and names the first entry it was met under, which is none itself |
| `ScannerTheorems.WalkedEntryIs` | internal/usecase/scan/scanner.go:118-200 | the entry of a visit, field by field: path, time stamp, size, kind and target; a hard link exactly if another name of the file was looked at before |
| `ScannerTheorems.ScanTells` | internal/usecase/scan/scanner.go:118-174 | of a path looked at the scan says nothing exactly if the last session lists it with this size, time stamp, class and target; otherwise the entry as walked, added or modified, with both sums of what a regular file holds |
| `ScannerTheorems.ReportIsUnchanged` | internal/usecase/scan/scanner.go:246-263 | what it reports of a regular file passes the check made before writing, while the file holds what it held |
| `ScannerTheorems.TombstonesTell` | internal/usecase/scan/scanner.go:202-219 | a tombstone is in the result exactly for a mirror job, a path the last session lists under a root, and no visit to it; field by field |
| `ScannerTheorems.UnderBySegments` | internal/usecase/scan/scanner.go:221-229 | a path lies under a root exactly if its segments begin with those of the root, whatever way the root is spelled |
| `ScannerTheorems.WalkedPathIsShown` | internal/usecase/scan/scanner.go:147-174 | in what the sessions list, one patched onto the other, an entry is shown as walked if and only if the snapshot has no tombstone its attributes equal; its kind is right if and only if the entry was reported or the snapshot has the same kind |
| `ScannerTheorems.SkippedPathIsKept` | internal/usecase/scan/scanner.go:127-140 | of excluded and special paths the list says what it said before |
| `ScannerTheorems.UnvisitedPath` | internal/usecase/scan/scanner.go:204-229 | an unvisited path leaves the list if it lies under the normalised roots of a mirror job and the last session named it; otherwise it stays in it |
| `ScannerTheorems.DeletionIsForgotten` | internal/usecase/backup/usecase.go:357-368 | from the third session on a deletion is forgotten, for every walk and path: a file unchanged in one session and deleted before the next stays listed |
| `ScannerTheorems.ForgottenDeletion` | internal/usecase/backup/usecase.go:357-368 | a literal run of three scans, the first of them from nothing, where it does |
| `ScannerTheorems.TombstoneLookalikeIsMissed` | internal/usecase/scan/scanner.go:166-174 | a literal input: an empty file with time stamp 0 where the last session has a tombstone is not reported and listed nowhere |
| `ScannerTheorems.ReplacedDirectoryKeepsItsKind` | internal/usecase/scan/scanner.go:166-174 | a literal input: an empty file with the time stamp of the directory it replaced stays listed as a directory |
| `TapeGates.RunKeeps` | internal/iface/web/tapegate.go:53-137 | every interleaving of any number of handlers and task goroutines keeps the invariant of the two locks and the flag |
| `TapeGates.DeviceIsExclusive` | internal/iface/web/tapegate.go:53-137 | at most one operation, probe or task body uses the device |
| `TapeGates.ReservedIsRegistered` | internal/iface/web/handler_tasks.go:176-190 | an active task holds the gate; who reserved the gate is never refused by the registry, and no reservation is taken back |
| `TapeGates.NoNewOperation` | internal/iface/web/tapegate.go:53-82 | over every run from a reservation to its release: whoever besides the owner uses the device then was already at it, in the same place, when the gate was reserved |
| `TapeGates.OnlyOwnersTurnAway` | internal/iface/web/tapegate.go:53-122 | a request is turned away if and only if some thread owns the tape, a probe also while somebody else uses the device for a moment |
| `TapeGates.SomebodyMoves` | internal/iface/web/tapegate.go:53-137 | no deadlock in any reachable state |
| `TapeGates.RunsAreFinite` | internal/iface/web/tapegate.go:53-137 | every schedule is shorter than the steps the threads have ahead |
| `TapeGates.RunsEndOpen` | internal/iface/web/tapegate.go:125-130 | where no thread can move all are done and the gate is open |
| `Tasks.Task.AppendLog` | internal/iface/web/taskregistry.go:298-303 | the log is the last 50 lines of all lines |
| `Tasks.Task.EnterAwaiting` | internal/iface/web/taskregistry.go:260-272 | only a running task waits; it gets a new empty channel |
| `Tasks.Task.Continue` | internal/iface/web/taskregistry.go:277-295 | refused unless the task waits; the send never blocks, and the name is the operator's or the suggested one |
| `Tasks.Task.FinishSuccess` | internal/iface/web/taskregistry.go:184-200 | a finished task stays as it is; the end is announced once |
| `Tasks.Task.FinishError` | internal/iface/web/taskregistry.go:205-222 | the same, also out of a wait |
| `Tasks.FinishedStaysFinished` | internal/iface/web/taskregistry.go:184-254 | terminal states are final under any sequence of calls |
| `Tasks.OnlyTheFirstFinishCounts` | internal/iface/web/taskregistry.go:184-254 | at most one of all finishing calls has an effect, and it decides the state |
| `Tasks.TheFirstFinishTakesEffect` | internal/iface/web/taskregistry.go:184-254 | the first finishing call has an effect, whatever came before it |
| `Tasks.AnswersMatchWaits` | internal/iface/web/taskregistry.go:260-295 | an answer is delivered if and only if a wait is open, so each wait gets at most one |

## Left out

- `Grouping.NormalizePath`: names are sequences of characters, not of bytes; lengths of roots are compared among beginnings of one path, so the order is the same.
- `FileTapes.FileTape.ReadBlock`: on a file opened without a limit whose records are broken, the errors of single reads are not modelled; opening it is.
- `Verifying.VerifyPart`: the verdict is exact on a sound medium; a medium fault is an arbitrary choice, and the only tape fault apart from the capacity.
- `SpanRuns.RequestNext`: identifiers of new cartridges are fresh by choice of the model; a repeated UUID is not.
- `SmartRestores.Smart`: the exact statement covers requested paths that no session writes, or writes below, for the sake of another request, that no listed hard link touches, and whose file had no other name; others may be written by sessions that restore their neighbours. It speaks of the sessions the catalogue knows, as the code does.
- `Restoring.Full`: the exact statement is about chains without damage; of a chain with damage termination, the positions of single reads and where the next read begins are stated, not the whole list of sessions read.
- `Destinations.Destination.Extract`: restoring without a destination directory, which writes through symbolic links, and the memory of directories already checked (internal/iface/destfs/destfs.go:212-247), taken as always up to date, are not modelled; nor are permissions and time stamps.
- `Destinations.RemoveAt`: a tombstone or link for the destination directory itself is refused.
- `ScanOnDisk.ScanIsPut`: the walk is that of a tree under absolute roots; relative roots share places with absolute ones.
- `TapeFormat.IndexRoundTrip`: Go's JSON printer replaces invalid UTF-8 in names; such names do not satisfy the laws assumed of the codec.
- `WriteParts.WriteTar`: tar padding behind the last byte of a stream of more than one block is arbitrary, as the writer does not clear its buffer.
- Glob matching, and Windows paths: exclusion is an arbitrary predicate on paths closed under the ancestor rule; the walk hands out normalised paths.
- The walk of the file system, its errors and the reading of files: a list of visits and a map of contents, with failure by choice.
- Manual deletion and pruning of catalogue rows, and a delete that fails in the middle of a rollback or before a full backup: outside the invariant of the system.
- Selective restore, readtest, tape inspection and the statistics of all operations: they add nothing to positions and contents stated here.
- Transport errors of the drive, the ioctl layer, TapeAlert, eject: not modelled.
- SQL, HTTP handlers, authentication, webhooks, the command line, configuration files, logging and progress: not modelled.
- Panics in a task body, and a body that ends without finishing its task: the gate's statements assume each body finishes its task before it releases the gate, as the handlers do.
