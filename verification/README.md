# Verified model of the embedded flight recorder

A Dafny 4.11 model of the flight recorder's persistence and concurrency core, with proofs that it
keeps its promises. `dafny verify dfyconfig.toml` checks the whole project.

## What is modelled

- **Format and checksum** (`Bytes`, `Crc32`, `LogFormat`, `DiskLayout`). The packed little-endian structs of the
  log and its journal, and the reflected 0xEDB88320 CRC of section 8 of RFC 1952, as loops over a
  table, as a bit register and as polynomial division; and every field's offset on disk. A `double` is its
  64-bit pattern.
- **Scanner and serialization** (`LogScanner`, `LogImage`). The scan of a log as a function of its
  bytes, and the bytes that appended entries produce.
- **Startup recovery** (`Recovery`, `StartupOutcomes`, `RecoveryManager`). The decision functions on a disk of optional
  log and journal contents, and what they decide for every input; and a class whose methods scan, truncate, migrate and roll forward step
  by step and are proved to compute them.
- **Commit protocol under crashes** (`CrashProtocol`, `CrashSafety`, `CrashLimits`, `CrashWitness`,
  `HandOff`). A state machine over log and journal, each with a durable part, with ghost lists of
  what was written and what was acknowledged. A process crash keeps the page cache. A power cut
  keeps the synced part of the log, replaces the rest by arbitrary bytes, and leaves an unsynced
  slot old, new or torn; that a torn slot fails its checksum is a hypothesis of the steps
  (`TearDetected`, `CutDetected`). Runs have any length and any number of crashes.
- **The writer** (`Device`, `BinaryLogWriter`). A class over a device whose writes and syncs answer
  from an oracle (short writes, interrupts, errors). Each device operation is recorded in a ghost
  trace, proved to be a run of the protocol; process crashes and power cuts at every operation of
  the class are survived (`SessionSafe`, `SessionSurvivesPowerCut`).
- **The ring** (`RingProtocol`, `RingSafety`, `RingTheorems`, `RingCalls`, `RingOutcomes`,
  `CircularBuffer`). Three
  threads that interleave at every load, store, lock, notification and slot copy, with stale cursor
  snapshots, spurious wake-ups and expiring deadlines; and the class its callers hold, whose methods
  are proved to do what the small steps do when nobody interferes.
- **The recorder** (`Pipeline`, `PipelineSafety`, `PipelineFailures`, `PipelineTheorems`,
  `PipelineWitness`, `WriterLoop`). Sensor loop,
  writer loop and stop() as threads over the small steps of the ring; and the writer loop as a
  method over the writer class.
- **Fault injection and latency** (`FaultInjection`, `LatencyHistogram`).

## What the proofs found

- A process crash followed by a power cut can lose both checkpoints: a restarted process neither
  re-syncs the slot it read from the page cache nor avoids overwriting the other one
  (`MixedCrashesLoseBothSlots`). Survival of a cut is equivalent to one valid slot being on the disk
  (`CutSafeExactly`). Power cuts alone never get there (`PowerCutsAreSafe`).
- `pop` loads `tail` before `closed_`, so a last push and a close between the two loads leave a
  sample behind a Closed status (`ClosedMayLeaveSample`); stop() can thus return with samples
  queued (`StopMayLeaveSample`), exactly if something was pushed after the writer's last load of
  `tail` (`StopDrains`).
- The writer's contiguity check wraps at 2^64 while the scan refuses the wrap (`RoundTrip`,
  `WrapIsRefused`).
- open() does not compare a slot's last sequence with the log, recovery does; with arbitrary slots
  the two can select differently (`ImpostorAfterRecovery`, exactly when by `HandOffExactly`).
  Reachable slots never differ (`OpenAfterRecovery`).
- A writer object used for another log before gives a new log a first checkpoint that names the old
  last sequence; recovery refuses that log before its first commit (`FirstJournalRecovers`).
- A reported percentile can exceed the reported maximum (`PercentileMayExceedMaximum`), exactly when
  its rank falls in the maximum's own bin and that is not the last (`PercentileWithinMaximum`).
- A commit wait is computed from one reading of the clock and started at another, so it can outlast
  the commit deadline by the time between them (`WaitMayOutlastDeadline`, exactly when by
  `WaitEndsByDeadline`).
- A ring of capacity 0 lets both blocking calls sleep forever (`BothAsleepExactly`); start() refuses
  that configuration.

## Model

| member | source | states |
|---|---|---|
| `CrashSafety.CrashSafe` | src/binary_log_writer.cpp:337-371 | at every point of every run of writer steps, process crashes, power cuts, recoveries and reopenings, recovery would be healthy, would keep a prefix of what was written that includes everything acknowledged, and never ends in rejection |
| `CrashSafety.StepKeeps` | src/binary_log_writer.cpp:238-371 | the disk and writer invariant is kept by each sub-step of append, flush and commit, by each crash and by recovery |
| `CrashSafety.RunKeeps` | src/binary_log_writer.cpp:238-371 | hence it holds along runs of any length and any number of crash cycles |
| `CrashSafety.RecoveryOutcome` | src/recovery_manager.cpp:206-258 | from every reachable disk, recovery selects the valid slot of the largest generation, is healthy and keeps exactly that slot's records |
| `CrashSafety.OpenAfterRecovery` | src/binary_log_writer.cpp:395-449 | after recovery from any reachable state the writer's own slot selection succeeds and loads the same slot, generation, count and last sequence |
| `CrashSafety.OpenAfterClose` | src/binary_log_writer.cpp:395-449 | a writer that has committed all it wrote can be opened again without recovery, and loads exactly the fields it had |
| `CrashSafety.NextBatchAccepted` | src/binary_log_writer.cpp:252-255 | the writer opened after recovery accepts a batch that starts at the recovered last sequence plus one |
| `CrashSafety.PowerCutKeeps` | src/recovery_manager.cpp:206-258 | a power cut that keeps the synced log, leaves any unsynced tail, and leaves each unsynced slot old, new or detectably torn keeps the invariant, if a valid slot is already on the disk |
| `CrashSafety.TearSlotKeeps` | src/binary_log_writer.cpp:482-485 | a partly written inactive slot that its checksum rejects keeps the invariant |
| `CrashSafety.RecoverKeeps` | src/recovery_manager.cpp:239-247 | truncating to the selected checkpoint keeps the invariant, with the kept records as what is written |
| `CrashLimits.ActiveSlotUntouched` | src/binary_log_writer.cpp:455-482 | no step of a commit changes a byte of the active slot |
| `CrashLimits.ActiveSlotIntact` | src/binary_log_writer.cpp:451-502 | at every sub-step the active slot is valid and describes synced log content, and of two valid slots the one with the larger generation covers strictly more records |
| `CrashLimits.PowerCutsAreSafe` | src/binary_log_writer.cpp:337-371 | in runs whose only failures are power cuts the condition on the moment of a cut always holds |
| `CrashLimits.CutSafeExactly` | src/recovery_manager.cpp:222-234 | every power cut at a state is survived if and only if some valid slot is already on the disk, not only in the page cache |
| `CrashLimits.UnsafeCut` | src/recovery_manager.cpp:222-234 | where no valid slot is on the disk, a concrete cut makes recovery refuse the log |
| `CrashWitness.MixedCrashesLoseBothSlots` | src/recovery_manager.cpp:222-234 | a concrete run: process crash between writing and syncing a slot, restart without re-syncing, a second commit up to the same point, then a power cut that recovery refuses |
| `HandOff.HandOffExactly` | src/binary_log_writer.cpp:426-448 | for arbitrary slot contents, open() succeeds after healthy checkpoint recovery and loads what recovery reported if and only if no newer slot with the same length, start time and count but another last sequence is present; open() does not check last_sequence |
| `HandOff.ImpostorAfterRecovery` | src/binary_log_writer.cpp:426-448 | a concrete log and journal where recovery is healthy on the older slot and open() loads the newer one, with a last sequence no record has |
| `HandOff.FirstJournalRecovers` | src/recovery_manager.cpp:191-193 | recovery accepts a new log before its first commit if and only if the last sequence its first checkpoint names, which the writer object remembers, is 0 |
| `HandOff.MigratedHandOff` | src/recovery_manager.cpp:151-176 | after a migration open() loads exactly the migrated checkpoint |
| `Recovery.StartupIdempotent` | src/recovery_manager.cpp:443-557 | on every path, if startup recovery is healthy then a second run is healthy, changes no file, truncates nothing and reports the same records, last sequence, generation and length |
| `Recovery.StartupAfterInterruptedTrim` | src/recovery_manager.cpp:400-419 | recovery cut off after its first truncation leads the next run to the same files and, but for the truncation flag, the same report |
| `Recovery.StartupAfterInterruptedReplay` | src/recovery_manager.cpp:531-556 | a roll-forward cut off while its record is appended, with less than a record after the log, whatever its bytes, or all of it: the next run leaves the files the run cut off would have left and reports the record |
| `Recovery.CheckpointRestores` | src/recovery_manager.cpp:178-204 | a slot consistent with the log describes a record boundary, and truncating there leaves exactly its records ending at its last sequence |
| `Recovery.RecoverCheckpointMeaning` | src/recovery_manager.cpp:206-258 | checkpoint recovery is healthy exactly when a slot is selected, and then the file, every report field and the truncation flag are those of that slot |
| `Recovery.TrimIdempotent` | src/recovery_manager.cpp:411-419 | truncating an invalid tail twice is truncating it once, and the rescan differs only in its truncation flag |
| `Recovery.TrimKeepsValidPrefix` | src/recovery_manager.cpp:400-419 | truncation keeps the longest valid prefix and leaves a healthy file |
| `Recovery.RollForwardExtends` | src/recovery_manager.cpp:525-542 | rolling a legacy entry that continues the log forward adds exactly one valid record |
| `Recovery.MigratedIsStable` | src/recovery_manager.cpp:151-176 | a migrated journal recovers to the log it was made from, generation 1 |
| `StartupOutcomes.StartupHealthyExactly` | src/recovery_manager.cpp:443-557 | for every log and journal: healthy if and only if there is no log and no or an empty journal, or the log has a good header and the journal is empty, or two slots one of which describes a prefix of the log, or a legacy entry that is invalid or leaves no gap; an unhealthy run on an existing log removes its invalid tail and changes nothing else |
| `StartupOutcomes.MissingOrTornJournalRefused` | src/recovery_manager.cpp:457-472 | an existing log whose journal is missing, or of a length other than 0, 104 and 112, is refused with the log trimmed and the journal as it was |
| `StartupOutcomes.GapRefused` | src/recovery_manager.cpp:519-523 | a valid legacy entry numbered beyond the last sequence plus one is refused likewise |
| `StartupOutcomes.BadHeaderRefused` | src/recovery_manager.cpp:443-512 | a log without a good header is refused with every journal and not touched |
| `StartupOutcomes.CheckpointOutcome` | src/recovery_manager.cpp:206-258 | two slots: the one of largest generation among those that describe a prefix of the log, the first on a tie, decides where the log ends and every field of the report; if there is none the log is refused |
| `StartupOutcomes.EmptyJournalMigrates` | src/recovery_manager.cpp:474-491 | an empty journal becomes one checkpoint of all good records, and every field of the report says so |
| `StartupOutcomes.CorruptEntryMigrates` | src/recovery_manager.cpp:494-504 | so does a legacy entry that is not valid |
| `StartupOutcomes.KnownEntryMigrates` | src/recovery_manager.cpp:507-517 | and a valid one whose record the log already has |
| `StartupOutcomes.NextEntryIsReplayed` | src/recovery_manager.cpp:525-556 | a valid entry numbered last plus one is appended to the good records, and the journal becomes a checkpoint that includes it |
| `StartupOutcomes.NoLogOutcome` | src/recovery_manager.cpp:443-557 | without a log only no journal or an empty one is healthy; a pending first record is written but makes no log |
| `RecoveryManager.FileSystem.ScanFile` | src/recovery_manager.cpp:260-409 | the scan loop returns the specified report and entries and truncates exactly when asked and the header is valid but the tail is not |
| `RecoveryManager.ReadRecord` | src/recovery_manager.cpp:314-398 | one turn of the scan loop: accepts the record at its boundary or stops with the finding, offset and counters of the branch taken |
| `RecoveryManager.ScanRecords` | src/recovery_manager.cpp:310-398 | the loop returns the report of the longest valid prefix and exactly its entries |
| `RecoveryManager.FileSystem.ScanHealthyPrefix` | src/recovery_manager.cpp:411-419 | scan, truncate and rescan give the specified report and file |
| `RecoveryManager.FileSystem.RecoverCheckpointJournal` | src/recovery_manager.cpp:206-258 | the selection loop over both slots and the truncation give the specified report and log |
| `RecoveryManager.FileSystem.WriteCheckpointJournal` | src/recovery_manager.cpp:151-176 | read back, slot 0 of the new journal is valid, of generation 1 and carries the log's start time and the scanned length, count and last sequence; slot 1 is not valid |
| `RecoveryManager.FileSystem.MigrateJournal` | src/recovery_manager.cpp:474-504 | reports healthy exactly when it is allowed and a file header is readable; then the journal holds the reported checkpoint, otherwise it is untouched |
| `RecoveryManager.FileSystem.RollJournalForward` | src/recovery_manager.cpp:531-556 | a valid record that continues a healthy log becomes its next record and the journal a checkpoint of it; the record is appended before the journal is replaced |
| `RecoveryManager.FileSystem.RecoverLegacyJournal` | src/recovery_manager.cpp:507-529 | an unhealthy log or a gap is refused with nothing changed, a record the log has is dropped, the next one is replayed |
| `RecoveryManager.FileSystem.RecoverStartupState` | src/recovery_manager.cpp:443-557 | the whole startup recovery computes the specification function on the files and records the file states it passes through; it is healthy exactly for the recoverable logs and journals; an existing log whose journal is missing or of a length that is none of the three is refused, with only its invalid tail removed |
| `LogScanner.LongestPrefix` | src/recovery_manager.cpp:314-398 | the scanned count is the unique k such that k records are valid and k + 1 are not |
| `LogScanner.PrefixStable` | src/recovery_manager.cpp:314-398 | a valid prefix depends only on its own bytes |
| `LogScanner.AppendKeepsPrefix` | src/recovery_manager.cpp:314-398 | appending any bytes loses no record |
| `LogScanner.CutAtBoundary` | src/recovery_manager.cpp:314-398 | cutting at the boundary of record j keeps exactly the first j records and scans healthy |
| `LogScanner.ReportMeaning` | src/recovery_manager.cpp:287-398 | every field of the report of every file: with a good header it is healthy exactly if the file ends at the last valid record; the last sequence is that of the longest prefix and is kept when the tail is damaged; valid bytes and corruption offset are 24 + 84 k and the first bad record k + 1; the finding says what is wrong with the bytes that follow; one checksum failure is counted exactly if a whole record with good metadata follows whose stored checksum does not match; and without a good header which of the three faults it has |
| `LogScanner.HealthyCount` | src/recovery_manager.cpp:322-326 | a file that ends at a boundary of valid records scans to exactly that many |
| `LogImage.RoundTrip` | src/binary_log_writer.cpp:257-311 | scanning a serialized log returns exactly the appended entries if and only if their sequence numbers do not pass 2^64 - 1 |
| `LogImage.WrapIsRefused` | src/recovery_manager.cpp:375-386 | the wrap from 2^64 - 1 to 0 that the writer's check accepts is where the scan stops |
| `LogImage.WrapCondition` | src/binary_log_writer.cpp:246-251 | for entries the writer accepts as successive, strict contiguity holds if and only if they do not wrap |
| `LogImage.ImageScans` | src/recovery_manager.cpp:314-398 | a file that begins with the image of contiguous entries has them as a valid prefix |
| `LogImage.EncodeAppend` | src/binary_log_writer.cpp:257-277 | serializing two batches is serializing their concatenation |
| `LogFormat.RecordRoundTrip` | include/flight_recorder/log_format.hpp:96-131 | an encoded record is 84 bytes, passes the metadata and checksum tests, and decodes to the same sequence and record |
| `LogFormat.RecordCrcIsContiguous` | include/flight_recorder/log_format.hpp:128-131 | the two-segment record checksum is the checksum of the record's first 80 bytes on disk |
| `LogFormat.CheckpointMetadataMeaning` | include/flight_recorder/log_format.hpp:145-151 | a slot passes the metadata check if and only if its generation is not 0 and it is the slot the writer would make of its field values |
| `LogFormat.CheckpointSlotRoundTrip` | include/flight_recorder/log_format.hpp:64-74 | a slot survives packing into 52 bytes |
| `LogFormat.CheckpointSlotBytes` | include/flight_recorder/log_format.hpp:64-74 | and 52 bytes survive unpacking into a slot |
| `LogFormat.FileHeaderRoundTrip` | include/flight_recorder/log_format.hpp:23-30 | a file header survives packing into 24 bytes |
| `LogFormat.RecordHeaderRoundTrip` | include/flight_recorder/log_format.hpp:42-49 | a record header survives packing into 28 bytes; its offsets are fixed by DiskLayout.RecordHeaderLayout |
| `LogFormat.PayloadRoundTrip` | include/flight_recorder/log_format.hpp:32-40 | a payload survives packing into 52 bytes |
| `LogFormat.JournaledRecordOk` | src/recovery_manager.cpp:115-124 | the record inside a valid legacy journal entry is a valid log record |
| `LogFormat.FileHeaderBytes` | include/flight_recorder/log_format.hpp:23-30 | 24 bytes survive unpacking into a file header, so no two headers on disk read the same |
| `LogFormat.JournalEntryRoundTrip` | include/flight_recorder/log_format.hpp:51-62 | a whole legacy entry survives packing into 112 bytes |
| `LogFormat.JournalEntryBytes` | include/flight_recorder/log_format.hpp:51-62 | and 112 bytes survive unpacking into an entry |
| `DiskLayout.RecordOnDisk` | include/flight_recorder/log_format.hpp:32-49 | where each field of a record lies: sequence at bytes 12..20, timestamp at 20..28, the readings from 28, status at 76..80, and at 80..84 the checksum of the 80 bytes before it, with the literal magic, version and sizes |
| `DiskLayout.RecordOkExactly` | include/flight_recorder/log_format.hpp:83-94 | 84 bytes are an acceptable record if and only if magic, version, both sizes and the checksum have their literal places and values |
| `DiskLayout.EntryLayout` | include/flight_recorder/log_format.hpp:108-120 | the entry read from 84 bytes takes each field from its offset |
| `DiskLayout.RecordHeaderLayout` | include/flight_recorder/log_format.hpp:42-49 | the offsets of the record header's fields |
| `DiskLayout.PayloadLayout` | include/flight_recorder/log_format.hpp:32-40 | the offsets of the payload's fields |
| `DiskLayout.FileHeaderLayout` | include/flight_recorder/log_format.hpp:23-30 | the offsets of the file header's fields |
| `DiskLayout.SlotLayout` | include/flight_recorder/log_format.hpp:64-74 | the offsets of the checkpoint slot's fields |
| `DiskLayout.JournalEntryHeaderLayout` | include/flight_recorder/log_format.hpp:51-57 | the offsets of the legacy entry's own fields |
| `DiskLayout.FileHeaderOnDisk` | src/binary_log_writer.cpp:504-518 | the bytes of a new log's header, with the checksum of the header whose own field is zero |
| `DiskLayout.HeaderOkExactly` | src/recovery_manager.cpp:292-308 | the scan accepts a header if and only if magic, version, both sizes and that checksum are in place |
| `DiskLayout.OpenHeaderOkExactly` | src/binary_log_writer.cpp:208-220 | open() accepts an existing log if and only if magic, version and checksum are in place and the rest is whole records |
| `DiskLayout.CheckpointOnDisk` | src/binary_log_writer.cpp:451-466 | the bytes of a committed slot |
| `DiskLayout.SlotValidExactly` | include/flight_recorder/log_format.hpp:145-151 | 52 bytes are a valid slot if and only if magic, version, size and checksum are in place and the generation is not 0 |
| `DiskLayout.LegacyEntryExactly` | src/recovery_manager.cpp:98-124 | 112 bytes are a valid legacy entry if and only if its own fields and checksum and the record inside it are, with the same sequence in both; the record to append is bytes 24..108 |
| `DiskLayout.OpenLoadsExactly` | src/binary_log_writer.cpp:419-448 | open() loads a log if and only if its header is acceptable and a slot fits it byte for byte, then the one of larger generation, the first on a tie, with its generation and last sequence |
| `DiskLayout.LittleEndian` | include/flight_recorder/log_format.hpp:12-14 | two, four and eight bytes are read with the least significant first |
| `Bytes.UnpackPack` | include/flight_recorder/log_format.hpp:22-75 | little-endian packing of fields that fit is undone by unpacking |
| `Bytes.PackUnpack` | include/flight_recorder/log_format.hpp:22-75 | unpacking is undone by packing, so no two byte strings mean the same struct |
| `Crc32.BuildTable` | include/flight_recorder/crc32.hpp:9-22 | the nested loops build the table whose entry i is eight shift steps from i |
| `Crc32.UpdateCrc32` | include/flight_recorder/crc32.hpp:24-30 | the table-driven loop equals the bitwise register for every input and state |
| `Crc32.ComputeCrc32` | include/flight_recorder/crc32.hpp:32-36 | the checksum method equals the bitwise definition |
| `Crc32.ComputeCrc32Segments` | include/flight_recorder/crc32.hpp:38-46 | the two-segment form is the checksum of the concatenation |
| `Crc32.CrcIsPolynomialDivision` | include/flight_recorder/crc32.hpp:13-16 | the register computes the remainder of the conditioned message divided by the 0xEDB88320 polynomial, bit by bit |
| `Crc32.UpdateAppend` | include/flight_recorder/crc32.hpp:42-45 | processing two inputs in turn is processing their concatenation |
| `Crc32.ShiftsByTable` | include/flight_recorder/crc32.hpp:26-28 | eight shift steps are one table step |
| `Crc32.BurstChangesCrc` | include/flight_recorder/crc32.hpp:24-36 | two messages of one length that differ only inside 32 consecutive bits have different checksums |
| `Crc32.ByteBurstChangesCrc` | include/flight_recorder/crc32.hpp:24-36 | two byte strings that differ only inside 4 consecutive bytes have different checksums |
| `Crc32.CheckValue` | include/flight_recorder/crc32.hpp:9-36 | the checksum of the nine ASCII digits 123456789 is 0xCBF43926, the published check value |
| `FaultInjection.FlipDetected` | src/fault_injection.cpp:87-99 | flipping a byte at any offset 0..83 of record i makes a rescan find exactly the i records before it, unhealthy |
| `FaultInjection.CutDetected` | src/fault_injection.cpp:41-44 | cutting a log keeps exactly the records still complete, and it scans healthy only at a record boundary |
| `FaultInjection.CorruptRecordByte` | src/fault_injection.cpp:50-107 | the search loop finds the first entry of that sequence in the valid prefix or refuses; exactly the named byte of that record is flipped, and the rescan stops there |
| `FaultInjection.TruncateLogTail` | src/fault_injection.cpp:41-47 | removes that many bytes from the end and never the whole file |
| `BinaryLogWriter.SessionSafe` | src/binary_log_writer.cpp:173-371 | at every device operation the writer performs, a process crash is recovered from with all acknowledged records kept and none invented |
| `BinaryLogWriter.SessionSurvivesPowerCut` | src/binary_log_writer.cpp:173-371 | so is a power cut at every device operation, whatever it leaves of the unsynced bytes, in a session that begins with its active slot on the disk |
| `BinaryLogWriter.SessionAfterRecovery` | src/binary_log_writer.cpp:395-449 | a session opened after recovery continues the run of the protocol, with its active slot on the disk if the journal was |
| `BinaryLogWriter.RawIsStep` | src/binary_log_writer.cpp:238-371 | each recorded operation is a step of the crash protocol once torn slots are detected by their checksum |
| `BinaryLogWriter.BinaryLogWriter.WriteAtFull` | src/binary_log_writer.cpp:540-579 | under short writes, interrupts and errors from an oracle: success means the range holds the data, failure that only a prefix of it was written; nothing outside the range changes, and it terminates |
| `BinaryLogWriter.BinaryLogWriter.Flush` | src/binary_log_writer.cpp:337-371 | success with pending batches means log synced, next generation in the inactive slot on disk and everything written acknowledged; failure acknowledges nothing; nothing pending succeeds without work |
| `BinaryLogWriter.BinaryLogWriter.CommitCheckpoint` | src/binary_log_writer.cpp:451-502 | writes the next generation into the inactive slot, syncs the journal, and only then moves generation and active slot; refuses to pass the largest generation |
| `BinaryLogWriter.BinaryLogWriter.SyncMainFile` | src/binary_log_writer.cpp:581-597 | on success the whole log is durable, on failure only the failure is recorded |
| `BinaryLogWriter.BinaryLogWriter.AppendToOpen` | src/binary_log_writer.cpp:246-335 | an accepted batch follows the unchanged log in serialized form; a refused one changes no file; what was appended lies in reserved space; the group is committed, with the next generation, exactly when it is complete |
| `BinaryLogWriter.BinaryLogWriter.AppendBatch` | src/binary_log_writer.cpp:238-245 | refuses empty and oversized batches with nothing changed, opens a closed writer first; on an open one success appends the batch's bytes and failure keeps the log and acknowledges nothing |
| `BinaryLogWriter.BinaryLogWriter.CheckBatch` | src/binary_log_writer.cpp:239-255 | the two loops of checks accept exactly the batches of allowed size that follow each other and the log, with 64-bit wrap |
| `BinaryLogWriter.Serialize` | src/binary_log_writer.cpp:257-277 | the serialization loop produces the encoding of the batch |
| `BinaryLogWriter.BinaryLogWriter.EnsurePreallocated` | src/binary_log_writer.cpp:522-538 | preallocation never shrinks, covers the coming bytes in whole chunks if it applies, and moves no content |
| `BinaryLogWriter.BinaryLogWriter.Open` | src/binary_log_writer.cpp:173-232 | an existing log opens exactly if its header is good and a checkpoint describes all of it, changing no file; with an empty journal it gets a first checkpoint of all of it, numbered by its last record; a bad header, another journal length or options of zero change no file; a new log starts now and gets a first checkpoint with the last sequence the writer remembers, and if that is 0 starts the protocol's initial state |
| `BinaryLogWriter.BinaryLogWriter.LoadCheckpoints` | src/binary_log_writer.cpp:419-448 | the slot loop loads the newest slot that matches the whole log, or fails |
| `BinaryLogWriter.BinaryLogWriter.LoadOrInitialize` | src/binary_log_writer.cpp:395-449 | an empty journal is given a first checkpoint with the count and last sequence of the log, any other length than two slots is refused |
| `BinaryLogWriter.BinaryLogWriter.Close` | src/binary_log_writer.cpp:373-385 | closing commits what is pending unless the writer has failed; closed without failure, open() would load the writer's own fields, the count and last sequence of everything written |
| `LatencyHistogram.RankBin` | src/binary_log_writer.cpp:50-55 | the bin where the cumulative count reaches a rank is the bin of the observation of that rank |
| `LatencyHistogram.RankExists` | src/binary_log_writer.cpp:51 | each rank from 1 to the sample count names an observation |
| `LatencyHistogram.RankIsLeast` | src/binary_log_writer.cpp:51 | the rank computed is positive and the least whose hundredfold reaches samples times numerator |
| `LatencyHistogram.ReportedMonotone` | src/binary_log_writer.cpp:56-65 | a larger rank never reports a smaller value, across the fine, coarse and overflow bins |
| `LatencyHistogram.BinsAddUp` | src/binary_log_writer.cpp:37-39 | the bins add up to the number of samples |
| `LatencyHistogram.PercentileWithinMaximum` | src/binary_log_writer.cpp:55-65 | for every rank, the reported value stays within the maximum if and only if the rank's bin is the last or comes before the bin of the maximum |
| `LatencyHistogram.PercentileMayExceedMaximum` | src/binary_log_writer.cpp:42-73 | the summary of a single observation of 0 ns has maximum 0 and every percentile 100 |
| `LatencyHistogram.Histogram.Observe` | src/binary_log_writer.cpp:23-40 | adds one observation to its bin, the count and the maximum |
| `LatencyHistogram.Histogram.Percentile` | src/binary_log_writer.cpp:50-68 | reports what the bins make of the nearest-rank observation, that is the one whose rank is the least r with 100 r at least samples times numerator: its bin's upper edge, or the maximum for the last bin; and says exactly when that stays within the maximum |
| `LatencyHistogram.Histogram.Summarize` | src/binary_log_writer.cpp:42-73 | the maximum is the largest observation; p50, p95 and p99 each report their nearest-rank observation, defined without the code's rank formula, are in order, and each stays within the reported maximum exactly under its condition; no samples give zeros |
| `RingSafety.StepKeepsInv` | include/flight_recorder/circular_buffer.hpp:33-152 | the ring's invariant is kept by each load, store, lock, notify, copy, sleep and wake of each thread |
| `RingTheorems.RunKeepsInv` | include/flight_recorder/circular_buffer.hpp:33-152 | hence by every interleaving of any length |
| `RingTheorems.SlotAccessesInBounds` | include/flight_recorder/circular_buffer.hpp:42-108 | no operation of any run leaves the storage, also with capacity 0 |
| `RingTheorems.QueueHolds` | include/flight_recorder/circular_buffer.hpp:33-118 | what was pushed is what was popped followed by the live slots, at most capacity of them, and a pop returns the samples popped last |
| `RingTheorems.StepRefinesQueue` | include/flight_recorder/circular_buffer.hpp:33-118 | each step leaves the queue alone, appends the pushed record to a queue with room, or removes from the front exactly what the pop returns |
| `RingTheorems.WriterHasSlotAlone` | include/flight_recorder/circular_buffer.hpp:39-42 | with a stale snapshot of head, the slot about to be written is none of the queued ones and none the consumer may copy |
| `RingTheorems.NoMissedWakeup` | include/flight_recorder/circular_buffer.hpp:42-50 | a consumer asleep on a non-empty or closed ring, or a producer asleep on a non-full or closed one, is owed a notification by a thread between publishing and notifying |
| `RingTheorems.ConsumerIsWoken` | include/flight_recorder/circular_buffer.hpp:42-50 | that notification arrives within four uninterrupted operations, none of which can block |
| `RingTheorems.ProducerIsWoken` | include/flight_recorder/circular_buffer.hpp:88-93 | the same for the producer |
| `RingTheorems.BothAsleepExactly` | include/flight_recorder/circular_buffer.hpp:120-152 | producer and consumer can both sleep with no close under way if and only if the capacity is 0 |
| `RingTheorems.NoDeadlock` | include/flight_recorder/circular_buffer.hpp:54-79 | with a slot, if no thread can move then the mutex is free and at most one thread sleeps, facing a full or an empty open ring |
| `RingTheorems.WatermarkBrackets` | include/flight_recorder/circular_buffer.hpp:195-200 | the high watermark never exceeds the capacity and is at least every occupancy whose update is done |
| `RingTheorems.PeakIsLargest` | include/flight_recorder/circular_buffer.hpp:195-200 | the ghost peak is the running maximum of the occupancy, and the watermark never falls |
| `RingTheorems.ClosedMeansDrained` | include/flight_recorder/circular_buffer.hpp:81-86 | a pop that loaded tail when the ring was closed with no push under way reports Closed only if every pushed sample was popped |
| `RingTheorems.SettledIsFinal` | include/flight_recorder/circular_buffer.hpp:146-152 | closed with no push under way is final |
| `RingTheorems.ClosedDrainsExactly` | include/flight_recorder/circular_buffer.hpp:82-86 | in general a pop reporting Closed has drained the ring if and only if tail has not moved since it was loaded |
| `RingTheorems.ClosedMayLeaveSample` | include/flight_recorder/circular_buffer.hpp:82-86 | a concrete run in which a pop reports Closed while a pushed sample is still queued |
| `RingCalls.WholePush` | include/flight_recorder/circular_buffer.hpp:33-79 | over any run from the first operation of a push to its return, the sample is appended exactly once if the call reports Pushed and not at all otherwise |
| `RingCalls.WholePop` | include/flight_recorder/circular_buffer.hpp:81-144 | over any run from the first operation of a pop to its return, the ring gives up exactly what the call returns, the samples that were next: one if it reports Popped and none otherwise, or at most the batch limit |
| `RingOutcomes.PushOutcome` | include/flight_recorder/circular_buffer.hpp:33-79 | why a push ends as it does under any interleaving: Closed exactly explains a closed ring; Timeout means the ring was full at some moment of the call, never comes from a blocking push, and from a timed one only if the ring was full after its deadline had passed; the drop counter grows by one for such a timed push and by nothing otherwise |
| `RingOutcomes.PopOutcome` | include/flight_recorder/circular_buffer.hpp:81-144 | why a pop ends as it does: Timeout and Closed mean that the ring was empty at some moment of the call, Closed that it is closed; Timeout never comes from a blocking pop or one begun on a closed ring, and from a timed one only if the ring was empty after its deadline had passed |
| `CircularBuffer.CircularBuffer.TryPush` | include/flight_recorder/circular_buffer.hpp:33-52 | undisturbed: Closed, Timeout or Pushed exactly by the state, the queue grows by the record exactly if pushed, and the effect is that of the small steps run alone |
| `CircularBuffer.CircularBuffer.TryPopStatus` | include/flight_recorder/circular_buffer.hpp:81-94 | undisturbed: takes the oldest sample, or reports Closed or Timeout on an empty queue, as the small steps do |
| `CircularBuffer.CircularBuffer.TryPopBatch` | include/flight_recorder/circular_buffer.hpp:100-118 | the copy loop moves the oldest samples, up to the limit, to the front of the output and nothing else, as the small steps do |
| `CircularBuffer.CircularBuffer.CopyOut` | include/flight_recorder/circular_buffer.hpp:107-109 | the loop copies live slots in queue order through the modular index |
| `CircularBuffer.CircularBuffer.Close` | include/flight_recorder/circular_buffer.hpp:146-152 | closes without touching the queue |
| `CircularBuffer.CircularBuffer.Reset` | include/flight_recorder/circular_buffer.hpp:154-160 | empties the ring and clears its counters |
| `CircularBuffer.CircularBuffer.GetStats` | include/flight_recorder/circular_buffer.hpp:167-175 | reports the drops, the queue's length and the watermark, which lies between every occupancy reached and the capacity |
| `CircularBuffer.PushIsQueued` | include/flight_recorder/circular_buffer.hpp:33-52 | a push run alone through the small steps appends its record exactly if the ring is open and has room |
| `CircularBuffer.PopIsQueued` | include/flight_recorder/circular_buffer.hpp:81-94 | a pop run alone takes exactly the front of the queue |
| `CircularBuffer.BatchIsQueued` | include/flight_recorder/circular_buffer.hpp:100-118 | a batch run alone takes exactly the requested or available front |
| `PipelineSafety.StepKeepsInv` | src/flight_recorder.cpp:82-172 | the recorder's invariant is kept by every step of the sensor loop, the writer loop, stop() and the clock |
| `PipelineTheorems.RunKeepsInv` | src/flight_recorder.cpp:82-172 | hence by every interleaving |
| `PipelineTheorems.RingIsReachable` | src/flight_recorder.cpp:82-172 | the ring inside every reachable recorder is reachable by the ring's own steps, with the configured capacity, so every theorem about the ring holds in the recorder |
| `PipelineTheorems.WriterIsWoken` | src/flight_recorder.cpp:137-138 | a writer asleep in its pop with samples queued or the ring closed is owed a wake-up by a push of the sensor or a close, and it arrives within four operations that cannot block |
| `PipelineTheorems.SensorIsWoken` | src/flight_recorder.cpp:92 | a sensor asleep in its push with room or the ring closed is owed one by a pop of the writer or a close, and it arrives likewise |
| `PipelineTheorems.LoopsNeverBothAsleep` | src/flight_recorder.cpp:82-172 | with a configuration start() accepts, sensor and writer never both sleep with no close under way |
| `PipelineTheorems.SamplesConserved` | src/flight_recorder.cpp:90-103 | in every interleaving without writer failure: generated - dropped = written + in the writer's hands + queued, up to the operation the sensor is in |
| `PipelineTheorems.LoggedInOrder` | src/flight_recorder.cpp:146-152 | the i-th sample pushed is the i-th popped and, once written, entry i of the session, numbered start + 1 + i with 64-bit wrap |
| `PipelineTheorems.AppendFailsOnlyOnIo` | src/flight_recorder.cpp:146-161 | the batches the loop builds always pass the writer's size and contiguity checks, so an append fails only if a write or sync does |
| `PipelineTheorems.OverrunTellsOfDrops` | src/flight_recorder.cpp:90-104 | a pushed record carries the overrun bit if and only if a sample was dropped since the previous push |
| `PipelineTheorems.CountsArePublished` | src/flight_recorder.cpp:146-171 | whenever the writer is back at the top of its loop, everything it took is written and counted, and the published committed count is that of the log |
| `PipelineTheorems.SensorRecordsAll` | src/flight_recorder.cpp:94-104 | between samples the sensor has counted every sample it made and every drop, and recorded the ring's watermark |
| `Pipeline.NextSample` | src/sensor_simulator.cpp:219-221 | the overrun bit of a sample is exactly the flag it was made with, and every other status bit and reading is kept |
| `PipelineTheorems.TimerCoversOldest` | src/flight_recorder.cpp:117-171 | whenever the loop looks at it, the timer is set exactly if it is enabled and something is uncommitted, and is due one interval after the oldest uncommitted batch was started |
| `PipelineTheorems.WaitEndsByDeadline` | src/flight_recorder.cpp:131-138 | the wait asked for never exceeds the time left at the reading; it ends by the deadline if and only if the clock moved on by no more than the slack that the 250 ms cap left |
| `PipelineTheorems.IdleWait` | src/flight_recorder.cpp:131-132 | without a deadline the wait is 250 ms |
| `PipelineTheorems.DueIsCommitted` | src/flight_recorder.cpp:117-129 | a deadline that has passed at the top of the loop is followed by a commit of everything logged, or by a failure that only a failing write or sync causes |
| `PipelineTheorems.WaitIsNotCutShort` | src/flight_recorder.cpp:137-141 | the writer's pop gives up only when its time, counted from when it began, has passed |
| `PipelineWitness.WaitMayOutlastDeadline` | src/flight_recorder.cpp:131-138 | a concrete run, from start() through one sample, one append and the timer, whose next wait ends after the commit deadline it was computed for |
| `PipelineTheorems.StopDrains` | src/flight_recorder.cpp:61-80 | when stop() returns and the error flag the caller reads is down, everything written is committed and generated - dropped = written + left in the ring; the ring is empty, and everything accepted logged, if and only if nothing was pushed after the writer's last load of tail |
| `PipelineTheorems.FailureIsReported` | src/flight_recorder.cpp:114-178 | once the writer has ended, the error flag is up if and only if a write or a commit failed, acquisition is stopped, the ring is closed, and the published count of committed records is that of the log |
| `PipelineTheorems.FailureStopsAcquisition` | src/flight_recorder.cpp:119-124 | a failed append or flush in the loop has requested a stop before the flag is up and closed the ring before the last flush; the loop is never left with the ring open |
| `PipelineTheorems.NothingAfterFailure` | src/flight_recorder.cpp:119-124 | after a failure nothing more is written or committed, in any run that follows |
| `PipelineTheorems.StopEndsAcquisition` | src/flight_recorder.cpp:82-109 | once a stop is requested the sensor finishes at most the sample it has begun, in any run that follows |
| `PipelineWitness.StopMayLeaveSample` | src/flight_recorder.cpp:61-80 | a concrete run in which stop() returns without failure while the one sample generated is neither dropped nor written but still in the ring |
| `PipelineSafety.NumberedFollows` | src/flight_recorder.cpp:147-152 | a batch numbered from where the log ends continues the log |
| `WriterLoop.WriterLoop` | src/flight_recorder.cpp:114-178 | over the real writer: if all succeeds the log is what it was followed by every delivered sample, numbered in order, all committed, with one checkpoint for each due deadline that found something pending, for each complete group and for the rest; on failure it took a prefix of the batches, the failing one whole or not at all |
| `WriterLoop.AppendModelled` | src/binary_log_writer.cpp:238-335 | the append of the thread model and that of the writer succeed together and stay in step, also when they fail |
| `WriterLoop.FlushModelled` | src/binary_log_writer.cpp:337-371 | so do their flushes |

## Left out

- Runtime fault modes and acknowledgement descriptors of the writer: test hooks that end the process.
- A crash during first creation of the files and inside legacy migration: not crash-atomic in the source, which refuses such files at startup; migration is one step.
- I/O errors and failing open() calls inside recovery, file permissions, path handling, parent-directory sync, and the aligned allocation of the serialization buffer.
- Collisions of the checksum on a torn slot: excluded by the named hypotheses; corruption of acknowledged data and loss of both slots at once are outside the design.
- Message strings; findings and actions are enumerations in their place.
- Counters of calls, batches and bytes that no decision reads, and 64-bit overflow of counters and of the rank computation.
- CrashSafety.CrashSafe: in its runs a power cut strikes only while some valid slot is on the disk, because by CrashLimits.CutSafeExactly the claim is false otherwise; by CrashLimits.PowerCutsAreSafe runs without process crashes lose nothing by this. Sequence numbers do not wrap and files stay within a file offset (`Bounded`).
- Recovery.StartupIdempotent: assumes the log with one more record stays below 2^63 bytes, the range of a file offset.
- BinaryLogWriter.BinaryLogWriter.AppendBatch: states the result of appending to a closed writer in terms of ghost arguments for what recovery had established, because the class does not run recovery itself.
- WriterLoop.WriterLoop: takes the batches the ring delivers and the expiry of the commit timer as inputs; their interleaving is the subject of PipelineTheorems.
- CircularBuffer.CircularBuffer.TryPush: states the effect of a call no other thread disturbs; the watermark's compare-and-exchange loop is then one comparison. Disturbed calls and the blocking forms are in RingProtocol.
- The ring's threads and the recorder's loops are values stepped one operation at a time, not methods, because they interleave; memory orders weaker than sequential consistency, cursor wrap at 2^64 and cache-line layout are not modelled.
- Two overlapping close() calls of the recorder act as one; a deadline of a push may expire at any time.
- reset() during use and destruction; start() is modelled by the state it leaves and the configurations it refuses.
- The simulator's readings and random numbers, command line, tools and scripts.
