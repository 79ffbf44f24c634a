/**
 What startup recovery decides, for every log and every journal: when it is
 healthy, what it leaves of the log, what it writes to the journal and what it
 reports.
 */
module StartupOutcomes {
  import opened Basics
  import opened Bytes
  import opened LogFormat
  import opened LogScanner
  import opened Recovery

  // The slot describes the first records of the log: the start time, their number,
  // the length they end at and the sequence number of the last of them.
  ghost predicate DescribesPrefix(slot: CheckpointSlot, file: seq<byte>)
    requires |file| >= 24
  {
    && CheckpointMetadataValid(slot)
    && slot.startTime == DecodeFileHeader(file[..24]).startTime
    && slot.recordCount <= |ScannedEntries(file)|
    && slot.committedLength == 24 + 84 * slot.recordCount
    && slot.lastSequence == LastSequence(ScannedEntries(file)[..slot.recordCount])
  }

  // The slot with the largest generation among those that describe a prefix of the
  // log; slot 0 wins a tie.
  ghost function NewestSlot(file: seq<byte>, journal: seq<byte>): Option<CheckpointSlot>
    requires |file| >= 24 && |journal| == 104
  {
    var s0, s1 := SlotAt(journal, 0), SlotAt(journal, 1);
    if DescribesPrefix(s0, file) && (!DescribesPrefix(s1, file) || s1.generation <= s0.generation) then Some(s0)
    else if DescribesPrefix(s1, file) then Some(s1)
    else None
  }

  // The pending record of a legacy journal, if it is a valid one
  ghost function Pending(journal: seq<byte>): Option<JournalEntry> {
    if |journal| == 112 && JournalEntryValid(DecodeJournalEntry(journal))
    then Some(DecodeJournalEntry(journal)) else None
  }

  // The journals and logs that recovery accepts
  ghost predicate Recoverable(d: Disk) {
    match d.log
    case None => d.journal == None || d.journal == Some([])
    case Some(file) =>
      && HeaderOk(file)
      && d.journal.Some?
      && var journal := d.journal.value;
      && (|journal| == 0 || |journal| == 104 || |journal| == 112)
      && (|journal| == 104 ==>
            DescribesPrefix(SlotAt(journal, 0), file) || DescribesPrefix(SlotAt(journal, 1), file))
      && (Pending(journal).Some? ==>
            Pending(journal).value.header.sequence <= LastSequence(ScannedEntries(file)) + 1)
  }

  // The journal holds one checkpoint, of generation one, of the whole log.
  ghost predicate HoldsWholeLog(journal: seq<byte>, file: seq<byte>, records: nat, last: u64) {
    && |file| >= 24 && |file| < 0x8000_0000_0000_0000 && |file| == 24 + 84 * records
    && |journal| == 104
    && SlotAt(journal, 0) ==
         NewCheckpoint(1, DecodeFileHeader(file[..24]).startTime, |file|, records, last)
    && !CheckpointMetadataValid(SlotAt(journal, 1))
  }

  // Nothing but the invalid tail of the log is lost, and no state is promised.
  ghost predicate Refused(d: Disk, r: StartupReport, d': Disk) {
    && !r.healthy && d' == d.(log := Trim(d.log))
    && !r.journalReplayed && !r.journalMigrated
    && r.checkpointGeneration == r.committedLength == 0
  }

  // An existing log without its journal, or with one of another length, is refused.
  lemma MissingOrTornJournalRefused(d: Disk)
    requires d.log.Some?
    requires d.journal == None ||
      (|d.journal.value| != 0 && |d.journal.value| != 104 && |d.journal.value| != 112)
    ensures Refused(d, RecoverStartup(d).0, RecoverStartup(d).1)
    ensures RecoverStartup(d).0.action == if d.journal == None then MissingJournal else TornJournal
    ensures RecoverStartup(d).0.journalFound <==> d.journal.Some?
  {
    hide MustTrim, Scan, ScanHealthyPrefix;
  }

  // A log that has no good header is refused with any journal, and is not touched.
  lemma BadHeaderRefused(d: Disk)
    requires d.log.Some? && !HeaderOk(d.log.value)
    ensures Trim(d.log) == d.log
    ensures Refused(d, RecoverStartup(d).0, RecoverStartup(d).1)
    ensures var r := RecoverStartup(d).0;
      !r.logTruncated && r.validRecords == r.lastSequence == r.checksumFailures == 0
  {
    hide HeaderOk, JournalEntryValid, DecodeJournalEntry, FileHeaderMetadataOk, DecodeFileHeader, MigratedJournal;
    hide SelectCheckpoint, RollForward;
    UnreadableLog(d.log.value);
    ReportMeaning(d.log.value);
  }

  // The trimmed log, for a good header
  lemma TrimmedLog(file: seq<byte>)
    requires HeaderOk(file)
    ensures var k := ValidCount(file);
      && 24 + 84 * k <= |file|
      && Trim(Some(file)) == Some(file[..24 + 84 * k])
      && Healthy(file[..24 + 84 * k], k)
      && ScannedEntries(file) == Entries(file, k) == Entries(file[..24 + 84 * k], k)
      && file[..24 + 84 * k][..24] == file[..24]
  {
    hide HeaderOk, RecordValid, Entries, Trim, CountFrom;
    TrimKeepsValidPrefix(file);
  }

  // Its scan
  lemma TrimmedScan(file: seq<byte>)
    requires HeaderOk(file)
    ensures var k := ValidCount(file);
      && 24 + 84 * k <= |file|
      && var scanned := ScanHealthyPrefix(Some(file));
      && scanned.(truncated := false) == ScanReport(file[..24 + 84 * k])
      && scanned.healthy && scanned.validRecords == k && scanned.validBytes == 24 + 84 * k
      && scanned.lastSequence == LastSequence(ScannedEntries(file))
      && scanned.checksumFailures == 0
      && (scanned.truncated <==> 24 + 84 * k < |file|)
  {
    hide HeaderOk, RecordValid, Entries, Trim, CountFrom, ScanReport, ScannedEntries, LastSequence;
    var k := ValidCount(file);
    TrimmedLog(file);
    var kept := file[..24 + 84 * k];
    ScanHealthy(kept, k);
    HealthyIsTrimmed(kept, k);
    TrimIdempotent(Some(file));
    ReportBasics(file);
    CountKept(file);
    NotTruncated(file);
  }

  lemma CountKept(file: seq<byte>)
    requires HeaderOk(file)
    ensures ScanReport(file).validRecords == ValidCount(file)
    ensures ScanReport(file).validBytes == 24 + 84 * ValidCount(file)
  {
    hide HeaderOk, RecordValid, CountFrom;
  }

  // The report that every path starts from
  ghost function Base(file: seq<byte>): StartupReport
    requires HeaderOk(file)
  {
    EMPTY_STARTUP.(
      logTruncated := |file| > 24 + 84 * |ScannedEntries(file)|,
      journalFound := true,
      validRecords := |ScannedEntries(file)|,
      lastSequence := LastSequence(ScannedEntries(file)))
  }

  // A checkpoint of the whole trimmed log replaces the journal.
  ghost predicate MigratedTo(file: seq<byte>, r: StartupReport, d': Disk)
    requires HeaderOk(file)
  {
    var length := 24 + 84 * |ScannedEntries(file)|;
    && r.healthy && r.journalMigrated && r.checkpointGeneration == 1 && r.committedLength == length
    && length <= |file| && d'.log == Some(file[..length])
    && d'.journal.Some?
    && HoldsWholeLog(d'.journal.value, file[..length], |ScannedEntries(file)|, LastSequence(ScannedEntries(file)))
  }

  lemma MigratedHoldsWholeLog(file: seq<byte>, k: nat, report: RecoveryReport)
    requires Healthy(file, k) && SizeFits(Some(file))
    requires report.(truncated := false) == ScanReport(file)
    ensures HoldsWholeLog(MigratedJournal(file, report), file, k, LastSequence(Entries(file, k)))
  {
    hide HeaderOk, RecordValid, ScanReport, SelectCheckpoint, MigratedJournal, ComputeCheckpointCrc;
    hide DecodeCheckpointSlot, EncodeCheckpointSlot, DecodeFileHeader, CheckpointMetadataValid, EmptySlot;
    MigratedSelects(file, k, report);
    EmptySlotInvalid();
    CheckpointSlotRoundTrip(
      NewCheckpoint(1, DecodeFileHeader(file[..24]).startTime, |file|, k, LastSequence(Entries(file, k))));
  }

  lemma MigrateOutcome(startup: StartupReport, file: seq<byte>, journal: Option<seq<byte>>, action: Action)
    requires HeaderOk(file) && |file| < 0x8000_0000_0000_0000
    ensures
      var (r, d') := Migrate(startup, Disk(Trim(Some(file)), journal), ScanHealthyPrefix(Some(file)), true, action);
      && MigratedTo(file, r, d')
      && r == startup.(healthy := true, journalMigrated := true, checkpointGeneration := 1,
                       committedLength := 24 + 84 * |ScannedEntries(file)|, action := action)
  {
    hide HeaderOk, RecordValid, Entries, Trim, CountFrom, ScanReport, ScannedEntries, LastSequence, MigratedJournal;
    hide ScanHealthyPrefix, HoldsWholeLog;
    TrimmedLog(file);
    TrimmedScan(file);
    var k := ValidCount(file);
    MigratedHoldsWholeLog(file[..24 + 84 * k], k, ScanHealthyPrefix(Some(file)));
  }

  // An empty journal, and one of a record that is not valid, give way to a checkpoint
  // of all good records.
  lemma EmptyJournalMigrates(file: seq<byte>)
    requires HeaderOk(file) && |file| < 0x8000_0000_0000_0000
    ensures
      var (r, d') := RecoverStartup(Disk(Some(file), Some([])));
      && MigratedTo(file, r, d')
      && r == Base(file).(healthy := true, journalMigrated := true, checkpointGeneration := 1,
                          committedLength := 24 + 84 * |ScannedEntries(file)|, action := MigratedEmptyJournal)
  {
    hide HeaderOk, Trim, ScanHealthyPrefix, Migrate, ScannedEntries, LastSequence, MigratedTo, RecoverTrimmed;
    TrimmedScan(file);
    SomeTrimmed(file);
    EmptyJournalBranch(Disk(Trim(Some(file)), Some([])), ScanHealthyPrefix(Some(file)));
    MigrateOutcome(Base(file), file, Some([]), MigratedEmptyJournal);
  }

  lemma EmptyJournalBranch(t: Disk, scanned: RecoveryReport)
    requires t.log.Some? && t.journal == Some([]) && scanned.healthy
    ensures RecoverTrimmed(t, scanned) ==
      Migrate(EMPTY_STARTUP.(
                logTruncated := scanned.truncated, journalFound := true, validRecords := scanned.validRecords,
                lastSequence := scanned.lastSequence, checksumFailures := scanned.checksumFailures),
              t, scanned, true, MigratedEmptyJournal)
  {
    hide RecoverCheckpoint, Migrate, JournalEntryValid, DecodeJournalEntry, RecoverLegacy;
  }

  lemma SomeTrimmed(file: seq<byte>)
    requires HeaderOk(file)
    ensures Trim(Some(file)).Some? && |ScannedEntries(file)| == ValidCount(file)
  {
    hide HeaderOk, CountFrom, Entries, MustTrim, Scan;
    TrimmedLog(file);
  }

  lemma CorruptEntryMigrates(file: seq<byte>, journal: seq<byte>)
    requires HeaderOk(file) && |file| < 0x8000_0000_0000_0000
    requires |journal| == 112 && Pending(journal) == None
    ensures
      var (r, d') := RecoverStartup(Disk(Some(file), Some(journal)));
      && MigratedTo(file, r, d')
      && r == Base(file).(healthy := true, journalMigrated := true, checkpointGeneration := 1,
                          committedLength := 24 + 84 * |ScannedEntries(file)|,
                          journalDiscarded := true, action := DiscardedCorruptJournal)
  {
    hide HeaderOk, Trim, ScanHealthyPrefix, Migrate, ScannedEntries, LastSequence, MigratedTo, RecoverTrimmed;
    hide Pending;
    TrimmedScan(file);
    SomeTrimmed(file);
    CorruptEntryBranch(Disk(Trim(Some(file)), Some(journal)), ScanHealthyPrefix(Some(file)));
    MigrateOutcome(Base(file).(journalDiscarded := true), file, Some(journal), DiscardedCorruptJournal);
  }

  lemma CorruptEntryBranch(t: Disk, scanned: RecoveryReport)
    requires t.journal.Some? && |t.journal.value| == 112 && Pending(t.journal.value) == None && scanned.healthy
    ensures RecoverTrimmed(t, scanned) ==
      Migrate(EMPTY_STARTUP.(
                logTruncated := scanned.truncated, journalFound := true, journalDiscarded := true,
                validRecords := scanned.validRecords, lastSequence := scanned.lastSequence,
                checksumFailures := scanned.checksumFailures),
              t, scanned, true, DiscardedCorruptJournal)
  {
    hide RecoverCheckpoint, Migrate, JournalEntryValid, DecodeJournalEntry, RecoverLegacy;
  }

  // A valid pending record is compared with the trimmed log.
  lemma LegacyIsReached(file: seq<byte>, journal: seq<byte>)
    requires HeaderOk(file) && Pending(journal).Some?
    ensures RecoverStartup(Disk(Some(file), Some(journal))) ==
      RecoverLegacy(Base(file), Disk(Trim(Some(file)), Some(journal)), ScanHealthyPrefix(Some(file)),
                    Pending(journal).value)
    ensures var scanned := ScanHealthyPrefix(Some(file));
      scanned.healthy && scanned.lastSequence == LastSequence(ScannedEntries(file))
  {
    hide HeaderOk, Trim, ScanHealthyPrefix, ScannedEntries, LastSequence, RecoverTrimmed, RecoverLegacy;
    hide JournalEntryValid, DecodeJournalEntry;
    TrimmedScan(file);
    SomeTrimmed(file);
    LegacyBranch(Disk(Trim(Some(file)), Some(journal)), ScanHealthyPrefix(Some(file)));
  }

  lemma LegacyBranch(t: Disk, scanned: RecoveryReport)
    requires t.journal.Some? && Pending(t.journal.value).Some?
    ensures RecoverTrimmed(t, scanned) ==
      RecoverLegacy(EMPTY_STARTUP.(
                      logTruncated := scanned.truncated, journalFound := true, validRecords := scanned.validRecords,
                      lastSequence := scanned.lastSequence, checksumFailures := scanned.checksumFailures),
                    t, scanned, Pending(t.journal.value).value)
  {
    hide RecoverCheckpoint, Migrate, JournalEntryValid, DecodeJournalEntry, RecoverLegacy;
  }

  // A pending record that the log already has is dropped.
  lemma KnownEntryMigrates(file: seq<byte>, journal: seq<byte>)
    requires HeaderOk(file) && |file| < 0x8000_0000_0000_0000
    requires Pending(journal).Some?
    requires Pending(journal).value.header.sequence <= LastSequence(ScannedEntries(file))
    ensures
      var (r, d') := RecoverStartup(Disk(Some(file), Some(journal)));
      && MigratedTo(file, r, d')
      && r == Base(file).(healthy := true, journalMigrated := true, checkpointGeneration := 1,
                          committedLength := 24 + 84 * |ScannedEntries(file)|,
                          journalCleared := true, action := ClearedStaleJournal)
  {
    hide HeaderOk, Trim, ScanHealthyPrefix, Migrate, ScannedEntries, LastSequence, MigratedTo, RecoverStartup;
    hide Pending, RollForward;
    LegacyIsReached(file, journal);
    MigrateOutcome(Base(file).(journalCleared := true), file, Some(journal), ClearedStaleJournal);
  }

  // A valid pending record that leaves a gap is refused.
  lemma GapRefused(file: seq<byte>, journal: seq<byte>)
    requires HeaderOk(file)
    requires Pending(journal).Some?
    requires Pending(journal).value.header.sequence > LastSequence(ScannedEntries(file)) + 1
    ensures
      var d := Disk(Some(file), Some(journal));
      && Refused(d, RecoverStartup(d).0, RecoverStartup(d).1)
      && RecoverStartup(d).0 == Base(file).(action := SequenceMismatch)
  {
    hide HeaderOk, Trim, ScanHealthyPrefix, Migrate, ScannedEntries, LastSequence, RecoverStartup;
    hide Pending, RollForward;
    LegacyIsReached(file, journal);
  }

  // A valid pending record that is the next one is appended, and the checkpoint
  // includes it.
  lemma NextEntryIsReplayed(file: seq<byte>, journal: seq<byte>)
    requires HeaderOk(file) && |file| + 84 < 0x8000_0000_0000_0000
    requires Pending(journal).Some?
    requires Pending(journal).value.header.sequence == LastSequence(ScannedEntries(file)) + 1
    ensures
      var (r, d') := RecoverStartup(Disk(Some(file), Some(journal)));
      var k, next := |ScannedEntries(file)|, Pending(journal).value;
      && 24 + 84 * k <= |file|
      && d'.log == Some(file[..24 + 84 * k] + JournaledRecord(next))
      && d'.journal.Some?
      && HoldsWholeLog(d'.journal.value, d'.log.value, k + 1, next.header.sequence)
      && r == Base(file).(healthy := true, journalMigrated := true, checkpointGeneration := 1,
                          committedLength := 24 + 84 * (k + 1), validRecords := k + 1,
                          lastSequence := next.header.sequence,
                          journalCleared := true, journalReplayed := true, action := RolledForward)
  {
    hide HeaderOk, Trim, ScanHealthyPrefix, LastSequence, RecoverStartup, RollForward, Entries, CountFrom;
    hide JournalEntryValid, DecodeJournalEntry, JournaledRecord, HoldsWholeLog, Migrate, RecordValid;
    LegacyIsReached(file, journal);
    TrimmedLog(file);
    SomeTrimmed(file);
    var k := ValidCount(file);
    ReplayOutcome(Base(file), file[..24 + 84 * k], k, Some(journal), Pending(journal).value);
  }

  lemma ReplayOutcome(startup: StartupReport, file: seq<byte>, k: nat, journal: Option<seq<byte>>,
                      entry: JournalEntry)
    requires Healthy(file, k) && |file| + 84 < 0x8000_0000_0000_0000
    requires JournalEntryValid(entry) && LastSequence(Entries(file, k)) + 1 == entry.header.sequence
    requires startup.checksumFailures == 0
    ensures
      var (r, d') := RollForward(startup, Disk(Some(file), journal), entry);
      && d'.log == Some(file + JournaledRecord(entry))
      && d'.journal.Some?
      && HoldsWholeLog(d'.journal.value, d'.log.value, k + 1, entry.header.sequence)
      && r == startup.(healthy := true, journalMigrated := true, checkpointGeneration := 1,
                       committedLength := 24 + 84 * (k + 1), validRecords := k + 1,
                       lastSequence := entry.header.sequence,
                       journalCleared := true, journalReplayed := true, action := RolledForward)
  {
    hide HeaderOk, RecordValid, Entries, ScanReport, JournalEntryValid, JournaledRecord, HoldsWholeLog, MigratedJournal;
    var after := Replayed(Some(file), entry);
    RollForwardExtends(file, k, entry);
    ScanHealthy(after, k + 1);
    MigratedHoldsWholeLog(after, k + 1, ScanReport(after));
  }

  // Without a log there is nothing to recover, unless a journal says otherwise.
  lemma NoLogOutcome(journal: Option<seq<byte>>)
    ensures
      var (r, d') := RecoverStartup(Disk(None, journal));
      && (r.healthy <==> journal == None || journal == Some([]))
      && r.validRecords == r.lastSequence == r.checkpointGeneration == r.committedLength == 0
      && !r.journalReplayed && !r.journalMigrated && !r.logTruncated
      && d'.journal == journal
      && (r.healthy ==> r == EMPTY_STARTUP.(healthy := true) && d'.log == None)
      // A first record that is pending is written, but makes no log.
      && d'.log == (if journal.Some? && Pending(journal.value).Some?
                       && Pending(journal.value).value.header.sequence == 1
                    then Some(JournaledRecord(Pending(journal.value).value)) else None)
  {
    hide JournalEntryValid, DecodeJournalEntry, MigratedJournal, SelectCheckpoint, ScanReport, JournaledRecord;
    if journal.Some? && Pending(journal.value).Some? {
      var entry := Pending(journal.value).value;
      PendingRecordMetadata(entry);
      RecordIsNoLog(entry);
      assert Replayed(None, entry) == JournaledRecord(entry);
      UnreadableLog(JournaledRecord(entry));
    }
  }

  lemma ConsistentExactly(file: seq<byte>, slot: CheckpointSlot)
    requires HeaderOk(file)
    ensures 24 + 84 * ValidCount(file) <= |file|
    ensures
      var kept := file[..24 + 84 * ValidCount(file)];
      var startTime := DecodeFileHeader(file[..24]).startTime;
      Consistent(kept, startTime, ScanHealthyPrefix(Some(file)), slot) <==> DescribesPrefix(slot, file)
  {
    hide HeaderOk, RecordValid, Entries, CountFrom, ScanHealthyPrefix, DecodeFileHeader, CheckpointMetadataValid;
    hide LastSequenceMatches;
    var k := ValidCount(file);
    TrimmedLog(file);
    TrimmedScan(file);
    var kept := file[..24 + 84 * k];
    if slot.recordCount <= k && slot.committedLength == 24 + 84 * slot.recordCount {
      ConsistentMeaning(kept, k, slot);
      FirstEntries(kept, k, slot.recordCount);
    }
  }

  lemma FirstEntries(file: seq<byte>, k: nat, n: nat)
    requires Boundary(k) <= |file| && n <= k
    ensures Entries(file, k)[..n] == Entries(file, n)
  {
    hide EntryOf, RecordAt;
  }

  // Which slot is selected
  lemma SelectedExactly(file: seq<byte>, journal: seq<byte>)
    requires HeaderOk(file) && |journal| == 104
    ensures 24 + 84 * ValidCount(file) <= |file|
    ensures
      var selected := SelectCheckpoint(file[..24 + 84 * ValidCount(file)], DecodeFileHeader(file[..24]).startTime,
                                       ScanHealthyPrefix(Some(file)), journal);
      selected == NewestSlot(file, journal)
  {
    hide HeaderOk, Consistent, DescribesPrefix, ScanHealthyPrefix, DecodeFileHeader, DecodeCheckpointSlot;
    ConsistentExactly(file, SlotAt(journal, 0));
    ConsistentExactly(file, SlotAt(journal, 1));
  }

  // The log ends where the checkpoint says, and the journal is as it was.
  ghost predicate Restored(file: seq<byte>, journal: seq<byte>, slot: CheckpointSlot, r: StartupReport, d': Disk) {
    && slot.committedLength <= |file|
    && d' == Disk(Some(file[..slot.committedLength]), Some(journal))
    && r == EMPTY_STARTUP.(
         healthy := true, journalFound := true, logTruncated := slot.committedLength < |file|,
         validRecords := slot.recordCount, lastSequence := slot.lastSequence,
         checkpointGeneration := slot.generation, committedLength := slot.committedLength,
         action := RestoredCheckpoint)
  }

  lemma CheckpointBranch(t: Disk, scanned: RecoveryReport)
    requires t.journal.Some? && |t.journal.value| == 104
    ensures
      var (r, log) := RecoverCheckpoint(t.log, t.journal.value, scanned);
      RecoverTrimmed(t, scanned) == (r, t.(log := log))
  {
    hide RecoverCheckpoint, Migrate, JournalEntryValid, DecodeJournalEntry, RecoverLegacy;
  }

  // Recovery from a given selection
  lemma SelectionOutcome(kept: seq<byte>, k: nat, journal: seq<byte>, scanned: RecoveryReport)
    requires |journal| == 104 && Healthy(kept, k)
    requires scanned.(truncated := false) == ScanReport(kept)
    ensures
      var selected := SelectCheckpoint(kept, DecodeFileHeader(kept[..24]).startTime, scanned, journal);
      var (r, log) := RecoverCheckpoint(Some(kept), journal, scanned);
      && (selected == None ==>
            && log == Some(kept)
            && r == EMPTY_STARTUP.(journalFound := true, logTruncated := scanned.truncated,
                                   action := NoConsistentCheckpoint))
      && (selected.Some? ==>
            var slot := selected.value;
            && slot.committedLength <= |kept| && log == Some(kept[..slot.committedLength])
            && r == EMPTY_STARTUP.(
                 healthy := true, journalFound := true,
                 logTruncated := scanned.truncated || slot.committedLength < |kept|,
                 validRecords := slot.recordCount, lastSequence := slot.lastSequence,
                 checkpointGeneration := slot.generation, committedLength := slot.committedLength,
                 action := RestoredCheckpoint))
  {
    hide HeaderOk, RecordValid, ScanReport, CheckpointMetadataValid, LastSequenceMatches, Scan, SelectCheckpoint;
    hide DecodeFileHeader, Entries;
    ScanHealthy(kept, k);
    RecoverCheckpointMeaning(kept, k, journal, scanned);
  }

  lemma NoSlotRefused(file: seq<byte>, journal: seq<byte>)
    requires HeaderOk(file) && |journal| == 104 && NewestSlot(file, journal) == None
    ensures
      var d := Disk(Some(file), Some(journal));
      var (r, d') := RecoverStartup(d);
      Refused(d, r, d') && r.action == NoConsistentCheckpoint && r.validRecords == r.lastSequence == 0
  {
    hide HeaderOk, Trim, ScanHealthyPrefix, ScannedEntries, LastSequence, RecoverCheckpoint, DecodeCheckpointSlot;
    hide CountFrom, SelectCheckpoint, DecodeFileHeader, NewestSlot, RecoverTrimmed, Entries, ScanReport;
    hide SlotAt, ValidCount, RecordValid, ValidPrefix, Healthy, RecoverStartup;
    CheckpointIsReached(file, journal);
    SelectionOutcome(Trim(Some(file)).value, ValidCount(file), journal, ScanHealthyPrefix(Some(file)));
  }

  lemma NewestSlotRestored(file: seq<byte>, journal: seq<byte>)
    requires HeaderOk(file) && |journal| == 104 && NewestSlot(file, journal).Some?
    ensures
      var (r, d') := RecoverStartup(Disk(Some(file), Some(journal)));
      Restored(file, journal, NewestSlot(file, journal).value, r, d')
  {
    hide HeaderOk, Trim, ScanHealthyPrefix, ScannedEntries, LastSequence, RecoverCheckpoint, DecodeCheckpointSlot;
    hide CountFrom, SelectCheckpoint, DecodeFileHeader, NewestSlot, RecoverTrimmed, Entries, ScanReport;
    hide SlotAt, ValidCount, RecordValid, ValidPrefix, Healthy, RecoverStartup;
    CheckpointIsReached(file, journal);
    var kept, slot := Trim(Some(file)).value, NewestSlot(file, journal).value;
    SelectionOutcome(kept, ValidCount(file), journal, ScanHealthyPrefix(Some(file)));
    assert kept[..slot.committedLength] == file[..slot.committedLength];
  }

  // A journal of checkpoints restores the newest one that describes a prefix of the
  // log, and is refused if neither does.
  lemma CheckpointOutcome(file: seq<byte>, journal: seq<byte>)
    requires HeaderOk(file) && |journal| == 104
    ensures
      var d := Disk(Some(file), Some(journal));
      var (r, d') := RecoverStartup(d);
      match NewestSlot(file, journal)
      case None => Refused(d, r, d') && r.action == NoConsistentCheckpoint && r.validRecords == r.lastSequence == 0
      case Some(slot) => Restored(file, journal, slot, r, d')
  {
    hide FileHeaderOk, NewestSlot, RecoverStartup, Refused, Restored;
    if NewestSlot(file, journal) == None {
      NoSlotRefused(file, journal);
    } else {
      NewestSlotRestored(file, journal);
    }
  }

  lemma CheckpointIsReached(file: seq<byte>, journal: seq<byte>)
    requires HeaderOk(file) && |journal| == 104
    ensures Trim(Some(file)).Some?
    ensures
      var kept, scanned := Trim(Some(file)).value, ScanHealthyPrefix(Some(file));
      && |kept| <= |file| && kept == file[..|kept|]
      && Healthy(kept, ValidCount(file)) && scanned.(truncated := false) == ScanReport(kept)
      && (scanned.truncated <==> |kept| < |file|)
      && |kept| >= 24 && kept[..24] == file[..24]
      && SelectCheckpoint(kept, DecodeFileHeader(kept[..24]).startTime, scanned, journal) == NewestSlot(file, journal)
      && var (r, log) := RecoverCheckpoint(Some(kept), journal, scanned);
      RecoverStartup(Disk(Some(file), Some(journal))) == (r, Disk(log, Some(journal)))
  {
    hide HeaderOk, Trim, ScanHealthyPrefix, ScannedEntries, LastSequence, RecoverCheckpoint, DecodeCheckpointSlot;
    hide CountFrom, SelectCheckpoint, DecodeFileHeader, NewestSlot, RecoverTrimmed, Entries, ScanReport;
    hide SlotAt, ValidCount, RecordValid, ValidPrefix, Healthy;
    TrimmedLog(file);
    TrimmedScan(file);
    SelectedExactly(file, journal);
    CheckpointBranch(Disk(Trim(Some(file)), Some(journal)), ScanHealthyPrefix(Some(file)));
  }

  // Startup recovery is healthy exactly for the logs and journals that Recoverable
  // lists.  Otherwise an existing log loses its invalid tail and nothing else changes.
  lemma StartupHealthyExactly(d: Disk)
    requires d.log.Some? ==> |d.log.value| + 84 < 0x8000_0000_0000_0000
    ensures var (r, d') := RecoverStartup(d);
      && (r.healthy <==> Recoverable(d))
      && (!r.healthy && d.log.Some? ==> Refused(d, r, d'))
  {
    hide RecoverStartup, HeaderOk, DescribesPrefix, MigratedTo, HoldsWholeLog, Trim, Restored;
    match d.log
    case None =>
      NoLogOutcome(d.journal);
    case Some(file) =>
      if !HeaderOk(file) {
        BadHeaderRefused(d);
      } else if d.journal == None {
        MissingOrTornJournalRefused(d);
      } else {
        ExistingHealthyExactly(file, d.journal.value);
      }
  }

  lemma ExistingHealthyExactly(file: seq<byte>, journal: seq<byte>)
    requires HeaderOk(file) && |file| + 84 < 0x8000_0000_0000_0000
    ensures var d := Disk(Some(file), Some(journal));
      var (r, d') := RecoverStartup(d);
      && (r.healthy <==> Recoverable(d))
      && (!r.healthy ==> Refused(d, r, d'))
  {
    hide RecoverStartup, HeaderOk, DescribesPrefix, MigratedTo, HoldsWholeLog, Trim, LastSequence;
    hide JournalEntryValid, DecodeJournalEntry, SlotAt, ScannedEntries, JournaledRecord, Base;
    if |journal| == 104 {
      CheckpointOutcome(file, journal);
    } else if |journal| == 0 {
      EmptyJournalMigrates(file);
      assert journal == [];
    } else if |journal| != 112 {
      MissingOrTornJournalRefused(Disk(Some(file), Some(journal)));
    } else if Pending(journal) == None {
      CorruptEntryMigrates(file, journal);
    } else if Pending(journal).value.header.sequence <= LastSequence(ScannedEntries(file)) {
      KnownEntryMigrates(file, journal);
    } else if Pending(journal).value.header.sequence == LastSequence(ScannedEntries(file)) + 1 {
      NextEntryIsReplayed(file, journal);
    } else {
      GapRefused(file, journal);
    }
  }
}
