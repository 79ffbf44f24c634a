/**
 The recovery manager: the forward scan, truncation and startup recovery as they
 act on files, proved against the functions of Recovery.
 */
module RecoveryManager {
  import opened Basics
  import opened Bytes
  import opened LogFormat
  import opened LogScanner
  import opened Recovery
  import StartupOutcomes

  // Up to length bytes at pos; fewer at the end of the file
  function ReadUpTo(file: seq<byte>, pos: nat, length: nat): (bs: seq<byte>)
    requires pos <= |file|
    ensures |bs| <= length && (|bs| < length ==> pos + |bs| == |file|)
  {
    if pos + length <= |file| then file[pos..pos + length] else file[pos..]
  }

  // The report of the scan loop after k valid records
  ghost predicate Scanned(file: seq<byte>, k: nat, report: RecoveryReport) {
    && Boundary(k) <= |file|
    && report.validRecords == k
    && report.lastSequence == LastSequence(Entries(file, k))
    && report.firstBadRecordSequence == LastSequence(Entries(file, k))
    && !report.healthy && !report.truncated && !report.corruptionDetected
    && report.checksumFailures == 0 && report.expectedSequence == 0
  }

  lemma LastOfEntries(file: seq<byte>, k: nat)
    requires 0 < k && Boundary(k) <= |file|
    ensures LastSequence(Entries(file, k)) == HeaderPart(RecordAt(file, k - 1)).sequence
  {
  }

  lemma ScanStops(file: seq<byte>, k: nat)
    requires HeaderOk(file) && !RecordValid(file, k)
    requires forall i :: 0 <= i < k ==> RecordValid(file, i)
    ensures ValidCount(file) == k
  {
    hide HeaderOk, RecordValid;
    LongestPrefix(file, k);
  }

  lemma RecordParts(file: seq<byte>, k: nat)
    requires Boundary(k) <= |file|
    ensures Boundary(k) + 28 <= |file| ==> ReadUpTo(file, Boundary(k), 28) == file[Boundary(k)..Boundary(k) + 28]
    ensures Boundary(k + 1) <= |file| ==>
      && ReadUpTo(file, Boundary(k), 28) == RecordAt(file, k)[..28]
      && ReadUpTo(file, Boundary(k) + 28, 52) == RecordAt(file, k)[28..80]
      && ReadUpTo(file, Boundary(k) + 80, 4) == RecordAt(file, k)[80..]
  {
    if Boundary(k + 1) <= |file| {
      SliceOfSlice(file, Boundary(k), 84, 0, 28);
      SliceOfSlice(file, Boundary(k), 84, 28, 80);
      SliceOfSlice(file, Boundary(k), 84, 80, 84);
    }
  }

  lemma HeaderLength(file: seq<byte>)
    requires HeaderOk(file)
    ensures Boundary(0) <= |file|
  {
    assert Boundary(0) == 24;
    assert FileHeaderOk(DecodeFileHeader(file[..24]));
  }

  // Reads record k.  The scan ends unless the record continues the log.
  method ReadRecord(file: seq<byte>, k: nat, before: RecoveryReport) returns (report: RecoveryReport, done: bool)
    requires Scanned(file, k, before)
    ensures done <==> !RecordValid(file, k)
    ensures done ==> report == RecordsReport(file, k)
    ensures !done ==> Boundary(k + 1) <= |file| && Scanned(file, k + 1, report)
  {
    hide DecodeRecordHeader, DecodePayload, ComputeRecordCrc, FromLE, Entries;
    var recordOffset := Boundary(k);
    report := before.(firstBadRecordIndex := k + 1, corruptionOffset := recordOffset);
    done := true;
    RecordParts(file, k);
    if k > 0 {
      LastOfEntries(file, k);
    }

    var headerBytes := ReadUpTo(file, recordOffset, 28);
    if |headerBytes| < 28 {
      report := report.(bytesScanned := recordOffset + |headerBytes|, validBytes := recordOffset);
      report := if |headerBytes| == 0 then report.(healthy := true, finding := Validated)
                else report.(corruptionDetected := true, finding := PartialRecordHeader);
      return;
    }
    var header := DecodeRecordHeader(headerBytes);
    report := report.(bytesScanned := recordOffset + 28, firstBadRecordSequence := header.sequence);

    if !RecordMetadataOk(header) {
      report := report.(corruptionDetected := true, validBytes := recordOffset, finding := InvalidRecordMetadata);
      return;
    }
    var payloadBytes := ReadUpTo(file, recordOffset + 28, 52);
    if |payloadBytes| < 52 {
      report := report.(bytesScanned := report.bytesScanned + |payloadBytes|,
                        corruptionDetected := true, validBytes := recordOffset, finding := TruncatedPayload);
      return;
    }
    report := report.(bytesScanned := report.bytesScanned + 52);
    var crcBytes := ReadUpTo(file, recordOffset + 80, 4);
    if |crcBytes| < 4 {
      report := report.(bytesScanned := report.bytesScanned + |crcBytes|,
                        corruptionDetected := true, validBytes := recordOffset, finding := TruncatedRecordCrc);
      return;
    }
    report := report.(bytesScanned := report.bytesScanned + 4);

    var payload := DecodePayload(payloadBytes);
    if FromLE(crcBytes) != ComputeRecordCrc(header, payload) {
      report := report.(corruptionDetected := true, validBytes := recordOffset,
                        checksumFailures := report.checksumFailures + 1, finding := CrcMismatch);
      return;
    }
    var previous: nat := report.lastSequence;
    if k > 0 && (previous == U64_MAX || header.sequence != previous + 1) {
      report := report.(corruptionDetected := true, validBytes := recordOffset,
                        expectedSequence := U64(previous + 1), finding := NonContiguous);
      return;
    }
    LastOfEntries(file, k + 1);
    report := report.(validRecords := report.validRecords + 1, lastSequence := header.sequence);
    done := false;
  }

  // Reads one record after the other until the first that does not continue the
  // log.
  method ScanRecords(file: seq<byte>) returns (report: RecoveryReport, entries: seq<Entry>)
    requires HeaderOk(file)
    ensures report == ScanReport(file)
    ensures entries == ScannedEntries(file)
  {
    hide HeaderOk, RecordValid, RecordsReport, RecordAt, EntryOf;
    report := EMPTY_REPORT;
    entries := [];
    var k, done := 0, false;
    HeaderLength(file);
    while !done
      invariant forall i :: 0 <= i < k ==> RecordValid(file, i)
      invariant Boundary(k) <= |file| && entries == Entries(file, k)
      invariant !done ==> Scanned(file, k, report)
      invariant done ==> !RecordValid(file, k) && report == RecordsReport(file, k)
      decreases |file| - Boundary(k), !done
    {
      report, done := ReadRecord(file, k, report);
      if !done {
        entries := entries + [EntryOf(RecordAt(file, k))];
        k := k + 1;
      }
    }
    ScanStops(file, k);
  }

  // The files and what recovery does to them

  class FileSystem {
    var log: Option<seq<byte>>
    var journal: Option<seq<byte>>
    ghost var history: seq<Disk>  // the contents after every change

    function Files(): Disk
      reads this
    {
      Disk(log, journal)
    }

    constructor (log: Option<seq<byte>>, journal: Option<seq<byte>>)
      ensures Files() == Disk(log, journal) && history == []
    {
      this.log, this.journal, history := log, journal, [];
    }

    method ScanFile(truncateInvalidTail: bool) returns (report: RecoveryReport, entries: seq<Entry>)
      modifies this`log, this`history
      ensures truncateInvalidTail && old(MustTrim(log)) ==>
        && report.truncated && report.(truncated := false) == old(Scan(log))
        && log == old(Trim(log)) && history == old(history) + [Files()]
      ensures !(truncateInvalidTail && old(MustTrim(log))) ==>
        report == old(Scan(log)) && log == old(log) && history == old(history)
      ensures entries == if old(log).Some? then ScannedEntries(old(log).value) else []
    {
      hide HeaderOk, FileHeaderMetadataOk, DecodeFileHeader, ComputeFileHeaderCrc, RecordsReport;
      hide ScannedEntries, CountFrom;
      entries := [];
      if log == None {
        report := EMPTY_REPORT.(healthy := true);
        return;
      }
      var file := log.value;
      ReportBasics(file);
      report := EMPTY_REPORT;
      var bytes := ReadUpTo(file, 0, 24);
      if |bytes| < 24 {
        report := report.(bytesScanned := |bytes|, corruptionDetected := true, finding := PartialFileHeader);
        ShortHeader(file);
      } else {
        report := report.(bytesScanned := 24);
        var header := DecodeFileHeader(bytes);
        WholeHeader(file);
        if !FileHeaderMetadataOk(header) {
          report := report.(corruptionDetected := true, finding := InvalidFileHeader);
        } else if ComputeFileHeaderCrc(header) != header.crc {
          report := report.(corruptionDetected := true, finding := CorruptFileHeader);
        } else {
          report, entries := ScanRecords(file);
          NotTruncated(file);
        }
      }
      if !report.healthy && truncateInvalidTail && report.validBytes >= 24 {
        log := Some(file[..report.validBytes]);
        history := history + [Files()];
        report := report.(truncated := true);
      }
    }

    method ScanHealthyPrefix(truncateInvalidTail: bool) returns (report: RecoveryReport)
      modifies this`log, this`history
      ensures truncateInvalidTail ==> report == old(Recovery.ScanHealthyPrefix(log)) && log == old(Trim(log))
      ensures !truncateInvalidTail ==> report == old(Scan(log)) && log == old(log)
      ensures history == old(history) + if truncateInvalidTail && old(MustTrim(log)) then [Files()] else []
    {
      hide Scan;
      ghost var entries: seq<Entry>;
      report, entries := ScanFile(truncateInvalidTail);
      if !report.healthy && report.truncated {
        report, entries := ScanFile(false);
        report := report.(truncated := true);
      }
    }

    // Truncates the log to the newest checkpoint that agrees with it.
    method RecoverCheckpointJournal(slots: seq<byte>, scanned: RecoveryReport) returns (startup: StartupReport)
      requires |slots| == 104
      requires scanned.healthy && log.Some? ==> scanned.validBytes <= |log.value|
      modifies this`log, this`history
      ensures (startup, log) == old(RecoverCheckpoint(log, slots, scanned))
      ensures history == old(history) || history == old(history) + [Files()]
    {
      hide Scan, CheckpointMetadataValid, LastSequenceMatches, DecodeFileHeader, SlotAt;
      startup := EMPTY_STARTUP.(
        journalFound := true, logTruncated := scanned.truncated, checksumFailures := scanned.checksumFailures);
      if !scanned.healthy {
        startup := startup.(action := UnhealthyLog);
        return;
      }
      if log == None || |log.value| < 24 {
        startup := startup.(action := UnreadableHeader);
        return;
      }
      var file := log.value;
      var startTime := DecodeFileHeader(file[..24]).startTime;
      var selected: Option<CheckpointSlot> := None;
      var index := 0;
      while index < 2
        invariant 0 <= index <= 2
        invariant selected == SelectedOf(file, startTime, scanned, slots, index)
      {
        var slot := SlotAt(slots, index);
        if Consistent(file, startTime, scanned, slot)
           && (selected == None || slot.generation > selected.value.generation) {
          selected := Some(slot);
        }
        index := index + 1;
      }
      SelectedOfTwo(file, startTime, scanned, slots);
      if selected == None {
        startup := startup.(action := NoConsistentCheckpoint);
        return;
      }
      var slot := selected.value;
      if scanned.validBytes != slot.committedLength {
        log := Some(file[..slot.committedLength]);
        history := history + [Files()];
      }
      var committed := ScanHealthyPrefix(false);
      startup := startup.(
        healthy := committed.healthy && committed.validBytes == slot.committedLength
          && committed.validRecords == slot.recordCount && committed.lastSequence == slot.lastSequence,
        logTruncated := startup.logTruncated || scanned.validBytes != slot.committedLength,
        validRecords := committed.validRecords,
        lastSequence := committed.lastSequence,
        checkpointGeneration := slot.generation,
        committedLength := slot.committedLength);
      startup := startup.(action := if startup.healthy then RestoredCheckpoint else CheckpointMismatch);
    }

    // Replaces the journal by a checkpoint of the scanned log: slot 0 is valid, of
    // generation 1 and describes what was scanned; slot 1 is not valid.
    method WriteCheckpointJournal(report: RecoveryReport)
      requires HeaderReadable(log)
      modifies this`journal, this`history
      ensures HoldsCheckpoint(log.value, report, journal)
      ensures journal == Some(MigratedJournal(log.value, report))
      ensures history == old(history) + [Files()]
    {
      hide DecodeFileHeader, EncodeCheckpointSlot, ComputeCheckpointCrc, CheckpointMetadataValid, SlotAt, EmptySlot;
      var header := DecodeFileHeader(log.value[..24]);
      var slot := CheckpointSlot(JOURNAL_MAGIC, CHECKPOINT_JOURNAL_VERSION, 52, 1, header.startTime,
                                 U64(report.validBytes), U64(report.validRecords), report.lastSequence, 0);
      slot := slot.(crc := ComputeCheckpointCrc(slot));
      journal := Some(EncodeCheckpointSlot(slot) + EmptySlot());
      history := history + [Files()];
      MigratedJournalHolds(log.value, report);
    }

    // The common end of the legacy paths
    method MigrateJournal(startup: StartupReport, report: RecoveryReport, allowed: bool, action: Action)
      returns (result: StartupReport)
      modifies this`journal, this`history
      ensures (result, Files()) == old(Migrate(startup, Files(), report, allowed, action))
      // Healthy means that the journal now holds what the report says.
      ensures result.healthy <==> allowed && HeaderReadable(log)
      ensures result.healthy ==>
        HoldsCheckpoint(log.value, report, journal) && result.committedLength == report.validBytes
      ensures !result.healthy ==> journal == old(journal)
      ensures history == old(history) || history == old(history) + [Files()]
    {
      hide MigratedJournal;
      var migrated := allowed && HeaderReadable(log);
      if migrated {
        WriteCheckpointJournal(report);
      }
      result := startup.(
        healthy := migrated,
        journalMigrated := migrated,
        checkpointGeneration := if migrated then 1 else 0,
        committedLength := if migrated then report.validBytes else 0,
        action := action);
    }

    // Appends a pending record and migrates.  The record is appended before the
    // journal is replaced.
    method RollJournalForward(startup: StartupReport, entry: JournalEntry) returns (result: StartupReport)
      modifies this`log, this`journal, this`history
      ensures (result, Files()) == old(RollForward(startup, Files(), entry))
      // A valid record that continues a healthy log is replayed as its next record.
      ensures Continues(old(log), entry) ==>
        && result.healthy && result.journalReplayed
        && log == Some(old(log).value + JournaledRecord(entry))
        && result.validRecords == ValidCount(old(log).value) + 1
        && result.lastSequence == entry.header.sequence
        && result.committedLength == |log.value|
      ensures history == old(history) + [Disk(Some(old(Replayed(log, entry))), old(journal))]
           || history == old(history) + [Disk(Some(old(Replayed(log, entry))), old(journal)), Files()]
    {
      hide Scan, Replayed, Continues, JournaledRecord, HoldsCheckpoint, MigratedJournal, JournalEntryValid;
      ReplayExtends(log, entry);
      log := Some(Replayed(log, entry));
      history := history + [Files()];
      var replayed := ScanHealthyPrefix(false);
      if !replayed.healthy || replayed.lastSequence != entry.header.sequence {
        result := startup.(action := ReplayFailed);
        return;
      }
      result := startup.(
        journalReplayed := true,
        journalCleared := true,
        validRecords := replayed.validRecords,
        lastSequence := replayed.lastSequence,
        checksumFailures := replayed.checksumFailures);
      result := MigrateJournal(result, replayed, true, RolledForward);
    }

    method RecoverLegacyJournal(startup: StartupReport, scanned: RecoveryReport, entry: JournalEntry)
      returns (result: StartupReport)
      modifies this`log, this`journal, this`history
      ensures (result, Files()) == old(RecoverLegacy(startup, Files(), scanned, entry))
      // An unhealthy log or a gap is refused, nothing is changed; a record that the
      // log already has is dropped; the next one is replayed.
      ensures !scanned.healthy || scanned.lastSequence + 1 < entry.header.sequence ==>
        Files() == old(Files()) && result.healthy == startup.healthy
      ensures scanned.healthy && scanned.lastSequence >= entry.header.sequence ==>
        && log == old(log)
        && (result.healthy <==> HeaderReadable(log))
        && (result.healthy ==> HoldsCheckpoint(log.value, scanned, journal))
      ensures scanned.healthy && scanned.lastSequence + 1 == entry.header.sequence && Continues(old(log), entry) ==>
        && result.healthy
        && log == Some(old(log).value + JournaledRecord(entry))
    {
      hide Migrate, RollForward, Continues, HoldsCheckpoint, JournaledRecord;
      if !scanned.healthy {
        result := startup.(action := UnhealthyLog);
      } else if scanned.lastSequence >= entry.header.sequence {
        result := MigrateJournal(startup.(journalCleared := true), scanned, true, ClearedStaleJournal);
      } else if scanned.lastSequence + 1 != entry.header.sequence {
        result := startup.(action := SequenceMismatch);
      } else {
        result := RollJournalForward(startup, entry);
      }
    }

    // Startup recovery leaves the files that RecoverStartup describes.  It is healthy
    // exactly for the logs and journals that Recoverable lists; otherwise an existing
    // log loses its invalid tail and nothing else changes.  In particular, an existing
    // log without its journal, or with one of a length that is none of the three, is
    // refused.  With a journal of checkpoints, the only other contents on the way are those after
    // the first truncation.
    method RecoverStartupState() returns (startup: StartupReport)
      modifies this
      ensures (startup, Files()) == old(RecoverStartup(Files()))
      ensures old(log.Some? ==> |log.value| + 84 < 0x8000_0000_0000_0000) ==>
        && (startup.healthy <==> old(StartupOutcomes.Recoverable(Files())))
        && (!startup.healthy && old(log).Some? ==> StartupOutcomes.Refused(old(Files()), startup, Files()))
      ensures old(log).Some?
              && (old(journal) == None
                  || (|old(journal).value| != 0 && |old(journal).value| != 104 && |old(journal).value| != 112)) ==>
        !startup.healthy && Files() == old(Disk(Trim(log), journal))
      ensures old(journal).Some? && |old(journal).value| == 104 ==>
        && old(history) <= history
        && forall i :: |old(history)| <= i < |history| ==>
             history[i] == old(Disk(Trim(log), journal)) || history[i] == Files()
    {
      hide MustTrim, Trim, Recovery.ScanHealthyPrefix, RecoverCheckpoint, Migrate, RecoverLegacy;
      hide DecodeJournalEntry, JournalEntryValid, StartupOutcomes.Recoverable, StartupOutcomes.Refused;
      RefusalsOf(Files());
      var scanned := ScanHealthyPrefix(true);
      startup := EMPTY_STARTUP.(
        logTruncated := scanned.truncated,
        validRecords := scanned.validRecords,
        lastSequence := scanned.lastSequence,
        checksumFailures := scanned.checksumFailures);
      if journal.Some? && |journal.value| == 104 {
        TrimmedFits(old(log));
        startup := RecoverCheckpointJournal(journal.value, scanned);
        return;
      }
      if journal.Some? && |journal.value| != 0 && |journal.value| != 112 {
        startup := startup.(journalFound := true, action := TornJournal);
        return;
      }
      if journal == None || |journal.value| == 0 {
        if journal == None && log.Some? {
          startup := startup.(healthy := false, action := MissingJournal);
          return;
        }
        startup := startup.(healthy := scanned.healthy);
        if startup.healthy && log.Some? {
          startup := MigrateJournal(startup.(journalFound := true, healthy := false), scanned, true,
                                    MigratedEmptyJournal);
        }
        return;
      }
      var entry := DecodeJournalEntry(journal.value);
      startup := startup.(journalFound := true);
      if !JournalEntryValid(entry) {
        startup := MigrateJournal(startup.(journalDiscarded := true), scanned, scanned.healthy,
                                  DiscardedCorruptJournal);
      } else {
        startup := RecoverLegacyJournal(startup, scanned, entry);
      }
    }
  }

  lemma RefusalsOf(d: Disk)
    ensures (d.log.Some? ==> |d.log.value| + 84 < 0x8000_0000_0000_0000) ==>
      && (RecoverStartup(d).0.healthy <==> StartupOutcomes.Recoverable(d))
      && (!RecoverStartup(d).0.healthy && d.log.Some? ==>
            StartupOutcomes.Refused(d, RecoverStartup(d).0, RecoverStartup(d).1))
    ensures d.log.Some?
            && (d.journal == None
                || (|d.journal.value| != 0 && |d.journal.value| != 104 && |d.journal.value| != 112)) ==>
      !RecoverStartup(d).0.healthy && RecoverStartup(d).1 == d.(log := Trim(d.log))
  {
    hide RecoverStartup, Trim, StartupOutcomes.Recoverable;
    if d.log.Some? ==> |d.log.value| + 84 < 0x8000_0000_0000_0000 {
      StartupOutcomes.StartupHealthyExactly(d);
    }
    if d.log.Some?
       && (d.journal == None
           || (|d.journal.value| != 0 && |d.journal.value| != 104 && |d.journal.value| != 112)) {
      StartupOutcomes.MissingOrTornJournalRefused(d);
    }
  }

  // The pending record is valid and is the next one of a healthy log.
  ghost predicate Continues(log: Option<seq<byte>>, entry: JournalEntry) {
    && log.Some?
    && Healthy(log.value, ValidCount(log.value))
    && JournalEntryValid(entry)
    && LastSequence(Entries(log.value, ValidCount(log.value))) + 1 == entry.header.sequence
  }

  lemma ReplayExtends(log: Option<seq<byte>>, entry: JournalEntry)
    ensures Continues(log, entry) ==>
      && var replayed := Scan(Some(Replayed(log, entry)));
      && Replayed(log, entry) == log.value + JournaledRecord(entry)
      && HeaderReadable(Some(Replayed(log, entry)))
      && replayed.healthy && replayed.validRecords == ValidCount(log.value) + 1
      && replayed.lastSequence == entry.header.sequence
      && replayed.validBytes == |Replayed(log, entry)|
  {
    hide HeaderOk, RecordValid, ScanReport, JournalEntryValid, JournaledRecord, Entries;
    if Continues(log, entry) {
      var k := ValidCount(log.value);
      RollForwardExtends(log.value, k, entry);
      ScanHealthy(Replayed(log, entry), k + 1);
    }
  }

  // What a migrated journal says when it is read back
  ghost predicate HoldsCheckpoint(file: seq<byte>, report: RecoveryReport, journal: Option<seq<byte>>)
    requires |file| >= 24
  {
    && journal.Some? && |journal.value| == 104
    && var slot := SlotAt(journal.value, 0);
    && CheckpointMetadataValid(slot)
    && slot.generation == 1
    && slot.startTime == DecodeFileHeader(file[..24]).startTime
    && slot.committedLength == U64(report.validBytes)
    && slot.recordCount == U64(report.validRecords)
    && slot.lastSequence == report.lastSequence
    && !CheckpointMetadataValid(SlotAt(journal.value, 1))
  }

  lemma MigratedJournalHolds(file: seq<byte>, report: RecoveryReport)
    requires |file| >= 24
    ensures HoldsCheckpoint(file, report, Some(MigratedJournal(file, report)))
  {
    hide DecodeFileHeader, EncodeCheckpointSlot, DecodeCheckpointSlot, ComputeCheckpointCrc;
    hide CheckpointMetadataValid, EmptySlot;
    var journal := MigratedJournal(file, report);
    var slot := NewCheckpoint(1, DecodeFileHeader(file[..24]).startTime,
                              U64(report.validBytes), U64(report.validRecords), report.lastSequence);
    assert SlotBytes(journal, 0) == EncodeCheckpointSlot(slot);
    assert SlotBytes(journal, 1) == EmptySlot();
    CheckpointSlotRoundTrip(slot);
    CheckpointMetadataMeaning(slot);
    EmptySlotInvalid();
  }

  // The selection among the first n slots
  ghost function SelectedOf(file: seq<byte>, startTime: u64, scanned: RecoveryReport, slots: seq<byte>, n: nat)
    : Option<CheckpointSlot>
    requires |slots| == 104 && n <= 2
  {
    if n == 0 then None
    else
      var slot := SlotAt(slots, n - 1);
      Newer(SelectedOf(file, startTime, scanned, slots, n - 1), slot, Consistent(file, startTime, scanned, slot))
  }

  lemma SelectedOfTwo(file: seq<byte>, startTime: u64, scanned: RecoveryReport, slots: seq<byte>)
    requires |slots| == 104
    ensures SelectedOf(file, startTime, scanned, slots, 2) == SelectCheckpoint(file, startTime, scanned, slots)
  {
    hide Consistent, SlotAt;
    assert SelectedOf(file, startTime, scanned, slots, 1)
        == Newer(None, SlotAt(slots, 0), Consistent(file, startTime, scanned, SlotAt(slots, 0)));
  }

  // A trimmed log is as long as its scan says.
  lemma TrimmedFits(log: Option<seq<byte>>)
    ensures log.Some? && Recovery.ScanHealthyPrefix(log).healthy ==>
      Trim(log).Some? && Recovery.ScanHealthyPrefix(log).validBytes <= |Trim(log).value|
    ensures log == None ==> Trim(log) == None
  {
    hide HeaderOk, RecordValid, ScanReport, Boundary;
    if log == None {
    } else if HeaderOk(log.value) {
      TrimKeepsValidPrefix(log.value);
      ScanHealthy(log.value[..Boundary(ValidCount(log.value))], ValidCount(log.value));
      TrimIdempotent(log);
      HealthyIsTrimmed(log.value[..Boundary(ValidCount(log.value))], ValidCount(log.value));
    } else {
      UnreadableLog(log.value);
    }
  }

  lemma ShortHeader(file: seq<byte>)
    requires |file| < 24
    ensures ScanReport(file) == EMPTY_REPORT.(
      bytesScanned := |file|, corruptionDetected := true, finding := PartialFileHeader)
    ensures ScannedEntries(file) == []
  {
  }

  lemma WholeHeader(file: seq<byte>)
    requires |file| >= 24
    ensures ReadUpTo(file, 0, 24) == file[..24]
    ensures var h := DecodeFileHeader(file[..24]);
      && (HeaderOk(file) <==> FileHeaderMetadataOk(h) && ComputeFileHeaderCrc(h) == h.crc)
      && (!HeaderOk(file) ==>
            ScannedEntries(file) == [] &&
            ScanReport(file) == EMPTY_REPORT.(
              bytesScanned := 24, corruptionDetected := true,
              finding := if !FileHeaderMetadataOk(h) then InvalidFileHeader else CorruptFileHeader))
  {
    hide FileHeaderMetadataOk, DecodeFileHeader, ComputeFileHeaderCrc, RecordsReport, CountFrom;
  }
}
