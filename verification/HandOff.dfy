/**
 From recovery to the writer, for arbitrary contents of the files.

 Recovery compares the last sequence number of a slot with the log; open() does
 not.  A slot that passes every other check can therefore be selected by open()
 although recovery refused it.
 */
module HandOff {
  import opened Basics
  import opened Bytes
  import opened LogFormat
  import opened LogScanner
  import opened Recovery
  import opened LogImage
  import opened CrashProtocol

  // What open() loads agrees with what recovery reported.
  ghost predicate Agrees(report: StartupReport, loaded: Option<Cursor>) {
    && loaded.Some?
    && loaded.value.generation == report.checkpointGeneration
    && loaded.value.count == report.validRecords
    && loaded.value.last == report.lastSequence
    && loaded.value.length == report.committedLength
  }

  // A slot that describes the recovered log but names another last sequence
  predicate Mismatched(slot: CheckpointSlot, startTime: u64, report: StartupReport) {
    && Describes(slot, startTime, report.committedLength)
    && slot.lastSequence != report.lastSequence
  }

  // Such a slot is preferred by open() to the one that recovery selected.
  predicate Impostor(journal: seq<byte>, startTime: u64, report: StartupReport)
    requires |journal| == 104
  {
    || (Mismatched(SlotAt(journal, 0), startTime, report)
        && SlotAt(journal, 0).generation >= report.checkpointGeneration)
    || (Mismatched(SlotAt(journal, 1), startTime, report)
        && SlotAt(journal, 1).generation > report.checkpointGeneration)
  }

  // After healthy recovery from checkpoints, open() always finds a slot.  It
  // loads what recovery reported if and only if there is no impostor.
  lemma HandOffExactly(file: seq<byte>, k: nat, journal: seq<byte>, scanned: RecoveryReport)
    requires |journal| == 104 && Healthy(file, k)
    requires scanned.(truncated := false) == ScanReport(file)
    requires RecoverCheckpoint(Some(file), journal, scanned).0.healthy
    ensures
      var (report, log) := RecoverCheckpoint(Some(file), journal, scanned);
      && log.Some?
      && LoadCheckpoint(log.value, journal).Some?
      && (Agrees(report, LoadCheckpoint(log.value, journal))
          <==> !Impostor(journal, DecodeFileHeader(file[..24]).startTime, report))
  {
    hide HeaderOk, RecordValid, ScanReport, SelectCheckpoint, RecoverCheckpoint, CheckpointMetadataValid;
    hide SlotAt, DecodeFileHeader;
    RecoverCheckpointMeaning(file, k, journal, scanned);
    var startTime := DecodeFileHeader(file[..24]).startTime;
    var slot := SelectCheckpoint(file, startTime, scanned, journal).value;
    var kept := file[..slot.committedLength];
    ScanHealthy(file, k);
    KeptHeader(file, slot);
    SelectedNewest(file, startTime, scanned, journal);
    SlotChoice(kept, startTime, scanned, SlotAt(journal, 0), slot, file, k);
    SlotChoice(kept, startTime, scanned, SlotAt(journal, 1), slot, file, k);
  }

  lemma KeptHeader(file: seq<byte>, slot: CheckpointSlot)
    requires slot.committedLength <= |file| && LengthMatchesCount(slot)
    requires Healthy(file[..slot.committedLength], slot.recordCount)
    ensures OpenHeaderOk(file[..slot.committedLength])
    ensures DecodeFileHeader(file[..slot.committedLength][..24]) == DecodeFileHeader(file[..24])
  {
    hide RecordValid, ComputeFileHeaderCrc, DecodeFileHeader;
    assert file[..slot.committedLength][..24] == file[..24];
  }

  // What is known of the selected slot
  lemma SelectedNewest(file: seq<byte>, startTime: u64, scanned: RecoveryReport, journal: seq<byte>)
    requires |journal| == 104
    requires SelectCheckpoint(file, startTime, scanned, journal).Some?
    ensures
      var slot := SelectCheckpoint(file, startTime, scanned, journal).value;
      var s0, s1 := SlotAt(journal, 0), SlotAt(journal, 1);
      && Consistent(file, startTime, scanned, slot)
      && (slot == s0 || slot == s1)
      && (Consistent(file, startTime, scanned, s0) ==> s0.generation <= slot.generation)
      && (Consistent(file, startTime, scanned, s1) ==> s1.generation <= slot.generation)
  {
    hide Consistent, SlotAt;
  }

  // A slot that describes the kept log is consistent exactly when it names the
  // last sequence of the kept log.
  lemma SlotChoice(kept: seq<byte>, startTime: u64, scanned: RecoveryReport, slot: CheckpointSlot,
                   selected: CheckpointSlot, file: seq<byte>, k: nat)
    requires Healthy(file, k) && scanned.validBytes == |file|
    requires Consistent(file, startTime, scanned, selected) && kept == file[..selected.committedLength]
    requires selected.lastSequence == LastSequence(Entries(file, selected.recordCount))
    ensures Describes(selected, startTime, |kept|)
    ensures Describes(slot, startTime, |kept|) ==>
      && slot.recordCount == selected.recordCount
      && (Consistent(file, startTime, scanned, slot) <==> slot.lastSequence == selected.lastSequence)
  {
    hide HeaderOk, RecordValid, CheckpointMetadataValid, LastSequenceMatches, Entries;
    if Describes(slot, startTime, |kept|) {
      ConsistentMeaning(file, k, slot);
    }
  }

  // After a migration open() always agrees.
  lemma MigratedHandOff(file: seq<byte>, k: nat, report: RecoveryReport)
    requires Healthy(file, k) && SizeFits(Some(file))
    requires report.(truncated := false) == ScanReport(file)
    ensures LoadCheckpoint(file, MigratedJournal(file, report)) ==
      Some(Cursor(|file|, 1, 0, k, LastSequence(Entries(file, k)), k, Idle, false))
  {
    hide HeaderOk, RecordValid, ScanReport, MigratedJournal, CheckpointMetadataValid, DecodeCheckpointSlot;
    hide EncodeCheckpointSlot;
    hide ComputeCheckpointCrc, DecodeFileHeader, EmptySlot, SelectCheckpoint, Entries;
    var startTime := DecodeFileHeader(file[..24]).startTime;
    var slot := NewCheckpoint(1, startTime, |file|, k, LastSequence(Entries(file, k)));
    MigratedSelects(file, k, report);
    CheckpointSlotRoundTrip(slot);
    CheckpointMetadataMeaning(slot);
    EmptySlotInvalid();
    WholeFileHeader(file, k);
  }

  lemma WholeFileHeader(file: seq<byte>, k: nat)
    requires Healthy(file, k)
    ensures OpenHeaderOk(file)
  {
    hide RecordValid, ComputeFileHeaderCrc, DecodeFileHeader;
  }

  // The slots with which recovery and open() part: both describe the empty log,
  // and the newer names a last sequence that the log does not have.
  function ImpostorJournal(startTime: u64): (journal: seq<byte>)
    ensures |journal| == 104
  {
    EncodeCheckpointSlot(NewCheckpoint(2, startTime, 24, 0, 7))
      + EncodeCheckpointSlot(NewCheckpoint(1, startTime, 24, 0, 0))
  }

  lemma ImpostorSlots(startTime: u64)
    ensures SlotAt(ImpostorJournal(startTime), 0) == NewCheckpoint(2, startTime, 24, 0, 7)
    ensures SlotAt(ImpostorJournal(startTime), 1) == NewCheckpoint(1, startTime, 24, 0, 0)
    ensures CheckpointMetadataValid(NewCheckpoint(2, startTime, 24, 0, 7))
    ensures CheckpointMetadataValid(NewCheckpoint(1, startTime, 24, 0, 0))
  {
    hide EncodeCheckpointSlot, DecodeCheckpointSlot, ComputeCheckpointCrc;
    var a, b := NewCheckpoint(2, startTime, 24, 0, 7), NewCheckpoint(1, startTime, 24, 0, 0);
    CheckpointSlotRoundTrip(a);
    CheckpointSlotRoundTrip(b);
    CheckpointMetadataMeaning(a);
    CheckpointMetadataMeaning(b);
    assert ImpostorJournal(startTime)[..52] == EncodeCheckpointSlot(a);
    assert ImpostorJournal(startTime)[52..104] == EncodeCheckpointSlot(b);
  }

  // Recovery restores the older slot; open() then loads the newer one, with a last
  // sequence that no record of the log has.
  lemma ImpostorAfterRecovery(startTime: u64)
    ensures
      var file, journal := Image(startTime, []), ImpostorJournal(startTime);
      var (report, d) := RecoverStartup(Disk(Some(file), Some(journal)));
      && report.healthy && report.checkpointGeneration == 1 && report.lastSequence == 0
      && d == Disk(Some(file), Some(journal))
      && Impostor(journal, startTime, report)
      && LoadCheckpoint(file, journal) == Some(Cursor(24, 2, 0, 0, 7, 0, Idle, false))
  {
    hide Image, EncodeCheckpointSlot, DecodeCheckpointSlot, ComputeCheckpointCrc, CheckpointMetadataValid;
    hide SlotAt, ImpostorJournal;
    hide RecordValid, HeaderOk, DecodeFileHeader, ScanReport, RecoverCheckpoint;
    var file, journal := Image(startTime, []), ImpostorJournal(startTime);
    ImpostorSlots(startTime);
    ImageScans(startTime, [], file);
    ScanHealthy(file, 0);
    WholeFileHeader(file, 0);
    RecoverCheckpointMeaning(file, 0, journal, ScanReport(file));
  }

  // The journal that open() gives a new log: its first slot names the last sequence
  // that the writer object remembers, 0 unless it wrote another log before.
  function FirstJournal(startTime: u64, last: u64): (journal: seq<byte>)
    ensures |journal| == 104
  {
    EncodeCheckpointSlot(NewCheckpoint(1, startTime, 24, 0, last)) + EmptySlot()
  }

  lemma FirstSlots(startTime: u64, last: u64)
    ensures SlotAt(FirstJournal(startTime, last), 0) == NewCheckpoint(1, startTime, 24, 0, last)
    ensures CheckpointMetadataValid(SlotAt(FirstJournal(startTime, last), 0))
    ensures !CheckpointMetadataValid(SlotAt(FirstJournal(startTime, last), 1))
  {
    hide EncodeCheckpointSlot, DecodeCheckpointSlot, ComputeCheckpointCrc, CheckpointMetadataValid, EmptySlot;
    var journal, slot := FirstJournal(startTime, last), NewCheckpoint(1, startTime, 24, 0, last);
    CheckpointSlotRoundTrip(slot);
    CheckpointMetadataMeaning(slot);
    EmptySlotInvalid();
    assert journal[..52] == EncodeCheckpointSlot(slot);
    assert journal[52..104] == EmptySlot();
  }

  // Until its first commit such a log survives a restart if and only if the writer
  // remembered nothing: recovery refuses an empty slot that names a last sequence.
  lemma FirstJournalRecovers(startTime: u64, last: u64)
    ensures
      var file, journal := Image(startTime, []), FirstJournal(startTime, last);
      && (Consistent(file, startTime, ScanReport(file), SlotAt(journal, 0)) <==> last == 0)
      && (RecoverStartup(Disk(Some(file), Some(journal))).0.healthy <==> last == 0)
  {
    hide Image, EncodeCheckpointSlot, DecodeCheckpointSlot, ComputeCheckpointCrc, CheckpointMetadataValid, SlotAt;
    hide FirstJournal, RecordValid, HeaderOk, DecodeFileHeader, ScanReport, RecoverCheckpoint;
    var file, journal := Image(startTime, []), FirstJournal(startTime, last);
    FirstSlots(startTime, last);
    ImageScans(startTime, [], file);
    ScanHealthy(file, 0);
    HealthyIsTrimmed(file, 0);
    RecoverCheckpointMeaning(file, 0, journal, ScanReport(file));
  }
}
