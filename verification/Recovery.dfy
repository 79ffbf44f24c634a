/**
 Startup recovery as a function from the contents of the log and of the journal
 to a report and the contents it leaves behind.  Input and output succeed.
 */
module Recovery {
  import opened Basics
  import opened Bytes
  import opened LogFormat
  import opened LogScanner

  // None is a file that does not exist.
  datatype Disk = Disk(log: Option<seq<byte>>, journal: Option<seq<byte>>)

  function U64(n: nat): u64 {
    n % 0x1_0000_0000_0000_0000
  }

  // File sizes are non-negative 64-bit offsets.
  predicate SizeFits(log: Option<seq<byte>>) {
    log.Some? ==> |log.value| < 0x8000_0000_0000_0000
  }

  // Scanning

  function Scan(log: Option<seq<byte>>): RecoveryReport {
    match log
    case None => EMPTY_REPORT.(healthy := true)
    case Some(file) => ScanReport(file)
  }

  predicate MustTrim(log: Option<seq<byte>>) {
    log.Some? && !Scan(log).healthy && Scan(log).validBytes >= 24
  }

  // The log without its invalid tail
  function Trim(log: Option<seq<byte>>): Option<seq<byte>> {
    if MustTrim(log) then
      ReportBasics(log.value);
      Some(log.value[..Scan(log).validBytes])
    else log
  }

  function ScanHealthyPrefix(log: Option<seq<byte>>): RecoveryReport {
    if MustTrim(log) then Scan(Trim(log)).(truncated := true) else Scan(log)
  }

  // Checkpoints

  function SlotBytes(journal: seq<byte>, i: nat): (bs: seq<byte>)
    requires |journal| == 104 && i < 2
    ensures |bs| == 52
  {
    journal[52 * i..52 * (i + 1)]
  }

  function SlotAt(journal: seq<byte>, i: nat): CheckpointSlot
    requires |journal| == 104 && i < 2
  {
    DecodeCheckpointSlot(SlotBytes(journal, i))
  }

  // The committed length is a record boundary and the count is that of its records.
  predicate LengthMatchesCount(slot: CheckpointSlot) {
    && slot.committedLength >= 24
    && (slot.committedLength - 24) % 84 == 0
    && slot.recordCount == (slot.committedLength - 24) / 84
  }

  predicate LastSequenceMatches(file: seq<byte>, slot: CheckpointSlot)
    requires LengthMatchesCount(slot) && slot.committedLength <= |file|
  {
    if slot.recordCount == 0 then slot.lastSequence == 0
    else
      var at := slot.committedLength - 84;
      DecodeRecordHeader(file[at..at + 28]).sequence == slot.lastSequence
  }

  predicate Consistent(file: seq<byte>, startTime: u64, report: RecoveryReport, slot: CheckpointSlot) {
    && CheckpointMetadataValid(slot)
    && slot.startTime == startTime
    && LengthMatchesCount(slot)
    && slot.committedLength <= report.validBytes
    && slot.committedLength <= |file|
    && LastSequenceMatches(file, slot)
  }

  function Newer(selected: Option<CheckpointSlot>, slot: CheckpointSlot, eligible: bool)
    : Option<CheckpointSlot>
  {
    if eligible && (selected == None || slot.generation > selected.value.generation)
    then Some(slot) else selected
  }

  function SelectCheckpoint(file: seq<byte>, startTime: u64, report: RecoveryReport, journal: seq<byte>)
    : (selected: Option<CheckpointSlot>)
    requires |journal| == 104
    ensures selected.Some? ==> Consistent(file, startTime, report, selected.value)
  {
    var s0, s1 := SlotAt(journal, 0), SlotAt(journal, 1);
    Newer(Newer(None, s0, Consistent(file, startTime, report, s0)),
          s1, Consistent(file, startTime, report, s1))
  }

  // Startup reports

  datatype Action =
    | NothingToRecover
    | UnhealthyLog
    | UnreadableHeader
    | NoConsistentCheckpoint
    | RestoredCheckpoint
    | CheckpointMismatch
    | TornJournal
    | MissingJournal
    | MigratedEmptyJournal
    | DiscardedCorruptJournal
    | ClearedStaleJournal
    | SequenceMismatch
    | ReplayFailed
    | RolledForward

  datatype StartupReport = StartupReport(
    healthy: bool,
    logTruncated: bool,
    journalFound: bool,
    journalCleared: bool,
    journalReplayed: bool,
    journalDiscarded: bool,
    journalMigrated: bool,
    validRecords: nat,
    lastSequence: u64,
    checkpointGeneration: u64,
    committedLength: nat,
    checksumFailures: nat,
    action: Action)

  const EMPTY_STARTUP: StartupReport :=
    StartupReport(false, false, false, false, false, false, false, 0, 0, 0, 0, 0, NothingToRecover)

  // Recovery from a journal of two checkpoint slots, given a trimmed log
  function RecoverCheckpoint(log: Option<seq<byte>>, journal: seq<byte>, scanned: RecoveryReport)
    : (StartupReport, Option<seq<byte>>)
    requires |journal| == 104
  {
    var startup := EMPTY_STARTUP.(
      journalFound := true,
      logTruncated := scanned.truncated,
      checksumFailures := scanned.checksumFailures);
    if !scanned.healthy then (startup.(action := UnhealthyLog), log)
    else if log == None || |log.value| < 24 then (startup.(action := UnreadableHeader), log)
    else
      var startTime := DecodeFileHeader(log.value[..24]).startTime;
      match SelectCheckpoint(log.value, startTime, scanned, journal)
      case None => (startup.(action := NoConsistentCheckpoint), log)
      case Some(slot) =>
        var shorten := scanned.validBytes != slot.committedLength;
        var kept := if shorten then log.value[..slot.committedLength] else log.value;
        var committed := Scan(Some(kept));
        var healthy := committed.healthy && committed.validBytes == slot.committedLength
          && committed.validRecords == slot.recordCount
          && committed.lastSequence == slot.lastSequence;
        (startup.(
           healthy := healthy,
           logTruncated := scanned.truncated || shorten,
           validRecords := committed.validRecords,
           lastSequence := committed.lastSequence,
           checkpointGeneration := slot.generation,
           committedLength := slot.committedLength,
           action := if healthy then RestoredCheckpoint else CheckpointMismatch),
         Some(kept))
  }

  // A slot that was never written
  function EmptySlot(): (bs: seq<byte>)
    ensures |bs| == 52
  {
    seq(52, i => 0)
  }

  // The journal that migration writes: generation one and an empty slot
  function MigratedJournal(file: seq<byte>, report: RecoveryReport): (j: seq<byte>)
    requires |file| >= 24
    ensures |j| == 104
  {
    EncodeCheckpointSlot(NewCheckpoint(
      1, DecodeFileHeader(file[..24]).startTime,
      U64(report.validBytes), U64(report.validRecords), report.lastSequence)) + EmptySlot()
  }

  predicate HeaderReadable(log: Option<seq<byte>>) {
    log.Some? && |log.value| >= 24
  }

  // Replaces the journal by a checkpoint of the whole scanned log.
  function Migrate(startup: StartupReport, d: Disk, report: RecoveryReport, allowed: bool, action: Action)
    : (StartupReport, Disk)
  {
    var migrated := allowed && HeaderReadable(d.log);
    (startup.(
       healthy := migrated,
       journalMigrated := migrated,
       checkpointGeneration := if migrated then 1 else 0,
       committedLength := if migrated then report.validBytes else 0,
       action := action),
     if migrated then d.(journal := Some(MigratedJournal(d.log.value, report))) else d)
  }

  // The log with the pending record appended
  function Replayed(log: Option<seq<byte>>, entry: JournalEntry): seq<byte> {
    (if log.Some? then log.value else []) + JournaledRecord(entry)
  }

  function RollForward(startup: StartupReport, d: Disk, entry: JournalEntry): (StartupReport, Disk) {
    var file := Replayed(d.log, entry);
    var replayed := Scan(Some(file));
    var d' := d.(log := Some(file));
    if !replayed.healthy || replayed.lastSequence != entry.header.sequence then
      (startup.(action := ReplayFailed), d')
    else
      Migrate(startup.(
                journalReplayed := true,
                journalCleared := true,
                validRecords := replayed.validRecords,
                lastSequence := replayed.lastSequence,
                checksumFailures := replayed.checksumFailures),
              d', replayed, true, RolledForward)
  }

  // A journal of one pending record
  function RecoverLegacy(startup: StartupReport, d: Disk, scanned: RecoveryReport, entry: JournalEntry)
    : (StartupReport, Disk)
  {
    if !scanned.healthy then (startup.(action := UnhealthyLog), d)
    else if scanned.lastSequence >= entry.header.sequence then
      Migrate(startup.(journalCleared := true), d, scanned, true, ClearedStaleJournal)
    else if scanned.lastSequence + 1 != entry.header.sequence then
      (startup.(action := SequenceMismatch), d)
    else
      RollForward(startup, d, entry)
  }

  // Recovery after the scan has trimmed the log
  function RecoverTrimmed(t: Disk, scanned: RecoveryReport): (StartupReport, Disk) {
    var startup := EMPTY_STARTUP.(
      logTruncated := scanned.truncated,
      validRecords := scanned.validRecords,
      lastSequence := scanned.lastSequence,
      checksumFailures := scanned.checksumFailures);
    match t.journal
    case None =>
      if t.log.Some? then (startup.(action := MissingJournal), t)
      else (startup.(healthy := scanned.healthy), t)
    case Some(journal) =>
      if |journal| == 104 then
        var (report, log) := RecoverCheckpoint(t.log, journal, scanned);
        (report, t.(log := log))
      else if |journal| == 0 then
        if scanned.healthy && t.log.Some? then
          Migrate(startup.(journalFound := true), t, scanned, true, MigratedEmptyJournal)
        else (startup.(healthy := scanned.healthy), t)
      else if |journal| != 112 then
        (startup.(journalFound := true, action := TornJournal), t)
      else
        var entry := DecodeJournalEntry(journal);
        if !JournalEntryValid(entry) then
          Migrate(startup.(journalFound := true, journalDiscarded := true), t, scanned,
                  scanned.healthy, DiscardedCorruptJournal)
        else RecoverLegacy(startup.(journalFound := true), t, scanned, entry)
  }

  function RecoverStartup(d: Disk): (StartupReport, Disk) {
    RecoverTrimmed(d.(log := Trim(d.log)), ScanHealthyPrefix(d.log))
  }

  // The scan after trimming

  lemma TrimKeepsValidPrefix(file: seq<byte>)
    requires HeaderOk(file)
    ensures var k := ValidCount(file);
      && Boundary(k) <= |file|
      && Trim(Some(file)) == Some(file[..Boundary(k)])
      && Healthy(file[..Boundary(k)], k)
      && Entries(file[..Boundary(k)], k) == Entries(file, k)
  {
    hide HeaderOk, RecordValid;
    var k := ValidCount(file);
    ReportBasics(file);
    LongestPrefix(file, k);
    CutAtBoundary(file, k);
    LongestPrefix(file[..Boundary(k)], k);
    if Scan(Some(file)).healthy {
      assert file[..Boundary(k)] == file;
    }
  }

  // What a healthy file scans to
  lemma ScanHealthy(file: seq<byte>, k: nat)
    requires Healthy(file, k)
    ensures var r := ScanReport(file);
      && r.healthy && !r.truncated && r.validRecords == k && r.validBytes == |file|
      && r.lastSequence == LastSequence(Entries(file, k)) && r.checksumFailures == 0
  {
    hide HeaderOk, RecordValid;
    HealthyCount(file, k);
  }

  lemma UnreadableLog(file: seq<byte>)
    requires !HeaderOk(file)
    ensures !MustTrim(Some(file)) && !ScanHealthyPrefix(Some(file)).healthy
  {
    hide HeaderOk, RecordValid;
  }

  // Trimming twice is trimming once, and the second scan finds the same.
  lemma TrimIdempotent(log: Option<seq<byte>>)
    ensures Trim(Trim(log)) == Trim(log)
    ensures ScanHealthyPrefix(Trim(log)) == ScanHealthyPrefix(log).(truncated := false)
    ensures !ScanHealthyPrefix(Trim(log)).truncated
  {
    hide HeaderOk, ScanReport, Boundary;
    if log.Some? {
      if HeaderOk(log.value) {
        var k := ValidCount(log.value);
        TrimKeepsValidPrefix(log.value);
        ScanHealthy(log.value[..Boundary(k)], k);
        NotTruncated(log.value);
      } else {
        UnreadableLog(log.value);
        NotTruncated(log.value);
      }
    }
  }

  lemma NotTruncated(file: seq<byte>)
    ensures !ScanReport(file).truncated
  {
    hide HeaderOk, RecordValid;
  }

  // Checkpoints that agree with the log

  // The last sequence number of the first n records, zero if there are none
  lemma ConsistentMeaning(file: seq<byte>, k: nat, slot: CheckpointSlot)
    requires ValidPrefix(file, k) && Boundary(k) <= |file|
    requires LengthMatchesCount(slot) && slot.committedLength <= Boundary(k)
    ensures slot.recordCount <= k && slot.committedLength == Boundary(slot.recordCount)
    ensures LastSequenceMatches(file, slot) <==>
      slot.lastSequence == LastSequence(Entries(file, slot.recordCount))
  {
    hide HeaderOk, RecordValid;
    var n := slot.recordCount;
    if n > 0 {
      var at := slot.committedLength - 84;
      assert RecordAt(file, n - 1)[..28] == file[at..at + 28];
    }
  }

  // Truncating to a consistent checkpoint leaves exactly its records.
  lemma CheckpointRestores(file: seq<byte>, k: nat, slot: CheckpointSlot)
    requires Healthy(file, k)
    requires LengthMatchesCount(slot) && slot.committedLength <= |file| && LastSequenceMatches(file, slot)
    ensures slot.recordCount <= k
    ensures var kept := file[..slot.committedLength];
      && Healthy(kept, slot.recordCount)
      && Entries(kept, slot.recordCount) == Entries(file, slot.recordCount)
      && LastSequence(Entries(kept, slot.recordCount)) == slot.lastSequence
  {
    hide HeaderOk, RecordValid;
    ConsistentMeaning(file, k, slot);
    PrefixOfPrefix(file, k, slot.recordCount);
    CutAtBoundary(file, slot.recordCount);
    LongestPrefix(file[..slot.committedLength], slot.recordCount);
  }

  lemma PrefixOfPrefix(file: seq<byte>, k: nat, n: nat)
    requires ValidPrefix(file, k) && n <= k
    ensures ValidPrefix(file, n)
  {
  }

  // On a scanned log, recovery from checkpoints is healthy exactly when some
  // checkpoint is selected, and then it keeps exactly the selected records.
  lemma RecoverCheckpointMeaning(file: seq<byte>, k: nat, journal: seq<byte>, scanned: RecoveryReport)
    requires |journal| == 104 && Healthy(file, k)
    requires scanned.(truncated := false) == ScanReport(file)
    ensures var startTime := DecodeFileHeader(file[..24]).startTime;
      var selected := SelectCheckpoint(file, startTime, scanned, journal);
      var (report, log) := RecoverCheckpoint(Some(file), journal, scanned);
      && (report.healthy <==> selected.Some?)
      && (selected == None ==> log == Some(file))
      && (selected.Some? ==>
            var slot := selected.value;
            && slot.recordCount <= k && slot.committedLength == Boundary(slot.recordCount)
            && log == Some(file[..slot.committedLength])
            && Healthy(file[..slot.committedLength], slot.recordCount)
            && report.validRecords == slot.recordCount
            && report.lastSequence == slot.lastSequence
            && slot.lastSequence == LastSequence(Entries(file, slot.recordCount))
            && report.checkpointGeneration == slot.generation
            && report.committedLength == slot.committedLength
            && (report.logTruncated <==> scanned.truncated || slot.recordCount < k))
  {
    hide HeaderOk, RecordValid, ScanReport, CheckpointMetadataValid, LastSequenceMatches;
    ScanHealthy(file, k);
    var startTime := DecodeFileHeader(file[..24]).startTime;
    var selected := SelectCheckpoint(file, startTime, scanned, journal);
    if selected.Some? {
      var slot := selected.value;
      CheckpointRestores(file, k, slot);
      ScanHealthy(file[..slot.committedLength], slot.recordCount);
      if scanned.validBytes == slot.committedLength {
        assert file[..slot.committedLength] == file;
      }
    }
  }

  // Selecting again on the truncated log selects the same checkpoint.
  lemma SelectStable(file: seq<byte>, k: nat, journal: seq<byte>,
                     first: RecoveryReport, second: RecoveryReport)
    requires |journal| == 104 && Healthy(file, k)
    requires first.validBytes == |file|
    requires SelectCheckpoint(file, DecodeFileHeader(file[..24]).startTime, first, journal).Some?
    requires
      var slot := SelectCheckpoint(file, DecodeFileHeader(file[..24]).startTime, first, journal).value;
      second.validBytes == slot.committedLength
    ensures
      var startTime := DecodeFileHeader(file[..24]).startTime;
      var selected := SelectCheckpoint(file, startTime, first, journal);
      var kept := file[..selected.value.committedLength];
      && DecodeFileHeader(kept[..24]).startTime == startTime
      && SelectCheckpoint(kept, startTime, second, journal) == selected
  {
    hide HeaderOk, RecordValid, CheckpointMetadataValid;
    var startTime := DecodeFileHeader(file[..24]).startTime;
    var slot := SelectCheckpoint(file, startTime, first, journal).value;
    var kept := file[..slot.committedLength];
    assert kept[..24] == file[..24];
    CutConsistent(file, kept, startTime, first, second, SlotAt(journal, 0));
    CutConsistent(file, kept, startTime, first, second, SlotAt(journal, 1));
  }

  // Truncation only removes candidates.
  lemma CutConsistent(file: seq<byte>, kept: seq<byte>, startTime: u64,
                      first: RecoveryReport, second: RecoveryReport, slot: CheckpointSlot)
    requires |kept| <= |file| && kept == file[..|kept|]
    requires first.validBytes == |file| && second.validBytes == |kept|
    ensures Consistent(kept, startTime, second, slot) <==>
      Consistent(file, startTime, first, slot) && slot.committedLength <= |kept|
  {
    hide CheckpointMetadataValid;
    if LengthMatchesCount(slot) && slot.committedLength <= |kept| && slot.recordCount > 0 {
      var at := slot.committedLength - 84;
      assert kept[at..at + 28] == file[at..at + 28];
    }
  }

  // The journal that migration leaves

  lemma EmptySlotInvalid()
    ensures !CheckpointMetadataValid(DecodeCheckpointSlot(EmptySlot()))
  {
    hide ComputeCheckpointCrc;
    FromLEZero(EmptySlot()[..4]);
    Sizes();
    assert Unpack(SLOT, EmptySlot())[0] == FromLE(EmptySlot()[..SLOT[0]]);
  }

  lemma {:induction false} FromLEZero(bs: seq<byte>)
    requires forall i :: 0 <= i < |bs| ==> bs[i] == 0
    ensures FromLE(bs) == 0
  {
    if |bs| > 0 {
      FromLEZero(bs[1..]);
    }
  }

  lemma MigratedSelects(file: seq<byte>, k: nat, report: RecoveryReport)
    requires Healthy(file, k) && SizeFits(Some(file))
    requires report.(truncated := false) == ScanReport(file)
    ensures
      var startTime := DecodeFileHeader(file[..24]).startTime;
      var slot := NewCheckpoint(1, startTime, |file|, k, LastSequence(Entries(file, k)));
      && SlotBytes(MigratedJournal(file, report), 0) == EncodeCheckpointSlot(slot)
      && SlotBytes(MigratedJournal(file, report), 1) == EmptySlot()
      && SelectCheckpoint(file, startTime, report, MigratedJournal(file, report)) == Some(slot)
  {
    hide HeaderOk, RecordValid, ScanReport, ComputeCheckpointCrc, EncodeCheckpointSlot, DecodeCheckpointSlot;
    hide EmptySlot;
    ScanHealthy(file, k);
    var startTime := DecodeFileHeader(file[..24]).startTime;
    var slot := NewCheckpoint(1, startTime, |file|, k, LastSequence(Entries(file, k)));
    var journal := MigratedJournal(file, report);
    assert SlotBytes(journal, 0) == EncodeCheckpointSlot(slot);
    assert SlotBytes(journal, 1) == EmptySlot();
    CheckpointSlotRoundTrip(slot);
    CheckpointMetadataMeaning(slot);
    EmptySlotInvalid();
    ConsistentMeaning(file, k, slot);
  }

  // Theorems about the whole of startup recovery

  predicate SameButTruncation(a: StartupReport, b: StartupReport) {
    a.(logTruncated := b.logTruncated) == b
  }

  lemma CheckpointFlag(log: Option<seq<byte>>, journal: seq<byte>, a: RecoveryReport, b: RecoveryReport)
    requires |journal| == 104 && a.(truncated := b.truncated) == b
    ensures RecoverCheckpoint(log, journal, a).1 == RecoverCheckpoint(log, journal, b).1
    ensures SameButTruncation(RecoverCheckpoint(log, journal, a).0, RecoverCheckpoint(log, journal, b).0)
  {
    hide Scan, SelectCheckpoint, CheckpointMetadataValid, LastSequenceMatches, DecodeFileHeader;
    if log.Some? && |log.value| >= 24 {
      SameSelection(log.value, DecodeFileHeader(log.value[..24]).startTime, a, b, journal);
    }
  }

  lemma MigrateFlag(s: StartupReport, u: StartupReport, d: Disk, a: RecoveryReport, b: RecoveryReport,
                    allowed: bool, action: Action)
    requires a.(truncated := b.truncated) == b && SameButTruncation(s, u)
    ensures Migrate(s, d, a, allowed, action).1 == Migrate(u, d, b, allowed, action).1
    ensures SameButTruncation(Migrate(s, d, a, allowed, action).0, Migrate(u, d, b, allowed, action).0)
  {
    hide MigratedJournal;
    if HeaderReadable(d.log) {
      SameMigratedJournal(d.log.value, a, b);
    }
  }

  lemma RollForwardFlag(s: StartupReport, u: StartupReport, d: Disk, entry: JournalEntry)
    requires SameButTruncation(s, u)
    ensures RollForward(s, d, entry).1 == RollForward(u, d, entry).1
    ensures SameButTruncation(RollForward(s, d, entry).0, RollForward(u, d, entry).0)
  {
    hide MigratedJournal, Scan, Replayed;
  }

  lemma LegacyFlag(s: StartupReport, u: StartupReport, d: Disk, a: RecoveryReport, b: RecoveryReport,
                   entry: JournalEntry)
    requires a.(truncated := b.truncated) == b && SameButTruncation(s, u)
    ensures RecoverLegacy(s, d, a, entry).1 == RecoverLegacy(u, d, b, entry).1
    ensures SameButTruncation(RecoverLegacy(s, d, a, entry).0, RecoverLegacy(u, d, b, entry).0)
  {
    hide Migrate, RollForward;
    if !a.healthy {
    } else if a.lastSequence >= entry.header.sequence {
      MigrateFlag(s.(journalCleared := true), u.(journalCleared := true), d, a, b, true, ClearedStaleJournal);
    } else if a.lastSequence + 1 == entry.header.sequence {
      RollForwardFlag(s, u, d, entry);
    }
  }

  // Only the report depends on whether the scan truncated the log.
  lemma TruncationFlag(t: Disk, a: RecoveryReport, b: RecoveryReport)
    requires a.(truncated := b.truncated) == b
    ensures RecoverTrimmed(t, a).1 == RecoverTrimmed(t, b).1
    ensures SameButTruncation(RecoverTrimmed(t, a).0, RecoverTrimmed(t, b).0)
  {
    hide RecoverCheckpoint, Migrate, RecoverLegacy, JournalEntryValid, DecodeJournalEntry;
    if t.journal.Some? {
      var journal := t.journal.value;
      var s := EMPTY_STARTUP.(
        logTruncated := a.truncated, validRecords := a.validRecords,
        lastSequence := a.lastSequence, checksumFailures := a.checksumFailures, journalFound := true);
      var u := s.(logTruncated := b.truncated);
      if |journal| == 104 {
        CheckpointFlag(t.log, journal, a, b);
      } else if |journal| == 0 {
        MigrateFlag(s, u, t, a, b, true, MigratedEmptyJournal);
      } else if |journal| == 112 {
        MigrateFlag(s.(journalDiscarded := true), u.(journalDiscarded := true), t, a, b, a.healthy,
                    DiscardedCorruptJournal);
        LegacyFlag(s, u, t, a, b, DecodeJournalEntry(journal));
      }
    }
  }

  lemma SameMigratedJournal(file: seq<byte>, a: RecoveryReport, b: RecoveryReport)
    requires |file| >= 24 && a.(truncated := b.truncated) == b
    ensures MigratedJournal(file, a) == MigratedJournal(file, b)
  {
  }

  lemma SameSelection(file: seq<byte>, startTime: u64, a: RecoveryReport, b: RecoveryReport, journal: seq<byte>)
    requires |journal| == 104 && a.(truncated := b.truncated) == b
    ensures SelectCheckpoint(file, startTime, a, journal) == SelectCheckpoint(file, startTime, b, journal)
  {
  }

  // A run cut off after its first truncation leaves a state from which recovery
  // comes to the same report and the same files.
  lemma StartupAfterInterruptedTrim(d: Disk)
    ensures
      var (report, d1) := RecoverStartup(d);
      var (again, d2) := RecoverStartup(d.(log := Trim(d.log)));
      && d2 == d1
      && SameButTruncation(again, report)
  {
    hide Trim, ScanHealthyPrefix, RecoverTrimmed;
    TrimIdempotent(d.log);
    TruncationFlag(d.(log := Trim(d.log)), ScanHealthyPrefix(Trim(d.log)), ScanHealthyPrefix(d.log));
  }

  // Checkpoint path, on a trimmed log
  lemma CheckpointIdempotent(file: seq<byte>, k: nat, journal: seq<byte>, scanned: RecoveryReport)
    requires |journal| == 104 && Healthy(file, k)
    requires scanned.(truncated := false) == ScanReport(file)
    requires RecoverCheckpoint(Some(file), journal, scanned).0.healthy
    ensures
      var (report, log) := RecoverCheckpoint(Some(file), journal, scanned);
      var (again, d) := RecoverStartup(Disk(log, Some(journal)));
      && d == Disk(log, Some(journal))
      && again.healthy && !again.logTruncated
      && again.validRecords == report.validRecords
      && again.lastSequence == report.lastSequence
      && again.checkpointGeneration == report.checkpointGeneration
      && again.committedLength == report.committedLength
  {
    hide HeaderOk, RecordValid, ScanReport, SelectCheckpoint, RecoverCheckpoint;
    RecoverCheckpointMeaning(file, k, journal, scanned);
    var startTime := DecodeFileHeader(file[..24]).startTime;
    var slot := SelectCheckpoint(file, startTime, scanned, journal).value;
    var kept := file[..slot.committedLength];
    ScanHealthy(file, k);
    ScanHealthy(kept, slot.recordCount);
    SelectStable(file, k, journal, scanned, ScanReport(kept));
    RecoverCheckpointMeaning(kept, slot.recordCount, journal, ScanReport(kept));
    assert kept[..slot.committedLength] == kept;
    HealthyIsTrimmed(kept, slot.recordCount);
    assert Entries(kept, slot.recordCount) == Entries(file, slot.recordCount) by {
      CutAtBoundary(file, slot.recordCount);
    }
  }

  lemma HealthyIsTrimmed(file: seq<byte>, k: nat)
    requires Healthy(file, k)
    ensures Trim(Some(file)) == Some(file)
    ensures ScanHealthyPrefix(Some(file)) == ScanReport(file)
  {
    hide HeaderOk, RecordValid, ScanReport;
    ScanHealthy(file, k);
  }

  // What the second run must reproduce of the first
  predicate SameOutcome(report: StartupReport, again: StartupReport) {
    && again.healthy && !again.logTruncated
    && again.validRecords == report.validRecords
    && again.lastSequence == report.lastSequence
    && again.checkpointGeneration == report.checkpointGeneration
    && again.committedLength == report.committedLength
  }

  // A migrated journal recovers to the log it was made from.
  lemma MigratedIsStable(file: seq<byte>, k: nat, report: RecoveryReport)
    requires Healthy(file, k) && SizeFits(Some(file))
    requires report.(truncated := false) == ScanReport(file)
    ensures
      var d := Disk(Some(file), Some(MigratedJournal(file, report)));
      var (again, d') := RecoverStartup(d);
      && d' == d
      && again.healthy && !again.logTruncated
      && again.validRecords == k
      && again.lastSequence == LastSequence(Entries(file, k))
      && again.checkpointGeneration == 1
      && again.committedLength == |file|
  {
    hide HeaderOk, RecordValid, ScanReport, SelectCheckpoint, RecoverCheckpoint, MigratedJournal;
    hide ComputeCheckpointCrc;
    var journal := MigratedJournal(file, report);
    var startTime := DecodeFileHeader(file[..24]).startTime;
    HealthyIsTrimmed(file, k);
    ScanHealthy(file, k);
    MigratedSelects(file, k, report);
    SameSelection(file, startTime, report, ScanReport(file), journal);
    RecoverCheckpointMeaning(file, k, journal, ScanReport(file));
    assert file[..|file|] == file;
  }

  // Appending a valid pending record that continues the log extends it by one.
  lemma RollForwardExtends(file: seq<byte>, k: nat, entry: JournalEntry)
    requires Healthy(file, k) && JournalEntryValid(entry)
    requires LastSequence(Entries(file, k)) + 1 == entry.header.sequence
    ensures var after := Replayed(Some(file), entry);
      && Healthy(after, k + 1)
      && Entries(after, k) == Entries(file, k)
      && LastSequence(Entries(after, k + 1)) == entry.header.sequence
  {
    hide FileHeaderOk, RecordOk, JournalEntryValid, JournaledRecord, DecodeRecordHeader;
    var after := Replayed(Some(file), entry);
    JournaledRecordOk(entry);
    assert after[..Boundary(k)] == file[..Boundary(k)];
    PrefixStable(file, after, k);
    assert RecordAt(after, k) == JournaledRecord(entry);
    if k > 0 {
      assert Entries(after, k)[k - 1] == Entries(file, k)[k - 1];
    }
    assert RecordValid(after, k);
  }

  lemma MigrateIdempotent(startup: StartupReport, file: seq<byte>, journal: Option<seq<byte>>, k: nat,
                          report: RecoveryReport, action: Action)
    requires Healthy(file, k) && SizeFits(Some(file))
    requires report.(truncated := false) == ScanReport(file)
    requires startup.validRecords == k && startup.lastSequence == LastSequence(Entries(file, k))
    ensures
      var (r, d) := Migrate(startup, Disk(Some(file), journal), report, true, action);
      var (again, d') := RecoverStartup(d);
      r.healthy && d' == d && SameOutcome(r, again)
  {
    hide HeaderOk, RecordValid, ScanReport, RecoverStartup, MigratedJournal;
    ScanHealthy(file, k);
    MigratedIsStable(file, k, report);
  }

  lemma UnhealthyScan(t: Disk, scanned: RecoveryReport)
    requires t.log.Some? && !scanned.healthy
    ensures !RecoverTrimmed(t, scanned).0.healthy
  {
    hide JournalEntryValid, DecodeJournalEntry, MigratedJournal, SelectCheckpoint, RollForward;
  }

  // A record is not a log of its own: its magic number differs.
  lemma RecordIsNoLog(entry: JournalEntry)
    requires RecordMetadataOk(entry.recordHeader)
    ensures !HeaderOk(JournaledRecord(entry))
  {
    hide FromLE, EncodePayload, EncodeRecordHeader;
    var r := JournaledRecord(entry);
    Sizes();
    RecordHeaderRoundTrip(entry.recordHeader);
    assert r[..28] == EncodeRecordHeader(entry.recordHeader);
    assert r[..28][..4] == r[..24][..4];
    assert Unpack(FILE_HEADER, r[..24])[0] == FromLE(r[..24][..FILE_HEADER[0]]);
    assert Unpack(RECORD_HEADER, r[..28])[0] == FromLE(r[..28][..RECORD_HEADER[0]]);
  }

  lemma StartupWithoutLog(journal: Option<seq<byte>>)
    requires RecoverStartup(Disk(None, journal)).0.healthy
    ensures RecoverStartup(Disk(None, journal)).1 == Disk(None, journal)
    ensures !RecoverStartup(Disk(None, journal)).0.logTruncated
  {
    hide JournalEntryValid, DecodeJournalEntry, MigratedJournal, SelectCheckpoint, ScanReport, JournaledRecord;
    if journal.Some? && |journal.value| == 112 {
      var entry := DecodeJournalEntry(journal.value);
      if JournalEntryValid(entry) {
        PendingRecordMetadata(entry);
        RecordIsNoLog(entry);
        assert Replayed(None, entry) == JournaledRecord(entry);
        UnreadableLog(JournaledRecord(entry));
      }
    }
  }

  lemma PendingRecordMetadata(entry: JournalEntry)
    requires JournalEntryValid(entry)
    ensures RecordMetadataOk(entry.recordHeader)
  {
    hide ComputeJournalCrc, ComputeRecordCrc;
  }

  lemma RollForwardIdempotent(startup: StartupReport, file: seq<byte>, journal: Option<seq<byte>>, k: nat,
                              entry: JournalEntry)
    requires Healthy(file, k) && |file| + 84 < 0x8000_0000_0000_0000
    requires JournalEntryValid(entry) && LastSequence(Entries(file, k)) + 1 == entry.header.sequence
    ensures
      var (r, d) := RollForward(startup, Disk(Some(file), journal), entry);
      var (again, d') := RecoverStartup(d);
      r.healthy && r.journalReplayed && d' == d && SameOutcome(r, again) && r.validRecords == k + 1
  {
    hide HeaderOk, RecordValid, ScanReport, RecoverStartup, Migrate, JournalEntryValid, Replayed;
    var after := Replayed(Some(file), entry);
    assert |after| == |file| + 84 by {
      RollForwardExtends(file, k, entry);
    }
    RollForwardExtends(file, k, entry);
    ScanHealthy(after, k + 1);
    var replayed := ScanReport(after);
    MigrateIdempotent(startup.(journalReplayed := true, journalCleared := true,
                               validRecords := replayed.validRecords, lastSequence := replayed.lastSequence,
                               checksumFailures := replayed.checksumFailures),
                      after, journal, k + 1, replayed, RolledForward);
    MigrateKeepsReplayed(startup, Disk(Some(after), journal), replayed);
  }

  lemma MigrateKeepsReplayed(startup: StartupReport, d: Disk, replayed: RecoveryReport)
    ensures
      var s := startup.(journalReplayed := true, journalCleared := true,
                        validRecords := replayed.validRecords, lastSequence := replayed.lastSequence,
                        checksumFailures := replayed.checksumFailures);
      var r := Migrate(s, d, replayed, true, RolledForward).0;
      r.journalReplayed && r.validRecords == replayed.validRecords
  {
    hide MigratedJournal;
  }

  lemma TrimmedIdempotent(file: seq<byte>, k: nat, journal: Option<seq<byte>>, scanned: RecoveryReport)
    requires Healthy(file, k) && |file| + 84 < 0x8000_0000_0000_0000
    requires scanned.(truncated := false) == ScanReport(file)
    requires RecoverTrimmed(Disk(Some(file), journal), scanned).0.healthy
    ensures
      var (report, d1) := RecoverTrimmed(Disk(Some(file), journal), scanned);
      var (again, d2) := RecoverStartup(d1);
      d2 == d1 && SameOutcome(report, again)
  {
    hide HeaderOk, RecordValid, ScanReport, RecoverStartup, RecoverCheckpoint, Migrate, RollForward;
    hide JournalEntryValid, DecodeJournalEntry;
    ScanHealthy(file, k);
    var s := EMPTY_STARTUP.(
      logTruncated := scanned.truncated, validRecords := scanned.validRecords,
      lastSequence := scanned.lastSequence, checksumFailures := scanned.checksumFailures, journalFound := true);
    var bytes := journal.value;
    if |bytes| == 104 {
      CheckpointIdempotent(file, k, bytes, scanned);
    } else if |bytes| == 0 {
      MigrateIdempotent(s, file, journal, k, scanned, MigratedEmptyJournal);
    } else {
      var entry := DecodeJournalEntry(bytes);
      if !JournalEntryValid(entry) {
        MigrateIdempotent(s.(journalDiscarded := true), file, journal, k, scanned, DiscardedCorruptJournal);
      } else if scanned.lastSequence >= entry.header.sequence {
        MigrateIdempotent(s.(journalCleared := true), file, journal, k, scanned, ClearedStaleJournal);
      } else {
        RollForwardIdempotent(s, file, journal, k, entry);
      }
    }
  }

  // Startup recovery is idempotent, on every path: whatever the log and the
  // journal hold, if recovery is healthy then running it again is healthy,
  // changes no file and reports the same state without truncation.
  lemma StartupIdempotent(d: Disk)
    requires d.log.Some? ==> |d.log.value| + 84 < 0x8000_0000_0000_0000
    requires RecoverStartup(d).0.healthy
    ensures
      var (report, d1) := RecoverStartup(d);
      var (again, d2) := RecoverStartup(d1);
      d2 == d1 && SameOutcome(report, again)
  {
    hide HeaderOk, RecordValid, ScanReport, RecoverCheckpoint, Migrate, RollForward, JournalEntryValid;
    hide DecodeJournalEntry;
    match d.log
    case None =>
      StartupWithoutLog(d.journal);
    case Some(file) =>
      if HeaderOk(file) {
        var k := ValidCount(file);
        TrimKeepsValidPrefix(file);
        TrimIdempotent(d.log);
        var kept := file[..Boundary(k)];
        HealthyIsTrimmed(kept, k);
        TrimmedIdempotent(kept, k, d.journal, ScanHealthyPrefix(d.log));
      } else {
        UnreadableLog(file);
        UnhealthyScan(d.(log := Trim(d.log)), ScanHealthyPrefix(d.log));
      }
  }

  // Rolling a legacy entry forward may be cut off while its record is being
  // appended: less than a record, whatever it holds, or all of it then follows the
  // log, and the legacy journal is still there.  The next run leaves the files that
  // the run cut off would have left, and reports the record.
  lemma StartupAfterInterruptedReplay(file: seq<byte>, k: nat, journal: seq<byte>, tail: seq<byte>)
    requires Healthy(file, k) && |journal| == 112
    requires JournalEntryValid(DecodeJournalEntry(journal))
    requires LastSequence(Entries(file, k)) + 1 == DecodeJournalEntry(journal).header.sequence
    requires |tail| < 84 || tail == JournaledRecord(DecodeJournalEntry(journal))
    ensures
      var (report, d) := RecoverStartup(Disk(Some(file), Some(journal)));
      var (again, d') := RecoverStartup(Disk(Some(file + tail), Some(journal)));
      && d' == d
      && report.healthy && again.healthy
      && again.validRecords == report.validRecords == k + 1
      && again.lastSequence == report.lastSequence == DecodeJournalEntry(journal).header.sequence
      && again.checkpointGeneration == report.checkpointGeneration
      && again.committedLength == report.committedLength
  {
    hide HeaderOk, RecordValid, ScanReport, JournalEntryValid, DecodeJournalEntry, JournaledRecord, MigratedJournal;
    var entry := DecodeJournalEntry(journal);
    HealthyIsTrimmed(file, k);
    ScanHealthy(file, k);
    RollForwardExtends(file, k, entry);
    ScanHealthy(Replayed(Some(file), entry), k + 1);
    if |tail| < 84 {
      ShortTailIsTrimmed(file, k, tail);
      TrimIdempotent(Some(file + tail));
      TruncationFlag(Disk(Some(file), Some(journal)), ScanReport(file), ScanHealthyPrefix(Some(file + tail)));
    } else {
      HealthyIsTrimmed(file + tail, k + 1);
    }
  }

  lemma ShortTailIsTrimmed(file: seq<byte>, k: nat, tail: seq<byte>)
    requires Healthy(file, k) && |tail| < 84
    ensures Trim(Some(file + tail)) == Some(file)
  {
    hide HeaderOk, RecordValid, ValidCount, Entries, Trim, ScanReport;
    HealthyCount(file, k);
    assert HeaderOk(file + tail) by {
      ValidHeaderStays(file, tail);
    }
    AppendKeepsPrefix(file, tail);
    ValidCountFits(file + tail);
    TrimKeepsValidPrefix(file + tail);
    assert (file + tail)[..Boundary(k)] == file;
  }

  lemma ValidHeaderStays(file: seq<byte>, tail: seq<byte>)
    requires HeaderOk(file)
    ensures HeaderOk(file + tail)
  {
    hide FileHeaderOk;
    assert (file + tail)[..24] == file[..24];
  }
}
