/**
 The commit protocol of the writer together with crashes and startup recovery,
 as a state machine whose steps are single device operations.

 A power cut keeps the log up to its last synchronized length and may replace
 everything after it; of a journal slot that was written but not synchronized it
 keeps the old bytes, the new bytes or bytes that the slot check rejects.  A
 process crash keeps the cached contents of both files.
 */
module CrashProtocol {
  import opened Basics
  import opened Bytes
  import opened LogFormat
  import opened LogScanner
  import opened Recovery
  import opened LogImage

  // State

  datatype Storage = Storage(
    log: seq<byte>,       // contents of the log as read back
    logSynced: nat,       // a prefix of it that a power cut keeps
    journal: seq<byte>,   // contents of the journal as read back
    durable: seq<byte>)   // contents of the journal at its last synchronization

  datatype Phase = Idle | LogSynced | SlotWritten

  // The state of an open writer
  datatype Cursor = Cursor(
    length: nat, generation: u64, active: nat, count: nat, last: u64,
    committed: nat, phase: Phase, failed: bool)

  datatype Process = Down | Recovered | Rejected | Up(cursor: Cursor)

  datatype Sys = Sys(
    disk: Storage, startTime: u64, process: Process,
    written: seq<Entry>,  // all entries appended since the last recovery, and those it kept
    acked: seq<Entry>)    // the entries reported as committed

  function Inactive(active: nat): nat {
    (active + 1) % 2
  }

  function SetSlot(journal: seq<byte>, i: nat, bs: seq<byte>): (j: seq<byte>)
    requires |journal| == 104 && i < 2 && |bs| == 52
    ensures |j| == 104
  {
    journal[..52 * i] + bs + journal[52 * (i + 1)..]
  }

  // The checkpoint of the entries es
  function CheckpointFor(startTime: u64, generation: u64, es: seq<Entry>): CheckpointSlot {
    NewCheckpoint(generation, startTime, U64(Boundary(|es|)), U64(|es|), LastSequence(es))
  }

  // The slot that the next commit writes
  function NextSlot(s: Sys): CheckpointSlot
    requires s.process.Up?
  {
    var c := s.process.cursor;
    NewCheckpoint(U64(c.generation + 1), s.startTime, U64(c.length), U64(c.count), c.last)
  }

  function Files(s: Sys): Disk {
    Disk(Some(s.disk.log), Some(s.disk.journal))
  }

  // What open() reads back: the newest slot that describes the whole log

  predicate OpenHeaderOk(log: seq<byte>) {
    && |log| >= 24
    && (|log| - 24) % 84 == 0
    && var h := DecodeFileHeader(log[..24]);
       h.magic == LOG_FILE_MAGIC && h.version == LOG_FORMAT_VERSION && ComputeFileHeaderCrc(h) == h.crc
  }

  predicate Describes(slot: CheckpointSlot, startTime: u64, length: nat) {
    && CheckpointMetadataValid(slot)
    && slot.startTime == startTime
    && slot.committedLength >= 24
    && slot.committedLength == length
    && slot.recordCount == (slot.committedLength - 24) / 84
  }

  function LoadCheckpoint(log: seq<byte>, journal: seq<byte>): Option<Cursor> {
    if !OpenHeaderOk(log) || |journal| != 104 then None
    else
      var startTime := DecodeFileHeader(log[..24]).startTime;
      var s0, s1 := SlotAt(journal, 0), SlotAt(journal, 1);
      var ok0, ok1 := Describes(s0, startTime, |log|), Describes(s1, startTime, |log|);
      if !ok0 && !ok1 then None
      else
        var active := if ok1 && (!ok0 || s1.generation > s0.generation) then 1 else 0;
        var slot := if active == 1 then s1 else s0;
        Some(Cursor(|log|, slot.generation, active, slot.recordCount, slot.lastSequence,
                    slot.recordCount, Idle, false))
  }

  // Steps of the writer

  // Bytes are written at or after the logical end of the log.
  ghost predicate WriteLog(s: Sys, t: Sys) {
    && s.process.Up? && s.process.cursor.phase == Idle
    && var end := s.process.cursor.length;
    && end <= |s.disk.log| && end <= |t.disk.log|
    && t.disk.log[..end] == s.disk.log[..end]
    && Min(s.disk.logSynced, end) <= t.disk.logSynced <= s.disk.logSynced
    && t.disk.logSynced <= |t.disk.log|
    && t == s.(disk := s.disk.(log := t.disk.log, logSynced := t.disk.logSynced))
  }

  // A batch is acceptable after the entries already written.
  predicate Acceptable(c: Cursor, batch: seq<Entry>) {
    && |batch| > 0
    && Successive(batch)
    && (c.count != 0 ==> batch[0].sequence == (c.last + 1) % TWO64)
  }

  // The logical end moves past a completely written batch.
  ghost predicate Accept(s: Sys, t: Sys, batch: seq<Entry>) {
    && s.process.Up? && s.process.cursor.phase == Idle
    && var c := s.process.cursor;
    && Acceptable(c, batch)
    && c.length + 84 * |batch| <= |s.disk.log|
    && s.disk.log[c.length..c.length + 84 * |batch|] == EncodeEntries(batch)
    && t == s.(written := s.written + batch, process := Up(c.(
         length := c.length + 84 * |batch|, count := c.count + |batch|, last := LastSequence(batch))))
  }

  ghost predicate SyncLog(s: Sys, t: Sys) {
    && s.process.Up?
    && var c := s.process.cursor;
    && c.phase == Idle && !c.failed && c.count > c.committed
    && t == s.(disk := s.disk.(logSynced := |s.disk.log|), process := Up(c.(phase := LogSynced)))
  }

  // Part of the next slot is written: the inactive slot holds any bytes bs.
  ghost predicate TearSlot(s: Sys, t: Sys, bs: seq<byte>) {
    && s.process.Up? && s.process.cursor.phase == LogSynced
    && s.process.cursor.active < 2 && |s.disk.journal| == 104 && |bs| == 52
    && t == s.(disk := s.disk.(journal := SetSlot(s.disk.journal, Inactive(s.process.cursor.active), bs)))
  }

  ghost predicate WriteSlot(s: Sys, t: Sys) {
    && s.process.Up?
    && var c := s.process.cursor;
    && c.phase == LogSynced && c.generation < U64_MAX && c.active < 2 && |s.disk.journal| == 104
    && t == s.(disk := s.disk.(journal :=
                 SetSlot(s.disk.journal, Inactive(c.active), EncodeCheckpointSlot(NextSlot(s)))),
               process := Up(c.(phase := SlotWritten)))
  }

  // Synchronizing the journal commits: only now are the entries acknowledged.
  ghost predicate SyncJournal(s: Sys, t: Sys) {
    && s.process.Up?
    && var c := s.process.cursor;
    && c.phase == SlotWritten
    && t == s.(disk := s.disk.(durable := s.disk.journal),
               acked := s.written,
               process := Up(c.(phase := Idle, generation := U64(c.generation + 1),
                                active := Inactive(c.active), committed := c.count)))
  }

  // An operation fails; a failed writer never commits again.
  ghost predicate Fail(s: Sys, t: Sys) {
    && s.process.Up?
    && t == s.(process := Up(s.process.cursor.(phase := Idle, failed := true)))
  }

  // Steps of the environment and of recovery

  ghost predicate ProcessCrash(s: Sys, t: Sys) {
    t == s.(process := Down)
  }

  // What a power cut may leave of slot i
  ghost predicate SlotSurvives(s: Sys, t: Sys, i: nat)
    requires i < 2 && |s.disk.journal| == |s.disk.durable| == |t.disk.journal| == 104
  {
    SlotBytes(s.disk.journal, i) == SlotBytes(s.disk.durable, i) ==>
      SlotBytes(t.disk.journal, i) == SlotBytes(s.disk.journal, i)
  }

  ghost predicate PowerCut(s: Sys, t: Sys) {
    && s.disk.logSynced <= |s.disk.log| && s.disk.logSynced <= |t.disk.log|
    && t.disk.log[..s.disk.logSynced] == s.disk.log[..s.disk.logSynced]
    && |s.disk.journal| == |s.disk.durable| == |t.disk.journal| == 104
    && SlotSurvives(s, t, 0) && SlotSurvives(s, t, 1)
    && t == s.(process := Down,
               disk := Storage(t.disk.log, s.disk.logSynced, t.disk.journal, t.disk.journal))
  }

  // Recovery has removed the invalid tail and may be interrupted here.
  ghost predicate TrimTail(s: Sys, t: Sys) {
    && s.process.Down?
    && var log := Trim(Some(s.disk.log)).value;
    && t == s.(disk := s.disk.(log := log, logSynced := Min(s.disk.logSynced, |log|)))
  }

  ghost predicate Recover(s: Sys, t: Sys) {
    && s.process.Down?
    && var (report, files) := RecoverStartup(Files(s));
    && files.log.Some?
    && var log := files.log.value;
    && var disk := s.disk.(log := log, logSynced := Min(s.disk.logSynced, |log|));
    && Boundary(report.validRecords) <= |log|
    && t == if report.healthy
         then s.(disk := disk, process := Recovered, written := Entries(log, report.validRecords))
         else s.(disk := disk, process := Rejected)
  }

  ghost predicate Open(s: Sys, t: Sys) {
    && s.process.Recovered?
    && t == match LoadCheckpoint(s.disk.log, s.disk.journal)
         case Some(cursor) => s.(process := Up(cursor))
         case None => s.(process := Rejected)
  }

  // Hypotheses on the environment

  // Torn slots are detected: bytes that pass the slot check are not a mixture.
  ghost predicate TearDetected(bs: seq<byte>, before: seq<byte>, after: seq<byte>)
    requires |bs| == 52
  {
    CheckpointMetadataValid(DecodeCheckpointSlot(bs)) ==> bs == before || bs == after
  }

  ghost predicate CutDetected(s: Sys, t: Sys)
    requires |s.disk.journal| == |s.disk.durable| == |t.disk.journal| == 104
  {
    forall i :: 0 <= i < 2 ==>
      TearDetected(SlotBytes(t.disk.journal, i), SlotBytes(s.disk.journal, i), SlotBytes(s.disk.durable, i))
  }

  // Some valid slot has reached the disk.
  ghost predicate SlotDurable(s: Sys, i: nat)
    requires i < 2 && |s.disk.journal| == |s.disk.durable| == 104
  {
    && SlotBytes(s.disk.journal, i) == SlotBytes(s.disk.durable, i)
    && CheckpointMetadataValid(SlotAt(s.disk.journal, i))
  }

  ghost predicate SafeToCut(s: Sys) {
    && |s.disk.journal| == |s.disk.durable| == 104
    && (SlotDurable(s, 0) || SlotDurable(s, 1))
  }

  // Files have 63-bit sizes and sequence numbers do not wrap.
  ghost predicate Bounded(s: Sys) {
    && |s.disk.log| < 0x8000_0000_0000_0000
    && FitsSequence(s.written)
  }

  ghost predicate DetectedTear(s: Sys, t: Sys) {
    exists bs :: TearSlot(s, t, bs)
      && TearDetected(bs, SlotBytes(s.disk.journal, Inactive(s.process.cursor.active)),
                      EncodeCheckpointSlot(NextSlot(s)))
  }

  ghost predicate Accepts(s: Sys, t: Sys) {
    exists batch :: Accept(s, t, batch)
  }

  // Every operation of the writer, whatever a torn slot holds
  ghost predicate RawWriterStep(s: Sys, t: Sys) {
    || WriteLog(s, t)
    || Accepts(s, t)
    || SyncLog(s, t)
    || (exists bs :: TearSlot(s, t, bs))
    || WriteSlot(s, t)
    || SyncJournal(s, t)
    || Fail(s, t)
  }

  ghost predicate WriterStep(s: Sys, t: Sys) {
    || WriteLog(s, t)
    || Accepts(s, t)
    || SyncLog(s, t)
    || DetectedTear(s, t)
    || WriteSlot(s, t)
    || SyncJournal(s, t)
    || Fail(s, t)
  }

  ghost predicate RecoveryStep(s: Sys, t: Sys) {
    TrimTail(s, t) || Recover(s, t) || Open(s, t)
  }

  ghost predicate DetectedCut(s: Sys, t: Sys) {
    PowerCut(s, t) && CutDetected(s, t)
  }

  ghost predicate Step(s: Sys, t: Sys) {
    && Bounded(t)
    && (|| WriterStep(s, t)
        || RecoveryStep(s, t)
        || ProcessCrash(s, t)
        || (SafeToCut(s) && DetectedCut(s, t)))
  }

  // A writer that has just been opened on a log holding es, with one checkpoint
  ghost predicate Init(s: Sys) {
    && Bounded(s)
    && Contiguous(s.written)
    && s.acked == s.written
    && s.disk.log == Image(s.startTime, s.written)
    && s.disk.logSynced == |s.disk.log|
    && s.disk.journal == EncodeCheckpointSlot(CheckpointFor(s.startTime, 1, s.written)) + EmptySlot()
    && s.disk.durable == s.disk.journal
    && s.process == Up(Cursor(|s.disk.log|, 1, 0, |s.written|, LastSequence(s.written), |s.written|, Idle, false))
  }

  // The invariant

  function J(s: Sys, i: nat): CheckpointSlot
    requires i < 2 && |s.disk.journal| == 104
  {
    SlotAt(s.disk.journal, i)
  }

  function D(s: Sys, i: nat): CheckpointSlot
    requires i < 2 && |s.disk.durable| == 104
  {
    SlotAt(s.disk.durable, i)
  }

  predicate Valid(slot: CheckpointSlot) {
    CheckpointMetadataValid(slot)
  }

  // A valid slot is a checkpoint of a synchronized prefix of what was written.
  ghost predicate Describable(s: Sys, slot: CheckpointSlot) {
    Valid(slot) ==>
      && slot.recordCount <= |s.written|
      && slot == CheckpointFor(s.startTime, slot.generation, s.written[..slot.recordCount])
      && Boundary(slot.recordCount) <= s.disk.logSynced
  }

  // A larger generation covers strictly more records.
  predicate Ordered(a: CheckpointSlot, b: CheckpointSlot) {
    Valid(a) && Valid(b) ==>
      || (a.generation < b.generation && a.recordCount < b.recordCount)
      || (b.generation < a.generation && b.recordCount < a.recordCount)
  }

  // slot is no newer than generation g with n records.
  predicate AtMost(slot: CheckpointSlot, g: u64, n: nat) {
    Valid(slot) ==> slot.generation <= g && slot.recordCount <= n
  }

  // Slot i covers everything acknowledged and nothing durable is newer.
  ghost predicate Anchor(s: Sys, i: nat)
    requires i < 2 && |s.disk.journal| == |s.disk.durable| == 104
  {
    && Valid(J(s, i))
    && |s.acked| <= J(s, i).recordCount
    && AtMost(D(s, 0), J(s, i).generation, J(s, i).recordCount)
    && AtMost(D(s, 1), J(s, i).generation, J(s, i).recordCount)
  }

  // The synchronized part of the log holds what was written.
  ghost predicate LogInv(s: Sys) {
    && 24 <= s.disk.logSynced <= |s.disk.log|
    && Bounded(s)
    && Contiguous(s.written)
    && s.acked <= s.written
    && var m := Min(s.disk.logSynced, Boundary(|s.written|));
    && s.disk.log[..m] == Image(s.startTime, s.written)[..m]
  }

  // So does every slot, cached or durable.
  ghost predicate SlotsInv(s: Sys)
    requires |s.disk.journal| == |s.disk.durable| == 104
  {
    && Describable(s, J(s, 0)) && Describable(s, J(s, 1))
    && Describable(s, D(s, 0)) && Describable(s, D(s, 1))
  }

  ghost predicate OrderInv(s: Sys)
    requires |s.disk.journal| == |s.disk.durable| == 104
  {
    && Ordered(J(s, 0), J(s, 1)) && Ordered(J(s, 0), D(s, 1))
    && Ordered(D(s, 0), J(s, 1)) && Ordered(D(s, 0), D(s, 1))
  }

  // If only one slot is on the disk, it covers everything acknowledged.
  ghost predicate CoverInv(s: Sys)
    requires |s.disk.journal| == |s.disk.durable| == 104
  {
    && (SlotDurable(s, 0) && !SlotDurable(s, 1) ==> |s.acked| <= J(s, 0).recordCount)
    && (SlotDurable(s, 1) && !SlotDurable(s, 0) ==> |s.acked| <= J(s, 1).recordCount)
  }

  ghost predicate DiskInv(s: Sys) {
    && |s.disk.journal| == |s.disk.durable| == 104
    && LogInv(s) && SlotsInv(s) && OrderInv(s) && CoverInv(s)
  }

  // The fields of the writer describe the log.
  ghost predicate UpLogInv(s: Sys)
    requires s.process.Up?
  {
    var c := s.process.cursor;
    && c.length == Boundary(|s.written|) <= |s.disk.log|
    && s.disk.log[..c.length] == Image(s.startTime, s.written)
    && c.count == |s.written| && c.last == LastSequence(s.written)
  }

  // The inactive slot is older than the active one, or is the next one.
  ghost predicate UpSlotInv(s: Sys)
    requires s.process.Up? && |s.disk.journal| == |s.disk.durable| == 104
  {
    var c := s.process.cursor;
    && c.active < 2
    && Anchor(s, c.active)
    && J(s, c.active).generation == c.generation
    && J(s, c.active).recordCount == c.committed
    && (c.failed || AtMost(J(s, Inactive(c.active)), c.generation, c.committed)
        || (c.phase != Idle && J(s, Inactive(c.active)) == NextSlot(s)))
    && (c.phase != Idle ==> c.length <= s.disk.logSynced && c.committed < c.count && !c.failed)
    && (c.phase == SlotWritten ==>
          c.generation < U64_MAX &&
          SlotBytes(s.disk.journal, Inactive(c.active)) == EncodeCheckpointSlot(NextSlot(s)))
  }

  ghost predicate UpInv(s: Sys)
    requires s.process.Up? && |s.disk.journal| == |s.disk.durable| == 104
  {
    UpLogInv(s) && UpSlotInv(s)
  }

  ghost predicate Inv(s: Sys) {
    && DiskInv(s)
    && match s.process
       case Up(_) => UpInv(s)
       case Down => Anchor(s, 0) || Anchor(s, 1)
       case Recovered =>
         && s.disk.log == Image(s.startTime, s.written)
         && (|| (Anchor(s, 0) && J(s, 0).recordCount == |s.written|)
             || (Anchor(s, 1) && J(s, 1).recordCount == |s.written|))
       case Rejected => false
  }
}
