/**
 The log writer.  Every device operation that it performs is recorded in `trace`
 as a step of the commit protocol, so that the theorems about runs of the
 protocol are theorems about this class.
 */
module BinaryLogWriter {
  import opened Basics
  import opened Bytes
  import opened LogFormat
  import opened LogScanner
  import opened Recovery
  import opened LogImage
  import opened CrashProtocol
  import opened CrashSafety
  import opened CrashLimits
  import opened Device
  import opened HandOff

  ghost predicate RawSteps(trace: seq<Sys>) {
    forall i :: 0 < i < |trace| ==> RawWriterStep(trace[i - 1], trace[i])
  }

  // b continues a, and neither has been started without the other.
  ghost predicate Extends(a: seq<Sys>, b: seq<Sys>) {
    a <= b && (|a| > 0 <==> |b| > 0)
  }

  lemma RawStepsAppend(trace: seq<Sys>, s: Sys)
    requires RawSteps(trace)
    requires |trace| > 0 ==> RawWriterStep(trace[|trace| - 1], s)
    ensures RawSteps(trace + [s])
  {
    hide RawWriterStep;
  }

  // Journal bytes written within a slot replace that slot.
  lemma OverlayWithinSlot(journal: seq<byte>, i: nat, at: nat, chunk: seq<byte>)
    requires |journal| == 104 && i < 2 && at + |chunk| <= 52 && |chunk| > 0
    ensures var after := Overlay(journal, 52 * i + at, chunk);
      && |after| == 104
      && after == SetSlot(journal, i, SlotBytes(after, i))
  {
    if i == 0 {
      assert SlotBytes(Overlay(journal, at, chunk), 0) == journal[..at] + chunk + journal[at + |chunk|..52];
    } else {
      assert SlotBytes(Overlay(journal, 52 + at, chunk),
                       1) == journal[52..52 + at] + chunk + journal[52 + at + |chunk|..];
    }
  }

  lemma OverlayWholeSlot(journal: seq<byte>, i: nat, bs: seq<byte>)
    requires |journal| == 104 && i < 2 && |bs| == 52
    ensures Overlay(journal, 52 * i, bs) == SetSlot(journal, i, bs)
  {
    if i == 0 {
      assert SetSlot(journal, 0, bs) == bs + journal[52..];
    } else {
      assert SetSlot(journal, 1, bs) == journal[..52] + bs;
    }
  }

  // The journal after a slot has been written completely; an empty journal is
  // extended to its full size.
  function WithSlot(journal: seq<byte>, i: nat, bs: seq<byte>): (after: seq<byte>)
    requires i < 2 && |bs| == 52
    requires |journal| == 104 || (journal == [] && i == 0)
    ensures |after| == 104
  {
    if journal == [] then bs + EmptySlot() else SetSlot(journal, i, bs)
  }

  // What writing the first bytes of the inactive slot leaves
  lemma PartialSlot(journal: seq<byte>, active: nat, bytes: seq<byte>, done: nat)
    requires active < 2 && |bytes| == 52 && done <= 52
    requires |journal| == 104 || (journal == [] && active == 1)
    ensures var i := Inactive(active);
      var after := Overlay(journal, 52 * i, bytes[..done]);
      && (|journal| == 104 ==> |after| == 104 && SlotBytes(after, active) == SlotBytes(journal, active))
      && (done == 52 ==> Resize(after, 104) == WithSlot(journal, i, bytes))
      && (done == 52 && |journal| == 104 ==> after == WithSlot(journal, i, bytes))
  {
    hide SlotBytes, SetSlot;
    var i := Inactive(active);
    if done == 52 {
      assert bytes[..done] == bytes;
      if |journal| == 104 {
        OverlayWholeSlot(journal, i, bytes);
        SetSlotBytes(journal, i, bytes);
      }
    } else if |journal| == 104 && 0 < done {
      OverlayWithinSlot(journal, i, 0, bytes[..done]);
      SetSlotBytes(journal, i, SlotBytes(Overlay(journal, 52 * i, bytes[..done]), i));
    }
  }

  // Writing a slot that already holds the bytes changes nothing.
  lemma SlotAgain(journal: seq<byte>, i: nat, bytes: seq<byte>)
    requires |journal| == 104 && i < 2 && |bytes| == 52
    ensures SetSlot(SetSlot(journal, i, bytes), i, bytes) == SetSlot(journal, i, bytes)
  {
  }

  lemma OtherSlotKept(journal: seq<byte>, active: nat, bytes: seq<byte>)
    requires active < 2 && |bytes| == 52
    requires |journal| == 104 || (journal == [] && active == 1)
    ensures |journal| == 104 ==>
      SlotBytes(WithSlot(journal, Inactive(active), bytes), active) == SlotBytes(journal, active)
  {
    hide SlotBytes, SetSlot;
    assert Inactive(Inactive(active)) == active;
    if |journal| == 104 {
      SetSlotBytes(journal, Inactive(active), bytes);
    }
  }

  // The records of a batch, laid out one after the other
  method Serialize(records: seq<Entry>) returns (buffer: seq<byte>)
    ensures buffer == EncodeEntries(records)
  {
    hide EncodeRecord;
    buffer := [];
    for i := 0 to |records|
      invariant buffer == EncodeEntries(records[..i])
    {
      var header, payload := HeaderFor(records[i]), MakePersistedPayload(records[i].record);
      var crc := ComputeRecordCrc(header, payload);
      var bytes := EncodeRecordHeader(header) + EncodePayload(payload) + ToLE(crc, 4);
      RecordLayout(records[i]);
      EncodeAppend(records[..i], [records[i]]);
      OneRecord(records[i]);
      assert records[..i + 1] == records[..i] + [records[i]];
      buffer := buffer + bytes;
    }
    assert records[..|records|] == records;
  }

  lemma RecordLayout(e: Entry)
    ensures var h, p := HeaderFor(e), MakePersistedPayload(e.record);
      EncodeRecordHeader(h) + EncodePayload(p) + ToLE(ComputeRecordCrc(h, p), 4) == EncodeRecord(e)
  {
    hide ComputeRecordCrc, EncodeRecordHeader, EncodePayload;
  }

  lemma OneRecord(e: Entry)
    ensures EncodeEntries([e]) == EncodeRecord(e)
  {
    hide EncodeRecord;
  }

  lemma OverlayNothing(content: seq<byte>, offset: nat, data: seq<byte>)
    ensures Overlay(content, offset, data[..0]) == content
  {
  }

  lemma OverlayStep(content: seq<byte>, offset: nat, data: seq<byte>, total: nat, n: nat)
    requires offset <= |content| && total + n <= |data|
    ensures var after := Overlay(Overlay(content, offset, data[..total]), offset + total, data[total..total + n]);
      after == Overlay(content, offset, data[..total + n]) && offset + total + n <= |after|
  {
    OverlayTwice(content, offset, data[..total], data[total..total + n]);
    assert data[..total] + data[total..total + n] == data[..total + n];
  }

  lemma OverlayEmpty(bytes: seq<byte>)
    ensures Overlay([], 0, bytes) == bytes
  {
  }

  lemma WrittenRange(log: seq<byte>, end: nat, buffer: seq<byte>, done: nat)
    requires end <= |log| && done <= |buffer|
    ensures var after := Overlay(log, end, buffer[..done]);
      && end + done <= |after|
      && after[end..end + done] == buffer[..done]
      && Take(after, end) == Take(log, end)
      && Take(after, end + done) == Take(log, end) + buffer[..done]
  {
    OverlayMeaning(log, end, buffer[..done]);
  }

  class BinaryLogWriter {
    const files: Files
    const batchCapacity: nat
    const syncEveryBatches: nat
    const preallocationChunk: nat
    const keepSizeSupported: bool

    var isOpen: bool
    var startTime: u64
    var logicalEnd: nat
    var preallocatedEnd: nat
    var unsyncedBatches: nat
    var generation: u64
    var active: nat
    var count: nat
    var last: u64
    var failed: bool
    var recordsWritten: nat
    var recordsCommitted: nat
    var bytesWritten: nat
    var failures: nat

    ghost var written: seq<Entry>
    ghost var acked: seq<Entry>
    ghost var committed: nat
    ghost var phase: Phase
    ghost var trace: seq<Sys>

    ghost function State(): Sys
      reads this, files
    {
      Sys(Storage(files.log, files.logSynced, files.journal, files.durable), startTime,
          Up(Cursor(logicalEnd, generation, active, count, last, committed, phase, failed)),
          written, acked)
    }

    // The fields, as open() loads them
    ghost function Loaded(): Cursor
      reads this
    {
      Cursor(logicalEnd, generation, active, count, last, count, Idle, false)
    }

    // The trace is a run of the protocol up to the present state.
    ghost predicate Traced()
      reads this, files
    {
      |trace| > 0 ==> trace[|trace| - 1] == State() && RawSteps(trace)
    }

    ghost predicate Valid()
      reads this, files
    {
      && files.Valid()
      && Traced()
      && active < 2
      && (isOpen ==>
            && batchCapacity > 0 && syncEveryBatches > 0
            && |trace| > 0 && phase == Idle
            && logicalEnd <= |files.log|
            && (!failed ==> logicalEnd == |files.log|)
            && |files.journal| == 104
            && committed <= count
            && (!failed ==> (unsyncedBatches > 0 <==> committed < count)))
      && (!isOpen ==> unsyncedBatches == 0 || failed)
    }

    constructor (files: Files, batchCapacity: nat, syncEveryBatches: nat, preallocationChunk: nat,
                 keepSizeSupported: bool)
      requires files.Valid()
      ensures Valid() && !isOpen && !failed && this.files == files
      ensures this.batchCapacity == batchCapacity && this.syncEveryBatches == syncEveryBatches
      ensures this.preallocationChunk == preallocationChunk && this.keepSizeSupported == keepSizeSupported
      ensures failures == recordsWritten == recordsCommitted == bytesWritten == 0 && last == 0
    {
      this.files := files;
      this.batchCapacity, this.syncEveryBatches := batchCapacity, syncEveryBatches;
      this.preallocationChunk, this.keepSizeSupported := preallocationChunk, keepSizeSupported;
      isOpen, startTime, logicalEnd, preallocatedEnd, unsyncedBatches := false, 0, 0, 0, 0;
      generation, active, count, last, failed := 0, 1, 0, 0, false;
      recordsWritten, recordsCommitted, bytesWritten, failures := 0, 0, 0, 0;
      written, acked, committed, phase, trace := [], [], 0, Idle, [];
    }

    // Adds the present state to the trace.
    ghost method Record(before: Sys)
      requires |trace| > 0 ==> trace[|trace| - 1] == before && RawSteps(trace) && RawWriterStep(before, State())
      modifies this`trace
      ensures Traced() && Extends(old(trace), trace)
    {
      hide RawSteps, RawWriterStep;
      if |trace| > 0 {
        RawStepsAppend(trace, State());
        trace := trace + [State()];
      }
    }

    method RecordFailure()
      requires Traced()
      modifies this`failed, this`failures, this`phase, this`trace
      ensures Traced() && Extends(old(trace), trace)
      ensures failed && phase == Idle && failures == old(failures) + 1
    {
      hide RawSteps, WriteLog, Accepts, SyncLog, TearSlot, WriteSlot, SyncJournal;
      ghost var before := State();
      failed := true;
      failures := failures + 1;
      phase := Idle;
      assert Fail(before, State());
      Record(before);
    }

    // Where a write may go while the protocol is traced
    ghost predicate MayWrite(target: Target, offset: nat, length: nat)
      reads this, files
    {
      match target
      case MainLog => phase == Idle && logicalEnd <= offset && logicalEnd <= |files.log|
      case Journal =>
        && phase == LogSynced && active < 2 && |files.journal| == 104
        && offset == 52 * Inactive(active) && length == 52
    }

    // One system call of the loop below is one step of the protocol.
    lemma LogWriteIsStep(s: Sys, offset: nat, chunk: seq<byte>)
      requires s.process.Up? && s.process.cursor.phase == Idle && s.process.cursor.length <= offset
      requires s.process.cursor.length <= |s.disk.log| && offset <= |s.disk.log|
      requires s.disk.logSynced <= |s.disk.log| && |chunk| > 0
      requires State() == s.(disk := s.disk.(
                 log := Overlay(s.disk.log, offset, chunk), logSynced := Min(s.disk.logSynced, offset)))
      ensures WriteLog(s, State())
    {
      OverlayMeaning(s.disk.log, offset, chunk);
    }

    lemma JournalWriteIsStep(s: Sys, at: nat, chunk: seq<byte>)
      requires s.process.Up? && s.process.cursor.phase == LogSynced && s.process.cursor.active < 2
      requires |s.disk.journal| == 104 && |chunk| > 0 && at + |chunk| <= 52
      requires State() == s.(disk := s.disk.(
                 journal := Overlay(s.disk.journal, 52 * Inactive(s.process.cursor.active) + at, chunk)))
      ensures |State().disk.journal| == 104
      ensures exists bs :: TearSlot(s, State(), bs)
    {
      hide SlotBytes, SetSlot;
      var i := Inactive(s.process.cursor.active);
      OverlayWithinSlot(s.disk.journal, i, at, chunk);
      assert TearSlot(s, State(), SlotBytes(State().disk.journal, i));
    }

    // One system call, recorded in the trace if it wrote anything
    method WriteOnce(target: Target, data: seq<byte>, offset: nat, at: nat) returns (result: int, interrupted: bool)
      requires files.Valid() && Traced() && at < |data|
      requires offset + at <= |files.Content(target)|
      requires |trace| > 0 ==> MayWrite(target, offset, |data|)
      modifies this`trace, files`log, files`logSynced, files`journal, files`writeCount
      ensures files.Valid() && Traced() && Extends(old(trace), trace)
      ensures |trace| > 0 ==> MayWrite(target, offset, |data|)
      ensures files.writeCount == old(files.writeCount) + 1
      ensures interrupted ==> old(files.writeCount) < files.lastInterrupt
      ensures result <= |data| - at && (interrupted ==> result < 0)
      ensures result <= 0 ==> files.Content(target) == old(files.Content(target))
      ensures result > 0 ==>
        files.Content(target) == Overlay(old(files.Content(target)), offset + at, data[at..at + result])
      ensures files.Rest(target) == old(files.Rest(target))
    {
      hide RawSteps, RawWriterStep, Overlay;
      ghost var before := State();
      result, interrupted := files.Pwrite(target, data[at..], offset + at);
      if result > 0 {
        assert data[at..][..result] == data[at..at + result];
        WriteIsStep(before, target, offset, at, data[at..at + result], |data|);
        Record(before);
      }
    }

    method CountBytes(n: nat)
      modifies this`bytesWritten
      requires Traced()
      ensures Traced() && bytesWritten == old(bytesWritten) + n
      ensures forall target, offset, length :: old(MayWrite(target, offset, length)) ==>
        MayWrite(target, offset, length)
    {
      bytesWritten := bytesWritten + n;
    }

    // Writes all of data at offset, retrying short and interrupted writes.  On
    // failure a prefix of data was written.  No other byte changes.
    method WriteAtFull(target: Target, data: seq<byte>, offset: nat, countMainWrite: bool)
      returns (ok: bool, ghost done: nat)
      requires files.Valid() && Traced()
      requires offset <= |files.Content(target)|
      requires |trace| > 0 ==> MayWrite(target, offset, |data|)
      modifies this`trace, this`bytesWritten, files`log, files`logSynced, files`journal, files`writeCount
      ensures files.Valid() && Traced() && Extends(old(trace), trace)
      ensures |trace| > 0 ==> MayWrite(target, offset, |data|)
      ensures done <= |data| && (ok <==> done == |data|)
      ensures files.Content(target) == Overlay(old(files.Content(target)), offset, data[..done])
      ensures files.Rest(target) == old(files.Rest(target))
      ensures bytesWritten == old(bytesWritten) + if countMainWrite then done else 0
    {
      hide RawSteps, State, Traced, MayWrite, Overlay, Files.Content, Files.Rest, Files.Valid;
      OverlayNothing(files.Content(target), offset, data);
      var total := 0;
      ok, done := true, 0;
      while total < |data|
        invariant total == done <= |data|
        invariant files.Valid() && Traced() && Extends(old(trace), trace)
        invariant files.Content(target) == Overlay(old(files.Content(target)), offset, data[..total])
        invariant offset + total <= |files.Content(target)|
        invariant files.Rest(target) == old(files.Rest(target))
        invariant |trace| > 0 ==> MayWrite(target, offset, |data|)
        invariant bytesWritten == old(bytesWritten) + if countMainWrite then total else 0
        decreases |data| - total,
                  if files.writeCount < files.lastInterrupt then files.lastInterrupt - files.writeCount else 0
      {
        var result, interrupted := WriteOnce(target, data, offset, total);
        if result > 0 {
          OverlayStep(old(files.Content(target)), offset, data, total, result);
          total := total + result;
          done := total;
          if countMainWrite {
            CountBytes(result);
          }
        } else if !interrupted {
          ok := false;
          return;
        }
      }
    }

    lemma WriteIsStep(before: Sys, target: Target, offset: nat, at: nat, chunk: seq<byte>, length: nat)
      requires |trace| > 0 ==>
        && before.process.Up? && before.process.cursor.active == active && before.process.cursor.phase == phase
        && before.process.cursor.length == logicalEnd
        && |chunk| > 0 && at + |chunk| <= length
        && before.disk.logSynced <= |before.disk.log|
        && match target
           case MainLog =>
             && phase == Idle && logicalEnd <= offset && logicalEnd <= |before.disk.log|
             && offset + at <= |before.disk.log|
             && State() == before.(disk := before.disk.(log := Overlay(before.disk.log, offset + at, chunk),
                                                        logSynced := Min(before.disk.logSynced, offset + at)))
           case Journal =>
             && phase == LogSynced && active < 2 && |before.disk.journal| == 104
             && offset == 52 * Inactive(active) && length == 52
             && State() == before.(disk := before.disk.(journal := Overlay(before.disk.journal, offset + at, chunk)))
      ensures |trace| > 0 ==> RawWriterStep(before, State())
      ensures |trace| > 0 ==> MayWrite(target, offset, length)
    {
      hide Overlay, TearSlot;
      if |trace| > 0 {
        match target
        case MainLog =>
          LogWriteIsStep(before, offset + at, chunk);
        case Journal =>
          JournalWriteIsStep(before, at, chunk);
      }
    }

    method SyncMainFile() returns (ok: bool)
      requires files.Valid() && Traced()
      requires |trace| > 0 ==> phase == Idle && !failed && committed < count
      modifies this`phase, this`failed, this`failures, this`trace, files`logSynced, files`durable, files`syncCount
      ensures files.Valid() && Traced() && Extends(old(trace), trace)
      ensures files.durable == old(files.durable)
      ensures ok ==> phase == LogSynced && failed == old(failed) && files.logSynced == |files.log|
      ensures !ok ==> phase == Idle && failed
    {
      hide RawSteps, Accepts, TearSlot, WriteLog, WriteSlot, Fail;
      ghost var before := State();
      ok := files.SyncData(MainLog);
      if !ok {
        RecordFailure();
        return;
      }
      phase := LogSynced;
      assert |trace| > 0 ==> SyncLog(before, State());
      Record(before);
    }

    // The checkpoint that the present fields describe
    function Checkpoint(): CheckpointSlot
      reads this
      requires generation < U64_MAX
    {
      NewCheckpoint(generation + 1, startTime, U64(logicalEnd), U64(count), last)
    }

    // Writes the next checkpoint over the inactive slot.
    method WriteInactiveSlot() returns (ok: bool)
      requires files.Valid() && Traced() && active < 2 && generation < U64_MAX
      requires |files.journal| == 104 || (files.journal == [] && active == 1)
      requires |trace| > 0 ==> phase == LogSynced && |files.journal| == 104
      modifies this`phase, this`trace, this`bytesWritten
      modifies files`log, files`logSynced, files`journal, files`writeCount, files`syncCount
      ensures files.Valid() && Traced() && Extends(old(trace), trace)
      ensures files.log == old(files.log) && files.logSynced == old(files.logSynced)
      ensures phase == if ok then SlotWritten else old(phase)
      ensures ok ==> files.journal == WithSlot(old(files.journal), Inactive(active), EncodeCheckpointSlot(Checkpoint()))
      ensures !ok && |old(files.journal)| == 104 ==>
        |files.journal| == 104 && SlotBytes(files.journal, active) == SlotBytes(old(files.journal), active)
    {
      hide RawSteps, Accepts, TearSlot, WriteLog, SyncLog, Fail, Overlay, EncodeCheckpointSlot, NewCheckpoint;
      hide SlotBytes, SetSlot;
      var bytes := EncodeCheckpointSlot(Checkpoint());
      ghost var done: nat;
      ok, done := WriteAtFull(Journal, bytes, 52 * Inactive(active), false);
      PartialSlot(old(files.journal), active, bytes, done);
      if !ok {
        return;
      }
      ok := files.ResizeJournal(104);
      if !ok {
        return;
      }
      ghost var before := State();
      phase := SlotWritten;
      if |trace| > 0 {
        SlotAgain(old(files.journal), Inactive(active), bytes);
        assert WriteSlot(before, State());
      }
      Record(before);
    }

    // Synchronizes the journal; only then are the records committed.
    method SyncCheckpoint() returns (ok: bool)
      requires files.Valid() && Traced() && active < 2 && generation < U64_MAX
      requires phase == SlotWritten
      modifies this`generation, this`active, this`recordsCommitted
      modifies this`acked, this`committed, this`phase, this`trace
      modifies files`logSynced, files`durable, files`syncCount
      ensures files.Valid() && Traced() && Extends(old(trace), trace)
      ensures files.logSynced == old(files.logSynced)
      ensures ok ==> phase == Idle && generation == old(generation) + 1 && active == Inactive(old(active))
      ensures ok ==> files.durable == files.journal
      ensures ok ==> acked == written && committed == count && recordsCommitted == recordsWritten
      ensures !ok ==> phase == SlotWritten && generation == old(generation) && active == old(active)
      ensures !ok ==> files.durable == old(files.durable)
      ensures !ok ==> acked == old(acked) && committed == old(committed) && recordsCommitted == old(recordsCommitted)
    {
      hide RawSteps, Accepts, TearSlot, WriteLog, SyncLog, WriteSlot, Fail;
      ghost var before := State();
      ok := files.SyncData(Journal);
      if ok {
        generation := generation + 1;
        active := (active + 1) % 2;
        recordsCommitted := recordsWritten;
        acked, committed, phase := written, count, Idle;
        assert SyncJournal(before, State());
        Record(before);
      }
    }

    // Writes and synchronizes the next checkpoint in the inactive slot.
    method CommitCheckpoint() returns (ok: bool)
      requires files.Valid() && Traced() && active < 2
      requires |files.journal| == 104 || (files.journal == [] && active == 1)
      requires |trace| > 0 ==> phase == LogSynced && |files.journal| == 104
      modifies this`generation, this`active, this`recordsCommitted, this`bytesWritten
      modifies this`acked, this`committed, this`phase, this`trace
      modifies files`log, files`logSynced, files`journal, files`durable, files`writeCount, files`syncCount
      ensures files.Valid() && Traced() && Extends(old(trace), trace) && active < 2
      ensures files.log == old(files.log) && files.logSynced == old(files.logSynced)
      ensures ok ==> phase == Idle && old(generation) < U64_MAX && generation == old(generation) + 1
      ensures ok ==> active == Inactive(old(active)) && files.durable == files.journal
      ensures ok ==>
        files.journal == WithSlot(old(files.journal), active, EncodeCheckpointSlot(old(Checkpoint())))
      ensures ok ==> acked == written && committed == count && recordsCommitted == recordsWritten
      ensures !ok ==> generation == old(generation) && active == old(active) && files.durable == old(files.durable)
      ensures !ok ==> acked == old(acked) && committed == old(committed) && recordsCommitted == old(recordsCommitted)
      ensures !ok && |old(files.journal)| == 104 ==>
        |files.journal| == 104 && SlotBytes(files.journal, active) == SlotBytes(old(files.journal), active)
    {
      hide Traced, EncodeCheckpointSlot, NewCheckpoint, SlotBytes, WithSlot;
      if generation == U64_MAX {
        ok := false;
        return;
      }
      ok := WriteInactiveSlot();
      if !ok {
        return;
      }
      OtherSlotKept(old(files.journal), active, EncodeCheckpointSlot(Checkpoint()));
      ok := SyncCheckpoint();
    }

    method Flush() returns (ok: bool)
      requires Valid()
      modifies this`generation, this`active, this`recordsCommitted, this`bytesWritten, this`unsyncedBatches
      modifies this`acked, this`committed, this`phase, this`trace, this`failed, this`failures
      modifies files`log, files`logSynced, files`journal, files`durable, files`writeCount, files`syncCount
      ensures Valid() && Extends(old(trace), trace)
      ensures files.log == old(files.log)
      // A closed or failed writer refuses; otherwise nothing pending is a success.
      ensures !old(isOpen) || old(failed) ==> !ok
      ensures old(isOpen) && !old(failed) && old(unsyncedBatches) == 0 ==>
        && ok && acked == old(acked) && failed == old(failed) && recordsCommitted == old(recordsCommitted)
        && generation == old(generation)
      ensures ok && old(unsyncedBatches) > 0 ==>
        && acked == written && committed == count && recordsCommitted == recordsWritten
        && generation == old(generation) + 1 && files.durable == files.journal
        && files.journal == SetSlot(old(files.journal), Inactive(old(active)), EncodeCheckpointSlot(old(Checkpoint())))
        && files.logSynced == |files.log|
      ensures ok ==> unsyncedBatches == 0 && !failed
      ensures !ok ==> failed && acked == old(acked) && unsyncedBatches == old(unsyncedBatches)
      ensures !ok ==> recordsCommitted == old(recordsCommitted)
    {
      hide Traced, EncodeCheckpointSlot, NewCheckpoint, SlotBytes, SetSlot;
      if !isOpen || failed {
        RecordFailure();
        ok := false;
        return;
      }
      if unsyncedBatches == 0 {
        ok := true;
        return;
      }
      ok := SyncMainFile();
      if ok {
        ok := CommitCheckpoint();
      }
      if !ok {
        RecordFailure();
        return;
      }
      SetPending(0);
    }

    // Everything written lies in space that has been reserved, if the writer reserves.
    predicate Reserved()
      reads this
    {
      preallocationChunk > 0 && keepSizeSupported ==> logicalEnd <= preallocatedEnd
    }

    ghost predicate Chunks(size: nat) {
      exists n: nat :: size == n * preallocationChunk
    }

    // Reserves file extents in whole chunks; the contents do not change.
    method EnsurePreallocated(upcoming: nat) returns (ok: bool)
      requires Traced()
      modifies this`preallocatedEnd, files`syncCount
      ensures Traced()
      ensures preallocationChunk == 0 || !keepSizeSupported ==> ok && preallocatedEnd == old(preallocatedEnd)
      ensures ok && preallocationChunk > 0 && keepSizeSupported ==>
        && logicalEnd + upcoming <= preallocatedEnd
        && (preallocatedEnd == old(preallocatedEnd)
            || (Chunks(preallocatedEnd) && preallocatedEnd < logicalEnd + upcoming + preallocationChunk))
      ensures !ok ==> preallocatedEnd == old(preallocatedEnd)
    {
      if preallocationChunk == 0 || !keepSizeSupported {
        return true;
      }
      var required := logicalEnd + upcoming;
      if required <= preallocatedEnd {
        return true;
      }
      var target := (required + preallocationChunk - 1) / preallocationChunk * preallocationChunk;
      RoundUp(required, preallocationChunk);
      ok := files.syncs(files.syncCount);
      files.syncCount := files.syncCount + 1;
      if ok {
        preallocatedEnd := target;
      }
    }

    static lemma RoundUp(n: nat, chunk: nat)
      requires chunk > 0
      ensures n <= (n + chunk - 1) / chunk * chunk < n + chunk
    {
      assert n + chunk - 1 == (n + chunk - 1) / chunk * chunk + (n + chunk - 1) % chunk;
    }

    // Writes a serialized batch at the logical end and moves the end past it.
    method WriteBatch(records: seq<Entry>, buffer: seq<byte>) returns (ok: bool)
      requires |records| > 0 && Successive(records) && (count != 0 ==> records[0].sequence == (last + 1) % TWO64)
      requires buffer == EncodeEntries(records)
      requires Valid() && isOpen
      modifies this`logicalEnd, this`count, this`last, this`recordsWritten, this`written
      modifies this`bytesWritten, this`unsyncedBatches, this`trace, this`failed, this`failures, this`phase
      modifies files`log, files`logSynced, files`journal, files`writeCount
      ensures Valid() && Extends(old(trace), trace)
      ensures files.journal == old(files.journal)
      ensures Take(files.log, old(logicalEnd)) == old(Take(files.log, logicalEnd))
      ensures ok ==>
        && written == old(written) + records
        && logicalEnd == old(logicalEnd) + 84 * |records|
        && Take(files.log, logicalEnd) == old(Take(files.log, logicalEnd)) + buffer
        && count == old(count) + |records| && last == LastSequence(records)
        && recordsWritten == old(recordsWritten) + |records| && unsyncedBatches == old(unsyncedBatches) + 1
      ensures !ok ==>
        && written == old(written) && logicalEnd == old(logicalEnd) && count == old(count) && last == old(last)
        && recordsWritten == old(recordsWritten) && unsyncedBatches == old(unsyncedBatches) && failed
      ensures ok ==> failed == old(failed)
    {
      hide Traced, Overlay, EncodeEntries, Successive, Take;
      ghost var done: nat;
      ok, done := WriteAtFull(MainLog, buffer, logicalEnd, true);
      WrittenRange(old(files.log), logicalEnd, buffer, done);
      OverlayMeaning(old(files.log), logicalEnd, buffer[..done]);
      if ok {
        assert buffer[..done] == buffer;
        AdvanceEnd(records);
      } else {
        RecordFailure();
      }
    }

    // The logical end moves past a batch that has been written behind it.
    method AdvanceEnd(records: seq<Entry>)
      requires |records| > 0 && Successive(records) && (count != 0 ==> records[0].sequence == (last + 1) % TWO64)
      requires Traced() && |trace| > 0 && phase == Idle
      requires logicalEnd + 84 * |records| <= |files.log|
      requires files.log[logicalEnd..logicalEnd + 84 * |records|] == EncodeEntries(records)
      modifies this`logicalEnd, this`count, this`last, this`recordsWritten, this`unsyncedBatches
      modifies this`written, this`trace
      ensures Traced() && Extends(old(trace), trace)
      ensures written == old(written) + records && logicalEnd == old(logicalEnd) + 84 * |records|
      ensures count == old(count) + |records| && last == LastSequence(records)
      ensures recordsWritten == old(recordsWritten) + |records| && unsyncedBatches == old(unsyncedBatches) + 1
    {
      hide RawSteps, WriteLog, SyncLog, TearSlot, WriteSlot, SyncJournal, Fail, EncodeEntries, Successive;
      ghost var before := State();
      logicalEnd := logicalEnd + 84 * |records|;
      count := count + |records|;
      last := records[|records| - 1].sequence;
      recordsWritten := recordsWritten + |records|;
      unsyncedBatches := unsyncedBatches + 1;
      written := written + records;
      assert Accept(before, State(), records);
      assert Accepts(before, State());
      Record(before);
    }

    // Whether a batch fits and follows what was written
    method CheckBatch(records: seq<Entry>) returns (ok: bool)
      ensures ok <==> 0 < |records| <= batchCapacity && Follows(records)
    {
      if |records| == 0 || |records| > batchCapacity {
        return false;
      }
      var index := 1;
      while index < |records|
        invariant 1 <= index <= |records|
        invariant forall i :: 0 < i < index ==> records[i].sequence == (records[i - 1].sequence + 1) % TWO64
      {
        if records[index].sequence != (records[index - 1].sequence + 1) % TWO64 {
          return false;
        }
        index := index + 1;
      }
      if count != 0 && records[0].sequence != (last + 1) % TWO64 {
        return false;
      }
      ok := true;
    }

    predicate Follows(records: seq<Entry>)
      reads this
      requires |records| > 0
    {
      Successive(records) && (count != 0 ==> records[0].sequence == (last + 1) % TWO64)
    }

    // Appends a batch and commits if enough batches are pending.
    method AppendToOpen(records: seq<Entry>) returns (ok: bool)
      requires Valid() && isOpen
      modifies this`logicalEnd, this`count, this`last, this`recordsWritten, this`preallocatedEnd, this`written
      modifies this`generation, this`active, this`recordsCommitted, this`bytesWritten, this`unsyncedBatches
      modifies this`acked, this`committed, this`phase, this`trace, this`failed, this`failures
      modifies files`log, files`logSynced, files`journal, files`durable, files`writeCount, files`syncCount
      ensures Valid() && Extends(old(trace), trace)
      // A batch that does not fit or does not follow changes no file.
      ensures !(0 < |records| <= batchCapacity && old(Follows(records))) ==>
        && !ok && failed && files.log == old(files.log) && files.journal == old(files.journal)
        && written == old(written) && acked == old(acked)
      // What was in the log stays; an accepted batch follows it.
      ensures Take(files.log, old(logicalEnd)) == old(Take(files.log, logicalEnd))
      ensures ok ==>
        && written == old(written) + records
        && logicalEnd == old(logicalEnd) + 84 * |records|
        && Take(files.log, logicalEnd) == old(Take(files.log, logicalEnd)) + EncodeEntries(records)
        && count == old(count) + |records| && last == LastSequence(records)
        && recordsWritten == old(recordsWritten) + |records|
        && Reserved()
      // The batch is committed if it completes a group, and only then.
      ensures ok && old(unsyncedBatches) + 1 < syncEveryBatches ==>
        && unsyncedBatches == old(unsyncedBatches) + 1 && acked == old(acked)
        && files.journal == old(files.journal) && failed == old(failed)
        && recordsCommitted == old(recordsCommitted) && generation == old(generation)
      ensures ok && old(unsyncedBatches) + 1 >= syncEveryBatches ==>
        && unsyncedBatches == 0 && acked == written && recordsCommitted == recordsWritten
        && generation == old(generation) + 1
      ensures ok && !old(failed) ==> !failed
      ensures !ok ==> failed && acked == old(acked) && recordsCommitted == old(recordsCommitted)
      // A failed append took nothing, or took the batch and failed to commit.
      ensures !ok ==>
        || (&& written == old(written) && count == old(count) && last == old(last)
            && recordsWritten == old(recordsWritten) && unsyncedBatches == old(unsyncedBatches))
        || (&& 0 < |records| <= batchCapacity && old(Follows(records))
            && written == old(written) + records && count == old(count) + |records| && last == LastSequence(records)
            && recordsWritten == old(recordsWritten) + |records|
            && unsyncedBatches == old(unsyncedBatches) + 1 >= syncEveryBatches)
    {
      hide Traced, EncodeEntries, Successive, Take, EncodeCheckpointSlot, SetSlot, Checkpoint;
      ok := CheckAndWrite(records);
      if !ok {
        return;
      }
      if unsyncedBatches >= syncEveryBatches {
        ok := Flush();
      }
    }

    method SetPending(n: nat)
      requires Traced()
      modifies this`unsyncedBatches
      ensures Traced() && unsyncedBatches == n
    {
      unsyncedBatches := n;
    }

    // Checks, serializes and writes a batch.
    method CheckAndWrite(records: seq<Entry>) returns (ok: bool)
      requires Valid() && isOpen
      modifies this`logicalEnd, this`count, this`last, this`recordsWritten, this`preallocatedEnd, this`written
      modifies this`bytesWritten, this`unsyncedBatches, this`phase, this`trace, this`failed, this`failures
      modifies files`log, files`logSynced, files`journal, files`writeCount, files`syncCount
      ensures Valid() && Extends(old(trace), trace)
      ensures !(0 < |records| <= batchCapacity && old(Follows(records))) ==> !ok && files.log == old(files.log)
      ensures files.journal == old(files.journal)
      ensures Take(files.log, old(logicalEnd)) == old(Take(files.log, logicalEnd))
      ensures ok ==>
        && failed == old(failed)
        && written == old(written) + records
        && logicalEnd == old(logicalEnd) + 84 * |records|
        && Take(files.log, logicalEnd) == old(Take(files.log, logicalEnd)) + EncodeEntries(records)
        && count == old(count) + |records| && last == LastSequence(records)
        && recordsWritten == old(recordsWritten) + |records|
        && committed < count && unsyncedBatches == old(unsyncedBatches) + 1
        && Reserved()
      ensures !ok ==>
        && failed && written == old(written) && logicalEnd == old(logicalEnd)
        && count == old(count) && last == old(last) && recordsWritten == old(recordsWritten)
        && unsyncedBatches == old(unsyncedBatches)
    {
      hide Traced, EncodeEntries, Successive, Take;
      ok := CheckBatch(records);
      if ok {
        var buffer := Serialize(records);
        ok := EnsurePreallocated(|buffer|);
        if ok {
          ok := WriteBatch(records, buffer);
          return;
        }
      }
      RecordFailure();
    }

    // Writes the file header of a new log.
    method WriteFileHeader() returns (ok: bool)
      requires files.Valid() && trace == [] && files.log == []
      modifies this`logicalEnd, this`bytesWritten, this`trace, this`failed, this`failures, this`phase
      modifies files`log, files`logSynced, files`journal, files`writeCount
      ensures files.Valid() && trace == [] && files.journal == old(files.journal)
      ensures ok ==>
        files.log == EncodeFileHeader(NewFileHeader(startTime)) && logicalEnd == 24 && failed == old(failed)
      ensures !ok ==> failed
    {
      hide Overlay, EncodeFileHeader, NewFileHeader, RawSteps;
      var bytes := EncodeFileHeader(NewFileHeader(startTime));
      ghost var done: nat;
      ok, done := WriteAtFull(MainLog, bytes, 0, false);
      if !ok {
        RecordFailure();
        return;
      }
      logicalEnd := 24;
      assert bytes[..done] == bytes;
      OverlayEmpty(bytes);
    }

    // Initializes the journal of a log that has none, from the log's last record.
    method InitializeCheckpoint() returns (ok: bool)
      requires files.Valid() && trace == [] && files.journal == []
      requires logicalEnd == |files.log| >= 24 && (logicalEnd - 24) % 84 == 0
      modifies this`count, this`last, this`generation, this`active, this`recordsCommitted, this`bytesWritten
      modifies this`acked, this`committed, this`phase, this`trace
      modifies files`log, files`logSynced, files`journal, files`durable, files`writeCount, files`syncCount
      ensures files.Valid() && trace == [] && active < 2
      ensures files.log == old(files.log) && files.logSynced == old(files.logSynced)
      ensures count == (logicalEnd - 24) / 84
      ensures last == if count == 0 then old(last)
                      else DecodeRecordHeader(files.log[logicalEnd - 84..logicalEnd - 56]).sequence
      ensures ok ==> generation == 1 && active == 0 && files.durable == files.journal
      ensures ok ==>
        files.journal ==
          EncodeCheckpointSlot(NewCheckpoint(1, startTime, U64(logicalEnd), U64(count), last)) + EmptySlot()
    {
      hide DecodeRecordHeader, EncodeCheckpointSlot, NewCheckpoint, RawSteps, EmptySlot;
      count := (logicalEnd - 24) / 84;
      if count != 0 {
        var at := logicalEnd - 84;
        last := DecodeRecordHeader(files.log[at..at + 28]).sequence;
      }
      generation := 0;
      active := 1;
      ok := CommitCheckpoint();
    }

    // Selects the newest slot that describes the whole log.
    method LoadCheckpoints() returns (ok: bool)
      requires OpenHeaderOk(files.log) && logicalEnd == |files.log| && |files.journal| == 104
      requires startTime == DecodeFileHeader(files.log[..24]).startTime
      modifies this`count, this`last, this`generation, this`active
      ensures ok <==> LoadCheckpoint(files.log, files.journal).Some?
      ensures ok ==>
        LoadCheckpoint(files.log, files.journal) == Some(Loaded())
      ensures active == old(active) || active < 2
    {
      hide OpenHeaderOk, DecodeFileHeader, SlotAt, CheckpointMetadataValid;
      var selected: Option<CheckpointSlot> := None;
      var index := 0;
      while index < 2
        invariant 0 <= index <= 2
        invariant selected == Selected(files.log, files.journal, index)
        invariant active == if selected == None then old(active) else SelectedIndex(files.log, files.journal, index)
        invariant active == old(active) || active < 2
      {
        var slot := SlotAt(files.journal, index);
        if Describes(slot, startTime, logicalEnd)
           && (selected == None || slot.generation > selected.value.generation) {
          selected := Some(slot);
          active := index;
        }
        index := index + 1;
      }
      if selected == None {
        ok := false;
        return;
      }
      generation := selected.value.generation;
      count := selected.value.recordCount;
      last := selected.value.lastSequence;
      ok := true;
    }

    // The selection among the first n slots, and where it was found
    static ghost function Selected(log: seq<byte>, journal: seq<byte>, n: nat): Option<CheckpointSlot>
      requires OpenHeaderOk(log) && |journal| == 104 && n <= 2
    {
      if n == 0 then None
      else
        var slot := SlotAt(journal, n - 1);
        Newer(Selected(log, journal, n - 1), slot,
              Describes(slot, DecodeFileHeader(log[..24]).startTime, |log|))
    }

    static ghost function SelectedIndex(log: seq<byte>, journal: seq<byte>, n: nat): nat
      requires OpenHeaderOk(log) && |journal| == 104 && n <= 2
    {
      if n == 0 then 0
      else if Selected(log, journal, n) == Selected(log, journal, n - 1) && Selected(log, journal, n) != None
        then SelectedIndex(log, journal, n - 1)
      else n - 1
    }

    method LoadOrInitialize() returns (ok: bool)
      requires files.Valid() && trace == [] && active < 2
      requires OpenHeaderOk(files.log) && logicalEnd == |files.log|
      requires startTime == DecodeFileHeader(files.log[..24]).startTime
      modifies this`count, this`last, this`generation, this`active, this`recordsCommitted, this`bytesWritten
      modifies this`acked, this`committed, this`phase, this`trace
      modifies files`log, files`logSynced, files`journal, files`durable, files`writeCount, files`syncCount
      ensures files.Valid() && trace == [] && active < 2
      ensures files.log == old(files.log) && files.logSynced == old(files.logSynced)
      ensures |old(files.journal)| == 104 ==>
        && (ok <==> LoadCheckpoint(files.log, files.journal).Some?)
        && files.journal == old(files.journal) && files.durable == old(files.durable)
      ensures ok && |old(files.journal)| == 104 ==>
        LoadCheckpoint(files.log, files.journal) == Some(Loaded())
      ensures ok && old(files.journal) == [] ==>
        && generation == 1 && active == 0 && files.durable == files.journal
        && count == (logicalEnd - 24) / 84
        && last == (if count == 0 then old(last)
                    else DecodeRecordHeader(files.log[logicalEnd - 84..logicalEnd - 56]).sequence)
        && files.journal ==
             EncodeCheckpointSlot(NewCheckpoint(1, startTime, U64(logicalEnd), U64(count), last)) + EmptySlot()
      ensures |old(files.journal)| != 104 && old(files.journal) != [] ==> !ok && files.journal == old(files.journal)
      ensures ok ==> |files.journal| == 104 && (|old(files.journal)| == 104 || old(files.journal) == [])
    {
      hide DecodeFileHeader, EncodeCheckpointSlot, NewCheckpoint, ComputeFileHeaderCrc, LoadCheckpoint;
      hide RawSteps, EmptySlot;
      if files.journal == [] {
        ok := InitializeCheckpoint();
      } else if |files.journal| != 104 {
        ok := false;
      } else {
        ok := LoadCheckpoints();
      }
    }

    // Checks the header of the log, or writes one if the log is empty.
    method OpenLog(now: u64) returns (ok: bool)
      requires files.Valid() && trace == []
      modifies this`startTime, this`logicalEnd, this`preallocatedEnd
      modifies this`bytesWritten, this`trace, this`failed, this`failures, this`phase
      modifies files`log, files`logSynced, files`journal, files`durable, files`writeCount, files`syncCount
      ensures files.Valid() && trace == [] && files.journal == old(files.journal) && files.durable == old(files.durable)
      ensures ok ==> OpenHeaderOk(files.log) && logicalEnd == |files.log| && failed == old(failed)
      ensures ok ==> startTime == DecodeFileHeader(files.log[..24]).startTime
      ensures !ok ==> failed
      ensures |old(files.log)| > 0 ==>
        files.log == old(files.log) && files.logSynced == old(files.logSynced) && (ok <==> OpenHeaderOk(files.log))
      ensures ok && old(files.log) == [] ==>
        && startTime == now
        && files.log == EncodeFileHeader(NewFileHeader(startTime)) && files.logSynced == 24
    {
      hide DecodeFileHeader, ComputeFileHeaderCrc, EncodeFileHeader, NewFileHeader, RawWriterStep;
      logicalEnd := |files.log|;
      preallocatedEnd := logicalEnd;
      if |files.log| == 0 {
        startTime := now;
        ok := WriteFileHeader();
        if ok {
          ok := SyncMainFile();
        }
        if ok {
          NewLogHeader(startTime);
        }
      } else {
        if !OpenHeaderOk(files.log) {
          RecordFailure();
          return false;
        }
        startTime := DecodeFileHeader(files.log[..24]).startTime;
        ok := true;
      }
    }

    // An existing log without checkpoints gets its first one, for all that is there.
    ghost predicate FirstCheckpoint(remembered: u64)
      reads this, files
    {
      && generation == 1 && active == 0 && files.durable == files.journal
      && DescribesAll(files.log, files.journal, startTime, count, last, remembered)
    }

    // The first slot of the journal describes the whole log; the second is empty.  An
    // empty log keeps the last sequence that the writer remembers.
    static ghost predicate DescribesAll(log: seq<byte>, journal: seq<byte>, startTime: u64, count: nat, last: u64,
                                        remembered: u64)
    {
      && |log| >= 24 && startTime == DecodeFileHeader(log[..24]).startTime
      && count == (|log| - 24) / 84
      && (count == 0 ==> last == remembered)
      && (count > 0 ==>
            && |log| >= 108
            && last == DecodeRecordHeader(log[|log| - 84..|log| - 56]).sequence)
      && journal == EncodeCheckpointSlot(NewCheckpoint(1, startTime, U64(|log|), U64(count), last)) + EmptySlot()
    }

    // Reads or creates both files, before any batch is appended.
    method LoadLog(now: u64) returns (ok: bool)
      requires files.Valid() && trace == [] && active < 2
      modifies this`startTime, this`logicalEnd, this`preallocatedEnd, this`count, this`last
      modifies this`generation, this`active
      modifies this`recordsCommitted, this`bytesWritten, this`acked, this`committed, this`phase, this`trace
      modifies this`failed, this`failures
      modifies files`log, files`logSynced, files`journal, files`durable, files`writeCount, files`syncCount
      ensures files.Valid() && Traced() && active < 2
      ensures !ok ==> failed
      ensures ok ==> failed == old(failed) && logicalEnd == |files.log| && |files.journal| == 104
      ensures |old(files.log)| > 0 && |old(files.journal)| == 104 ==>
        && (ok <==> LoadCheckpoint(old(files.log), old(files.journal)).Some?)
        && files.log == old(files.log) && files.journal == old(files.journal)
        && files.durable == old(files.durable) && files.logSynced == old(files.logSynced)
      ensures ok && |old(files.log)| > 0 && |old(files.journal)| == 104 ==>
        && startTime == DecodeFileHeader(files.log[..24]).startTime
        && LoadCheckpoint(files.log, files.journal) == Some(Loaded())
      ensures |old(files.log)| > 0 && (!OpenHeaderOk(old(files.log))
                                       || (|old(files.journal)| != 104 && old(files.journal) != [])) ==>
        !ok && files.log == old(files.log) && files.journal == old(files.journal)
      ensures ok && |old(files.log)| > 0 && old(files.journal) == [] ==>
        && files.log == old(files.log) && OpenHeaderOk(files.log) && FirstCheckpoint(old(last))
      ensures ok && old(files.log) == [] && old(files.journal) == [] ==>
        && startTime == now && files.log == Image(startTime, []) && files.logSynced == 24
        && files.journal == FirstJournal(startTime, last) && files.durable == files.journal
        && generation == 1 && active == 0 && count == 0 && last == old(last)
    {
      hide DecodeFileHeader, OpenHeaderOk, LoadCheckpoint, EncodeFileHeader, NewFileHeader, Image;
      hide EncodeCheckpointSlot, NewCheckpoint, EmptySlot, RawSteps;
      ok := OpenLog(now);
      if !ok {
        HeaderNeeded(files.log, files.journal);
        return;
      }
      NewLogIsInit(startTime);
      ok := LoadOrInitialize();
      if !ok {
        RecordFailure();
      }
    }

    // Opens the log, creating it if it is empty.  The ghost arguments are what
    // the log is known to hold and what of it was acknowledged before.
    method Open(now: u64, ghost base: seq<Entry>, ghost known: seq<Entry>) returns (ok: bool)
      requires Valid()
      modifies this, files`log, files`logSynced, files`journal, files`durable, files`writeCount, files`syncCount
      ensures Valid()
      ensures old(isOpen) ==> ok && State() == old(State()) && trace == old(trace) && isOpen
      ensures ok ==> isOpen
      ensures !ok ==> failed
      ensures ok && !old(isOpen) ==>
        && trace == [State()] && written == base && acked == known && committed == count && phase == Idle
        && failed == old(failed)
      // An existing log opens exactly if a checkpoint describes all of it.
      ensures !old(isOpen) && batchCapacity > 0 && syncEveryBatches > 0
              && |old(files.log)| > 0 && |old(files.journal)| == 104 ==>
        && (ok <==> LoadCheckpoint(old(files.log), old(files.journal)).Some?)
        && files.log == old(files.log) && files.journal == old(files.journal)
        && files.durable == old(files.durable) && files.logSynced == old(files.logSynced)
      ensures ok && !old(isOpen) && |old(files.log)| > 0 && |old(files.journal)| == 104 ==>
        && startTime == DecodeFileHeader(files.log[..24]).startTime
        && LoadCheckpoint(files.log, files.journal) == Some(State().process.cursor.(failed := false))
      // With no checkpoint at all it gets one for all of it; a bad header, another
      // journal or options of zero are refused, and no file changes.
      ensures ok && !old(isOpen) && |old(files.log)| > 0 && old(files.journal) == [] ==>
        && files.log == old(files.log) && OpenHeaderOk(files.log) && FirstCheckpoint(old(last))
      ensures !old(isOpen) && (batchCapacity == 0 || syncEveryBatches == 0
                               || (|old(files.log)| > 0
                                   && (!OpenHeaderOk(old(files.log))
                                       || (|old(files.journal)| != 104 && old(files.journal) != [])))) ==>
        !ok && !isOpen && files.log == old(files.log) && files.journal == old(files.journal)
      // A new log gets a first checkpoint that names the last sequence the writer
      // remembers (FirstJournalRecovers says what recovery makes of it); if that is
      // 0, this is the initial state of the protocol.
      ensures ok && !old(isOpen) && old(files.log) == [] && old(files.journal) == [] ==>
        && startTime == now
        && files.log == Image(startTime, []) && files.journal == FirstJournal(startTime, old(last))
        && count == 0 && last == old(last)
      ensures ok && !old(isOpen) && old(files.log) == [] && old(files.journal) == []
              && !old(failed) && old(last) == 0 && base == known == [] ==>
        Init(State())
    {
      hide DecodeFileHeader, OpenHeaderOk, LoadCheckpoint, EncodeFileHeader, NewFileHeader, Image;
      hide EncodeCheckpointSlot, NewCheckpoint, CheckpointFor, EmptySlot, RawSteps, Init, FirstJournal;
      hide DescribesAll;
      if isOpen {
        return true;
      }
      if syncEveryBatches == 0 {
        RecordFailure();
        return false;
      }
      if batchCapacity == 0 {
        RecordFailure();
        RecordFailure();
        return false;
      }
      trace := [];
      ok := LoadLog(now);
      if !ok {
        return;
      }
      StartSession(base, known);
      if old(files.log) == [] && old(files.journal) == [] && !failed && last == 0 && base == known == [] {
        NewStateIsInit(State());
      }
    }

    // From here on, every operation is recorded.
    method StartSession(ghost base: seq<Entry>, ghost known: seq<Entry>)
      requires files.Valid() && active < 2 && batchCapacity > 0 && syncEveryBatches > 0
      requires logicalEnd == |files.log| && |files.journal| == 104
      requires unsyncedBatches == 0 || failed
      modifies this`isOpen, this`written, this`acked, this`committed, this`phase, this`trace
      ensures Valid() && isOpen && phase == Idle && committed == count
      ensures trace == [State()] && written == base && acked == known
    {
      hide RawWriterStep;
      isOpen := true;
      written, acked, committed, phase := base, known, count, Idle;
      trace := [State()];
    }

    method Close()
      requires Valid()
      modifies this, files`log, files`logSynced, files`journal, files`durable, files`writeCount, files`syncCount
      ensures Valid() && !isOpen
      // Closing commits what is pending, unless the writer has failed.
      ensures old(isOpen) && !old(failed) && old(unsyncedBatches) > 0 && !failed ==> acked == old(written)
      ensures old(failed) || old(unsyncedBatches) == 0 ==> acked == old(acked) && failed == old(failed)
      ensures files.log == old(files.log)
      // Closed without failure, the writer can be opened again without recovery:
      // open() would load what it had, all that was written.
      ensures old(isOpen) && !failed && Inv(State()) ==>
        && LoadCheckpoint(files.log, files.journal) == Some(State().process.cursor)
        && count == |written| && last == LastSequence(written)
    {
      hide EncodeCheckpointSlot, SetSlot, Checkpoint, RawSteps, RawWriterStep, Inv, LoadCheckpoint;
      if isOpen && unsyncedBatches != 0 && !failed {
        var ok := Flush();
      }
      if isOpen && !failed && Inv(State()) {
        OpenAfterClose(State());
      }
      isOpen := false;
    }

    // As AppendToOpen, but a closed writer is opened first.
    method AppendBatch(records: seq<Entry>, now: u64, ghost base: seq<Entry>,
                       ghost known: seq<Entry>) returns (ok: bool)
      requires Valid()
      modifies this, files`log, files`logSynced, files`journal, files`durable, files`writeCount, files`syncCount
      ensures Valid()
      ensures ok ==> isOpen && 0 < |records| <= batchCapacity && Successive(records)
      ensures ok && old(isOpen) ==> written == old(written) + records && Extends(old(trace), trace)
      ensures ok && !old(isOpen) ==> written == base + records
      ensures !ok ==> failed
      // A batch of a refused size changes nothing; on an open writer a failed append
      // keeps what was in the log and acknowledges nothing.
      ensures !(0 < |records| <= batchCapacity) ==>
        !ok && isOpen == old(isOpen) && files.log == old(files.log) && files.journal == old(files.journal)
      ensures old(isOpen) ==> Take(files.log, old(logicalEnd)) == old(Take(files.log, logicalEnd))
      ensures ok && old(isOpen) ==>
        Take(files.log, logicalEnd) == old(Take(files.log, logicalEnd)) + EncodeEntries(records)
      ensures ok ==> Reserved()
      ensures !ok && old(isOpen) ==>
        acked == old(acked) && (written == old(written) || written == old(written) + records)
      ensures ok ==> unsyncedBatches == 0 || unsyncedBatches < syncEveryBatches
    {
      hide Traced, Successive, Take, EncodeEntries, FirstCheckpoint, OpenHeaderOk, LoadCheckpoint, Image, FirstJournal;
      hide DecodeFileHeader, Init, Reserved, RawSteps;
      if |records| == 0 || |records| > batchCapacity {
        RecordFailure();
        return false;
      }
      if !isOpen {
        ok := Open(now, base, known);
        if !ok {
          return;
        }
      }
      ok := AppendToOpen(records);
    }
  }

  lemma HeaderNeeded(log: seq<byte>, journal: seq<byte>)
    ensures !OpenHeaderOk(log) ==> LoadCheckpoint(log, journal) == None
  {
    hide DecodeFileHeader, ComputeFileHeaderCrc;
  }

  lemma NewLogHeader(startTime: u64)
    ensures var log := EncodeFileHeader(NewFileHeader(startTime));
      && OpenHeaderOk(log)
      && DecodeFileHeader(log[..24]).startTime == startTime
  {
    hide EncodeFileHeader, DecodeFileHeader, ComputeFileHeaderCrc;
    var h := NewFileHeader(startTime);
    FileHeaderRoundTrip(h);
    NewFileHeaderOk(startTime);
    assert EncodeFileHeader(h)[..24] == EncodeFileHeader(h);
  }

  lemma NewStateIsInit(s: Sys)
    requires s.written == [] && s.acked == []
    requires s.disk.log == Image(s.startTime, []) && s.disk.logSynced == 24
    requires s.disk.journal == FirstJournal(s.startTime, 0)
    requires s.disk.durable == s.disk.journal
    requires s.process == Up(Cursor(24, 1, 0, 0, 0, 0, Idle, false))
    ensures Init(s)
  {
    hide Image, EncodeCheckpointSlot, EmptySlot, EncodeFileHeader;
    NewLogIsInit(s.startTime);
  }

  // The files of a new log, and the fields that describe them
  lemma NewLogIsInit(startTime: u64)
    ensures Image(startTime, []) == EncodeFileHeader(NewFileHeader(startTime))
    ensures CheckpointFor(startTime, 1, []) == NewCheckpoint(1, startTime, 24, 0, 0)
  {
    hide EncodeFileHeader, NewFileHeader, NewCheckpoint;
  }

  // Sessions of the writer and the guarantees of the protocol

  // Torn slots along the trace are detected.
  ghost predicate TornSlotsDetected(s: Sys, t: Sys) {
    forall bs :: TearSlot(s, t, bs) ==>
      TearDetected(bs, SlotBytes(s.disk.journal, Inactive(s.process.cursor.active)),
                   EncodeCheckpointSlot(NextSlot(s)))
  }

  lemma RawIsStep(s: Sys, t: Sys)
    requires RawWriterStep(s, t) && TornSlotsDetected(s, t) && Bounded(t)
    ensures WriterStep(s, t) && Step(s, t)
  {
    hide WriteLog, Accepts, SyncLog, WriteSlot, SyncJournal, Fail, TearDetected, Bounded, ProcessCrash;
    hide RecoveryStep, DetectedCut, SafeToCut;
  }

  ghost predicate Admissible(trace: seq<Sys>) {
    && (forall i :: 0 <= i < |trace| ==> Bounded(trace[i]))
    && (forall i :: 0 < i < |trace| ==> TornSlotsDetected(trace[i - 1], trace[i]))
  }

  // At every device operation of a session, a crash is recovered from: what the
  // writer has acknowledged is kept and nothing else is invented.
  lemma {:induction false} SessionSafe(trace: seq<Sys>, n: nat) returns (generation: u64, kept: nat)
    requires n < |trace| && Inv(trace[0]) && RawSteps(trace) && Admissible(trace)
    ensures Inv(trace[n])
    ensures RecoversTo(trace[n], generation, kept)
  {
    hide Inv, RawWriterStep, Bounded, TornSlotsDetected, RecoversTo;
    if n > 0 {
      generation, kept := SessionSafe(trace, n - 1);
      RawIsStep(trace[n - 1], trace[n]);
      StepKeeps(trace[n - 1], trace[n]);
    }
    var i := RecoveryOutcome(trace[n]);
    generation, kept := J(trace[n], i).generation, J(trace[n], i).recordCount;
  }

  // A session that begins with its active slot on the disk keeps it there at every
  // device operation.
  lemma {:induction false} SessionFlushed(trace: seq<Sys>, n: nat)
    requires n < |trace| && Inv(trace[0]) && Flushed(trace[0]) && RawSteps(trace) && Admissible(trace)
    ensures Inv(trace[n]) && Flushed(trace[n])
  {
    hide Inv, Flushed, RawWriterStep, WriterStep, Bounded, TornSlotsDetected;
    if n > 0 {
      SessionFlushed(trace, n - 1);
      RawIsStep(trace[n - 1], trace[n]);
      WriterStepKeeps(trace[n - 1], trace[n]);
      WriterStepFlushed(trace[n - 1], trace[n]);
    }
  }

  // So the power may fail at any of them: whatever a cut leaves of the unsynchronized
  // bytes, recovery keeps what the writer has acknowledged and invents nothing.
  lemma SessionSurvivesPowerCut(trace: seq<Sys>, n: nat, t: Sys) returns (generation: u64, kept: nat)
    requires n < |trace| && Inv(trace[0]) && Flushed(trace[0]) && RawSteps(trace) && Admissible(trace)
    requires DetectedCut(trace[n], t) && Bounded(t)
    ensures t.acked == trace[n].acked && t.written == trace[n].written
    ensures RecoversTo(t, generation, kept)
  {
    hide Inv, Flushed, RawSteps, Admissible, CutDetected, Bounded, SafeToCut, RecoversTo, SlotSurvives;
    SessionFlushed(trace, n);
    FlushedIsSafe(trace[n]);
    PowerCutKeeps(trace[n], t);
    var i := RecoveryOutcome(t);
    generation, kept := J(t, i).generation, J(t, i).recordCount;
  }

  // A session opened after a recovery continues the run; its active slot is on the
  // disk if the journal was.
  lemma SessionAfterRecovery(s: Sys, t: Sys)
    requires Inv(s) && s.process == Recovered
    requires t.process.Up? && LoadCheckpoint(s.disk.log, s.disk.journal) == Some(t.process.cursor)
    requires t == s.(process := t.process)
    ensures Inv(t) && Step(s, t)
    ensures Flushed(s) ==> Flushed(t)
  {
    hide Inv, LoadCheckpoint, WriterStep, ProcessCrash, DetectedCut, SafeToCut, Flushed;
    OpenKeeps(s, t);
    if Flushed(s) {
      RecoveryStepFlushed(s, t);
    }
    assert Bounded(t) by {
      BoundedAt(t);
    }
  }

  lemma BoundedAt(s: Sys)
    requires Inv(s)
    ensures Bounded(s)
  {
    hide SlotsInv, OrderInv, CoverInv, UpInv, Bounded;
  }
}
