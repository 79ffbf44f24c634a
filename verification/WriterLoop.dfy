/**
 The body of the writer thread over the real log writer: the batches the ring
 delivers are numbered and appended, the commit timer flushes between them, and a
 last flush ends the session.
 */
module WriterLoop {
  import opened Bytes
  import opened LogFormat
  import opened LogImage
  import opened LogScanner
  import CrashProtocol
  import opened Device
  import Log = BinaryLogWriter
  import Pipeline
  import PipelineSafety

  type Sample = FlightRecord

  function Flatten(batches: seq<seq<Sample>>): seq<Sample> {
    if |batches| == 0 then [] else Flatten(batches[..|batches| - 1]) + batches[|batches| - 1]
  }

  // Batches pending after the first n, if pending of them were at the start
  function PendingAfter(pending: nat, due: seq<bool>, group: nat, n: nat): nat
    requires n <= |due|
  {
    if n == 0 then pending
    else
      var more := (if due[n - 1] then 0 else PendingAfter(pending, due, group, n - 1)) + 1;
      if more >= group then 0 else more
  }

  // Checkpoints written by then: one for a deadline that finds something pending, and
  // one for a batch that completes a group
  function CommitsAfter(pending: nat, due: seq<bool>, group: nat, n: nat): nat
    requires n <= |due|
  {
    if n == 0 then 0
    else
      var before := PendingAfter(pending, due, group, n - 1);
      CommitsAfter(pending, due, group, n - 1)
        + (if due[n - 1] && before > 0 then 1 else 0)
        + (if (if due[n - 1] then 0 else before) + 1 >= group then 1 else 0)
  }

  // The log holds what it held, then these samples numbered from the start.
  ghost predicate Holds(writer: Log.BinaryLogWriter, base: seq<Entry>, bytes: seq<byte>, start: u64,
                        samples: seq<Sample>)
    reads writer, writer.files
  {
    && writer.written == base + Pipeline.Numbered(start, samples)
    && Take(writer.files.log, writer.logicalEnd) == bytes + EncodeEntries(Pipeline.Numbered(start, samples))
  }

  // The next number follows the log's last.
  ghost predicate Numbers(writer: Log.BinaryLogWriter, sequence: u64)
    reads writer
  {
    writer.count != 0 ==> writer.last == sequence
  }

  // A batch numbered from where the log ends is accepted as following it.
  lemma BatchFollows(writer: Log.BinaryLogWriter, sequence: u64, samples: seq<Sample>)
    requires Numbers(writer, sequence) && |samples| > 0
    ensures writer.Follows(Pipeline.Numbered(sequence, samples))
    ensures LastSequence(Pipeline.Numbered(sequence, samples)) == (sequence + |samples|) % TWO64
  {
    PipelineSafety.NumberedSuccessive(sequence, samples);
  }

  lemma NumbersGrow(start: u64, a: seq<Sample>, b: seq<Sample>, base: seq<Entry>, bytes: seq<byte>)
    ensures base + Pipeline.Numbered(start, a + b)
            == (base + Pipeline.Numbered(start, a)) + Pipeline.Numbered((start + |a|) % TWO64, b)
    ensures bytes + EncodeEntries(Pipeline.Numbered(start, a + b))
            == (bytes + EncodeEntries(Pipeline.Numbered(start, a)))
               + EncodeEntries(Pipeline.Numbered((start + |a|) % TWO64, b))
  {
    hide EncodeEntries, Pipeline.Numbered;
    PipelineSafety.NumberedAppend(start, a, b);
    EncodeAppend(Pipeline.Numbered(start, a), Pipeline.Numbered((start + |a|) % TWO64, b));
  }

  // Numbers one delivered batch and appends it.
  method AppendNumbered(writer: Log.BinaryLogWriter, sequence: u64, samples: seq<Sample>,
                        ghost base: seq<Entry>, ghost bytes: seq<byte>, ghost start: u64, ghost before: seq<Sample>)
    returns (ok: bool, next: u64)
    requires writer.Valid() && writer.isOpen && !writer.failed
    requires 0 < |samples| <= writer.batchCapacity
    requires Numbers(writer, sequence) && sequence == (start + |before|) % TWO64
    requires Holds(writer, base, bytes, start, before)
    modifies writer, writer.files
    ensures writer.Valid()
    ensures next == (start + |before + samples|) % TWO64
    ensures ok ==> writer.isOpen && !writer.failed && Numbers(writer, next)
    ensures ok ==> Holds(writer, base, bytes, start, before + samples)
    ensures ok && writer.unsyncedBatches == 0 ==> writer.acked == writer.written
    ensures ok ==>
      var more := old(writer.unsyncedBatches) + 1;
      if more >= writer.syncEveryBatches
      then writer.unsyncedBatches == 0 && writer.generation == old(writer.generation) + 1
      else writer.unsyncedBatches == more && writer.generation == old(writer.generation)
    ensures !ok ==> writer.failed
    ensures !ok ==> || writer.written == base + Pipeline.Numbered(start, before)
                    || writer.written == base + Pipeline.Numbered(start, before + samples)
  {
    hide Log.RawSteps, Log.Extends, EncodeEntries, Take, Successive, Pipeline.Numbered;
    var batch := Pipeline.Numbered(sequence, samples);
    BatchFollows(writer, sequence, samples);
    NumbersGrow(start, before, samples, base, bytes);
    ok := writer.AppendToOpen(batch);
    next := (sequence + |batch|) % TWO64;
  }

  // A flush moves no entry.
  method FlushLog(writer: Log.BinaryLogWriter, ghost base: seq<Entry>, ghost bytes: seq<byte>, ghost start: u64,
                  ghost samples: seq<Sample>)
    returns (ok: bool)
    requires writer.Valid() && writer.isOpen && !writer.failed
    requires Holds(writer, base, bytes, start, samples)
    modifies writer, writer.files
    ensures writer.Valid() && writer.isOpen && Holds(writer, base, bytes, start, samples)
    ensures ok ==> !writer.failed && writer.unsyncedBatches == 0
    ensures ok ==>
      writer.generation == old(writer.generation) + if old(writer.unsyncedBatches) > 0 then 1 else 0
    ensures ok ==>
      writer.acked == writer.written || (old(writer.unsyncedBatches) == 0 && writer.acked == old(writer.acked))
    ensures !ok ==> writer.failed
    ensures forall sequence: u64 :: Numbers(writer, sequence) <==> old(Numbers(writer, sequence))
  {
    hide Log.RawSteps, Log.Extends, EncodeEntries, Take, Successive, EncodeCheckpointSlot, CrashProtocol.SetSlot;
    hide Log.BinaryLogWriter.Valid, Log.BinaryLogWriter.Checkpoint, Pipeline.Numbered;
    ok := writer.Flush();
  }

  /** due[i] says whether the commit deadline has passed before batch i. */
  method WriterLoop(writer: Log.BinaryLogWriter, startSequence: u64, delivered: seq<seq<Sample>>, due: seq<bool>)
    returns (ok: bool, handled: nat)
    requires writer.Valid() && writer.isOpen && !writer.failed
    requires Numbers(writer, startSequence)
    requires |due| == |delivered|
    // The ring delivers one sample and then at most a batch less one.
    requires forall i :: 0 <= i < |delivered| ==> 0 < |delivered[i]| <= writer.batchCapacity
    modifies writer, writer.files
    ensures writer.Valid() && handled <= |delivered|
    // Everything delivered is in the log, numbered in order, and committed ...
    ensures ok ==>
      && handled == |delivered|
      && Holds(writer, old(writer.written), old(Take(writer.files.log, writer.logicalEnd)), startSequence,
               Flatten(delivered))
      && writer.unsyncedBatches == 0 && (|delivered| > 0 ==> writer.acked == writer.written)
    // ... with a checkpoint for each deadline that found something pending, for each
    // complete group of batches and for what was left at the end, and no other; ...
    ensures ok ==>
      var pending, n := old(writer.unsyncedBatches), |delivered|;
      writer.generation == old(writer.generation)
        + CommitsAfter(pending, due, writer.syncEveryBatches, n)
        + (if PendingAfter(pending, due, writer.syncEveryBatches, n) > 0 then 1 else 0)
    // ... or the writer failed, and what the log took is the batches before it,
    // and of the batch it failed on all or nothing.
    ensures !ok ==>
      && writer.failed
      && exists taken :: handled <= taken <= handled + 1 && taken <= |delivered|
           && writer.written == old(writer.written) + Pipeline.Numbered(startSequence, Flatten(delivered[..taken]))
  {
    hide Log.RawSteps, Log.Extends, EncodeEntries, Take, Successive, Pipeline.Numbered, Numbers;
    hide Log.BinaryLogWriter.Valid;
    var sequence: u64 := startSequence;
    ghost var base, bytes := writer.written, Take(writer.files.log, writer.logicalEnd);
    ghost var pending := writer.unsyncedBatches;
    handled, ok := 0, true;
    StartsEmpty(writer, startSequence);
    while handled < |delivered|
      invariant handled <= |delivered|
      invariant writer.Valid() && writer.isOpen && !writer.failed
      invariant Numbers(writer, sequence)
      invariant Holds(writer, base, bytes, startSequence, Flatten(delivered[..handled]))
      invariant handled > 0 && writer.unsyncedBatches == 0 ==> writer.acked == writer.written
      invariant writer.unsyncedBatches == PendingAfter(pending, due, writer.syncEveryBatches, handled)
      invariant writer.generation
        == old(writer.generation) + CommitsAfter(pending, due, writer.syncEveryBatches, handled)
      invariant sequence == (startSequence + |Flatten(delivered[..handled])|) % TWO64
    {
      ghost var before := Flatten(delivered[..handled]);
      if due[handled] {
        ok := FlushLog(writer, base, bytes, startSequence, before);
        if !ok {
          return;
        }
      }
      assert delivered[..handled + 1][..handled] == delivered[..handled];
      ok, sequence := AppendNumbered(writer, sequence, delivered[handled], base, bytes, startSequence, before);
      if !ok {
        return;
      }
      handled := handled + 1;
    }
    assert delivered[..handled] == delivered;
    ok := FlushLog(writer, base, bytes, startSequence, Flatten(delivered));
  }

  lemma StartsEmpty(writer: Log.BinaryLogWriter, start: u64)
    ensures Holds(writer, writer.written, Take(writer.files.log, writer.logicalEnd), start, Flatten([]))
  {
    assert Pipeline.Numbered(start, []) == [];
  }

  // ---------- The log of the thread model ----------

  // log is what the writer loop's thread model keeps of this writer.
  ghost predicate Models(log: Pipeline.Log, writer: Log.BinaryLogWriter, base: seq<Entry>)
    reads writer
  {
    && writer.written == base + log.entries
    && writer.count == log.count + |log.entries|
    && (writer.count != 0 ==> writer.last == Pipeline.LastSequence(log))
    && writer.unsyncedBatches == log.unsynced
    && writer.failed == log.failed
    && writer.recordsWritten == |log.entries| && writer.recordsCommitted == log.committed
  }

  // An append by the writer is the append of the thread model, for what its device
  // did: the two succeed together and stay in step also when they fail.
  method AppendModelled(writer: Log.BinaryLogWriter, batch: seq<Entry>, ghost log: Pipeline.Log,
                        ghost config: Pipeline.Config, ghost base: seq<Entry>)
    returns (ok: bool, ghost io: Pipeline.Io)
    requires writer.Valid() && writer.isOpen && !writer.failed
    requires writer.batchCapacity == config.batchSize && writer.syncEveryBatches == config.syncEveryBatches
    requires Models(log, writer, base)
    modifies writer, writer.files
    ensures writer.Valid()
    ensures ok == Pipeline.Append(log, batch, config, io).1
    ensures Models(Pipeline.Append(log, batch, config, io).0, writer, base)
  {
    hide Log.RawSteps, Log.Extends, EncodeEntries, Take, Successive;
    ghost var count := writer.count;
    ok := writer.AppendToOpen(batch);
    io := if ok then Pipeline.Fine else if writer.count == count then Pipeline.WriteFails else Pipeline.CommitFails;
    assert base + log.entries + batch == base + (log.entries + batch);
  }

  // So is a flush.
  method FlushModelled(writer: Log.BinaryLogWriter, ghost log: Pipeline.Log, ghost base: seq<Entry>)
    returns (ok: bool, ghost io: Pipeline.Io)
    requires writer.Valid() && writer.isOpen
    requires Models(log, writer, base)
    modifies writer, writer.files
    ensures writer.Valid()
    ensures ok == Pipeline.Flush(log, io).1
    ensures Models(Pipeline.Flush(log, io).0, writer, base)
  {
    hide Log.RawSteps, Log.Extends, EncodeEntries, Take, Successive, EncodeCheckpointSlot, CrashProtocol.SetSlot;
    hide Log.BinaryLogWriter.Valid, Log.BinaryLogWriter.Checkpoint, Pipeline.Numbered;
    ok := writer.Flush();
    io := if ok then Pipeline.Fine else Pipeline.CommitFails;
  }
}
