/**
 Every run of the commit protocol keeps its invariant, so that recovery always
 succeeds, keeps everything acknowledged and invents nothing.
 */
module CrashSafety {
  import opened Basics
  import opened Bytes
  import opened LogFormat
  import opened LogScanner
  import opened Recovery
  import opened LogImage
  import opened CrashProtocol

  // Slots of the journal

  lemma SetSlotBytes(journal: seq<byte>, i: nat, bs: seq<byte>)
    requires |journal| == 104 && i < 2 && |bs| == 52
    ensures SlotBytes(SetSlot(journal, i, bs), i) == bs
    ensures SlotBytes(SetSlot(journal, i, bs), Inactive(i)) == SlotBytes(journal, Inactive(i))
  {
    if i == 0 {
      assert SetSlot(journal, 0, bs) == bs + journal[52..];
      assert (bs + journal[52..])[52..104] == journal[52..104];
    } else {
      assert SetSlot(journal, 1, bs) == journal[..52] + bs;
      assert (journal[..52] + bs)[..52] == journal[..52];
    }
  }

  // Writer steps

  lemma WriteLogKeeps(s: Sys, t: Sys)
    requires Inv(s) && WriteLog(s, t) && Bounded(t)
    ensures Inv(t)
  {
    hide CheckpointMetadataValid, SlotAt, Image, CheckpointFor, Contiguous;
    var m := Min(t.disk.logSynced, Boundary(|t.written|));
    assert t.disk.log[..m] == t.disk.log[..s.process.cursor.length][..m];
    assert s.disk.log[..m] == s.disk.log[..s.process.cursor.length][..m];
  }

  lemma SyncLogKeeps(s: Sys, t: Sys)
    requires Inv(s) && SyncLog(s, t) && Bounded(t)
    ensures Inv(t)
  {
    hide CheckpointMetadataValid, SlotAt, Image, CheckpointFor, Contiguous;
    var m := Min(t.disk.logSynced, Boundary(|t.written|));
    assert m == t.process.cursor.length;
    assert Image(t.startTime, t.written)[..m] == Image(t.startTime, t.written);
  }

  lemma FailKeeps(s: Sys, t: Sys)
    requires Inv(s) && Fail(s, t)
    ensures Inv(t)
  {
    hide CheckpointMetadataValid, SlotAt, Image, CheckpointFor, Contiguous;
  }

  lemma ProcessCrashKeeps(s: Sys, t: Sys)
    requires Inv(s) && ProcessCrash(s, t)
    ensures Inv(t)
  {
    hide CheckpointMetadataValid, SlotAt, Image, CheckpointFor, Contiguous;
  }

  lemma AcceptKeeps(s: Sys, t: Sys, batch: seq<Entry>)
    requires Inv(s) && Accept(s, t, batch) && Bounded(t)
    ensures Inv(t)
  {
    hide CheckpointMetadataValid, SlotAt, Image, CheckpointFor, Describable, Ordered, EncodeEntries;
    AcceptExtendsLog(s, t, batch);
    StillDescribable(s, t, J(s, 0));
    StillDescribable(s, t, J(s, 1));
    StillDescribable(s, t, D(s, 0));
    StillDescribable(s, t, D(s, 1));
  }

  lemma AcceptExtendsLog(s: Sys, t: Sys, batch: seq<Entry>)
    requires Inv(s) && Accept(s, t, batch) && Bounded(t)
    ensures LogInv(t)
    ensures t.disk.log[..t.process.cursor.length] == Image(t.startTime, t.written)
  {
    hide SlotAt, Image, Contiguous, Successive, FitsSequence, SlotsInv, OrderInv, CoverInv, Anchor, EncodeEntries;
    var c := s.process.cursor;
    ImageAppend(s.startTime, s.written, batch);
    SplitPrefix(t.disk.log, c.length, 84 * |batch|);
    AppendContiguous(s.written, batch);
    var m := Min(t.disk.logSynced, Boundary(|t.written|));
    SplitPrefix(t.disk.log, m, t.process.cursor.length - m);
  }

  lemma SplitPrefix(log: seq<byte>, n: nat, k: nat)
    requires n + k <= |log|
    ensures log[..n + k] == log[..n] + log[n..n + k]
    ensures log[..n + k][..n] == log[..n]
  {
  }

  lemma AppendContiguous(a: seq<Entry>, b: seq<Entry>)
    requires Contiguous(a) && Successive(b) && |b| > 0
    requires |a| > 0 ==> b[0].sequence == (LastSequence(a) + 1) % TWO64
    requires FitsSequence(a + b)
    ensures Contiguous(a + b)
  {
    forall i | 0 < i < |a + b|
      ensures (a + b)[i].sequence == ((a + b)[i - 1].sequence + 1) % TWO64
    {
    }
    WrapCondition(a + b);
  }

  // Appending or synchronizing keeps every description.
  lemma StillDescribable(s: Sys, t: Sys, slot: CheckpointSlot)
    requires Describable(s, slot)
    requires s.written <= t.written && t.startTime == s.startTime && s.disk.logSynced <= t.disk.logSynced
    ensures Describable(t, slot)
  {
    hide CheckpointMetadataValid, CheckpointFor;
    if Valid(slot) {
      assert t.written[..slot.recordCount] == s.written[..slot.recordCount];
    }
  }

  // Publishing a checkpoint

  lemma CheckpointForMeaning(startTime: u64, generation: u64, es: seq<Entry>)
    requires Boundary(|es|) < TWO64
    ensures var slot := CheckpointFor(startTime, generation, es);
      && (Valid(slot) <==> generation != 0)
      && slot.generation == generation && slot.startTime == startTime
      && slot.committedLength == Boundary(|es|) && slot.recordCount == |es|
      && slot.lastSequence == LastSequence(es)
      && LengthMatchesCount(slot)
      && DecodeCheckpointSlot(EncodeCheckpointSlot(slot)) == slot
  {
    hide CheckpointMetadataValid, EncodeCheckpointSlot, DecodeCheckpointSlot, ComputeCheckpointCrc;
    var slot := CheckpointFor(startTime, generation, es);
    CheckpointMetadataMeaning(slot);
    CheckpointSlotRoundTrip(slot);
  }

  lemma NextSlotIsCheckpoint(s: Sys)
    requires s.process.Up?
    requires var c := s.process.cursor;
      c.length == Boundary(|s.written|) && c.count == |s.written| && c.last == LastSequence(s.written)
    ensures NextSlot(s) == CheckpointFor(s.startTime, U64(s.process.cursor.generation + 1), s.written)
  {
    hide NewCheckpoint;
  }

  // The slot that the next commit writes
  lemma NextSlotMeaning(s: Sys)
    requires Inv(s) && s.process.Up? && s.process.cursor.phase != Idle
    ensures var next := NextSlot(s);
      && next.recordCount == |s.written|
      && (s.process.cursor.generation < U64_MAX ==>
            Valid(next) && next.generation == s.process.cursor.generation + 1)
      && (s.process.cursor.generation == U64_MAX ==> !Valid(next))
      && DecodeCheckpointSlot(EncodeCheckpointSlot(next)) == next
      && Describable(s, next)
  {
    hide CheckpointMetadataValid, SlotAt, Image, CheckpointFor, Contiguous, SlotsInv, OrderInv, CoverInv, Anchor;
    hide EncodeCheckpointSlot, DecodeCheckpointSlot;
    CheckpointForMeaning(s.startTime, U64(s.process.cursor.generation + 1), s.written);
    NextSlotIsCheckpoint(s);
    assert s.written[..|s.written|] == s.written;
  }

  // Writing any detectable bytes over the inactive slot is safe.
  lemma ReplaceSecond(s: Sys, t: Sys, bs: seq<byte>)
    requires Inv(s) && s.process.Up? && s.process.cursor.phase == LogSynced && |bs| == 52
    requires s.process.cursor.active == 0
    requires |t.disk.journal| == 104 && t.disk == s.disk.(journal := t.disk.journal)
    requires SlotBytes(t.disk.journal, 0) == SlotBytes(s.disk.journal, 0) && SlotBytes(t.disk.journal, 1) == bs
    requires t.startTime == s.startTime && t.written == s.written && t.acked == s.acked
    requires TearDetected(bs, SlotBytes(s.disk.journal, 1), EncodeCheckpointSlot(NextSlot(s)))
    ensures DiskInv(t)
    ensures AtMost(J(t, 1), s.process.cursor.generation, s.process.cursor.committed) || J(t, 1) == NextSlot(s)
  {
    hide CheckpointMetadataValid, Image, CheckpointFor, Contiguous, EncodeCheckpointSlot, DecodeCheckpointSlot;
    hide NextSlot, SlotBytes;
    NextSlotMeaning(s);
    assert J(t, 0) == J(s, 0);
    assert !Valid(J(t, 1)) || J(t, 1) == J(s, 1) || J(t, 1) == NextSlot(s);
  }

  lemma ReplaceFirst(s: Sys, t: Sys, bs: seq<byte>)
    requires Inv(s) && s.process.Up? && s.process.cursor.phase == LogSynced && |bs| == 52
    requires s.process.cursor.active == 1
    requires |t.disk.journal| == 104 && t.disk == s.disk.(journal := t.disk.journal)
    requires SlotBytes(t.disk.journal, 1) == SlotBytes(s.disk.journal, 1) && SlotBytes(t.disk.journal, 0) == bs
    requires t.startTime == s.startTime && t.written == s.written && t.acked == s.acked
    requires TearDetected(bs, SlotBytes(s.disk.journal, 0), EncodeCheckpointSlot(NextSlot(s)))
    ensures DiskInv(t)
    ensures AtMost(J(t, 0), s.process.cursor.generation, s.process.cursor.committed) || J(t, 0) == NextSlot(s)
  {
    hide CheckpointMetadataValid, Image, CheckpointFor, Contiguous, EncodeCheckpointSlot, DecodeCheckpointSlot;
    hide NextSlot, SlotBytes;
    NextSlotMeaning(s);
    assert J(t, 1) == J(s, 1);
    assert !Valid(J(t, 0)) || J(t, 0) == J(s, 0) || J(t, 0) == NextSlot(s);
  }

  lemma TearSlotKeeps(s: Sys, t: Sys, bs: seq<byte>)
    requires Inv(s) && TearSlot(s, t, bs)
    requires TearDetected(bs, SlotBytes(s.disk.journal, Inactive(s.process.cursor.active)),
                          EncodeCheckpointSlot(NextSlot(s)))
    ensures Inv(t)
  {
    hide CheckpointMetadataValid, Image, CheckpointFor, Contiguous, EncodeCheckpointSlot, DecodeCheckpointSlot;
    hide SlotsInv, OrderInv, CoverInv, SlotBytes, SetSlot;
    var i := s.process.cursor.active;
    SetSlotBytes(s.disk.journal, Inactive(i), bs);
    if i == 0 {
      ReplaceSecond(s, t, bs);
    } else {
      ReplaceFirst(s, t, bs);
    }
    assert NextSlot(t) == NextSlot(s);
  }

  lemma WriteSlotKeeps(s: Sys, t: Sys)
    requires Inv(s) && WriteSlot(s, t)
    ensures Inv(t)
  {
    hide CheckpointMetadataValid, Image, CheckpointFor, Contiguous, EncodeCheckpointSlot, DecodeCheckpointSlot;
    hide SlotsInv, OrderInv, CoverInv, SlotBytes, SetSlot;
    var i, bs := s.process.cursor.active, EncodeCheckpointSlot(NextSlot(s));
    SetSlotBytes(s.disk.journal, Inactive(i), bs);
    if i == 0 {
      ReplaceSecond(s, t, bs);
    } else {
      ReplaceFirst(s, t, bs);
    }
    assert NextSlot(t) == NextSlot(s);
  }

  lemma SyncJournalKeeps(s: Sys, t: Sys)
    requires Inv(s) && SyncJournal(s, t)
    ensures Inv(t)
  {
    hide CheckpointMetadataValid, Image, CheckpointFor, Contiguous, EncodeCheckpointSlot, DecodeCheckpointSlot;
    hide SlotBytes, NextSlot;
    NextSlotMeaning(s);
    assert J(s, Inactive(s.process.cursor.active)) == NextSlot(s);
    assert D(t, 0) == J(t, 0) == J(s, 0) && D(t, 1) == J(t, 1) == J(s, 1);
  }

  // Power cuts

  lemma SomeAnchor(s: Sys)
    requires Inv(s)
    ensures Anchor(s, 0) || Anchor(s, 1)
  {
    hide CheckpointMetadataValid, Image, CheckpointFor, Contiguous, LogInv, SlotsInv, OrderInv, CoverInv, Anchor;
  }

  lemma PowerCutKeeps(s: Sys, t: Sys)
    requires Inv(s) && SafeToCut(s) && DetectedCut(s, t) && Bounded(t)
    ensures Inv(t)
  {
    hide CheckpointMetadataValid, Image, CheckpointFor, Contiguous, DecodeCheckpointSlot, SlotBytes, UpInv;
    PowerCutKeepsLog(s, t);
    SomeAnchor(s);
    assert D(t, 0) == J(t, 0) && D(t, 1) == J(t, 1);
    assert Valid(J(t, 0)) ==> J(t, 0) == J(s, 0) || J(t, 0) == D(s, 0);
    assert Valid(J(t, 1)) ==> J(t, 1) == J(s, 1) || J(t, 1) == D(s, 1);
  }

  lemma PowerCutKeepsLog(s: Sys, t: Sys)
    requires LogInv(s) && PowerCut(s, t) && Bounded(t)
    ensures LogInv(t)
  {
    hide Image, Contiguous;
    var m := Min(s.disk.logSynced, Boundary(|s.written|));
    SplitPrefix(s.disk.log, m, s.disk.logSynced - m);
    SplitPrefix(t.disk.log, m, s.disk.logSynced - m);
  }

  // What recovery finds

  // The synchronized records are a valid prefix of the log.
  lemma LogHolds(s: Sys, n: nat)
    requires LogInv(s) && n <= |s.written| && Boundary(n) <= s.disk.logSynced
    ensures ValidPrefix(s.disk.log, n)
    ensures Entries(s.disk.log, n) == s.written[..n]
    ensures s.disk.log[..Boundary(n)] == Image(s.startTime, s.written[..n])
    ensures DecodeFileHeader(s.disk.log[..24]).startTime == s.startTime
  {
    hide Image, ValidPrefix, Entries, DecodeFileHeader;
    var m := Min(s.disk.logSynced, Boundary(|s.written|));
    ImagePrefix(s.startTime, s.written, n);
    SplitPrefix(s.disk.log, Boundary(n), m - Boundary(n));
    SplitPrefix(Image(s.startTime, s.written), Boundary(n), m - Boundary(n));
    ImageScans(s.startTime, s.written[..n], s.disk.log);
  }

  lemma LogHasHeader(s: Sys)
    requires LogInv(s)
    ensures HeaderOk(s.disk.log) && DecodeFileHeader(s.disk.log[..24]).startTime == s.startTime
  {
    hide Image, Entries, DecodeFileHeader, FileHeaderOk;
    LogHolds(s, 0);
  }

  // A valid slot lies within the valid prefix that the scan finds.
  lemma SlotWithinScan(s: Sys, slot: CheckpointSlot)
    requires LogInv(s) && Describable(s, slot) && Valid(slot)
    ensures HeaderOk(s.disk.log) && slot.recordCount <= ValidCount(s.disk.log)
  {
    hide Image, Entries, DecodeFileHeader, FileHeaderOk, CheckpointMetadataValid, RecordValid;
    LogHasHeader(s);
    LogHolds(s, slot.recordCount);
    LongestPrefix(s.disk.log, slot.recordCount);
  }

  lemma TrimTailKeeps(s: Sys, t: Sys)
    requires Inv(s) && TrimTail(s, t)
    ensures Inv(t)
  {
    hide CheckpointMetadataValid, Image, CheckpointFor, Contiguous, DecodeCheckpointSlot, SlotBytes, HeaderOk;
    hide ValidCount, Healthy, Trim;
    var k := ValidCount(s.disk.log);
    LogHasHeader(s);
    TrimKeepsValidPrefix(s.disk.log);
    assert t.disk.log == s.disk.log[..Boundary(k)];
    TrimmedSlot(s, t, J(s, 0));
    TrimmedSlot(s, t, J(s, 1));
    TrimmedSlot(s, t, D(s, 0));
    TrimmedSlot(s, t, D(s, 1));
    var m := Min(t.disk.logSynced, Boundary(|t.written|));
    SplitPrefix(s.disk.log, m, Min(s.disk.logSynced, Boundary(|s.written|)) - m);
    SplitPrefix(Image(s.startTime, s.written), m, Min(s.disk.logSynced, Boundary(|s.written|)) - m);
  }

  lemma TrimmedSlot(s: Sys, t: Sys, slot: CheckpointSlot)
    requires LogInv(s) && Describable(s, slot)
    requires t.startTime == s.startTime && t.written == s.written
    requires t.disk.logSynced == Min(s.disk.logSynced, Boundary(ValidCount(s.disk.log)))
    ensures Describable(t, slot)
  {
    hide CheckpointMetadataValid, CheckpointFor, ValidCount;
    if Valid(slot) {
      SlotWithinScan(s, slot);
    }
  }

  // A slot can be selected exactly when it passes the slot check.
  lemma SlotConsistent(s: Sys, kept: seq<byte>, k: nat, scanned: RecoveryReport, slot: CheckpointSlot)
    requires LogInv(s) && Describable(s, slot)
    requires HeaderOk(s.disk.log) && k == ValidCount(s.disk.log)
    requires Healthy(kept, k) && Boundary(k) <= |s.disk.log| && kept == s.disk.log[..Boundary(k)]
    requires Entries(kept, k) == Entries(s.disk.log, k)
    requires scanned.validBytes == |kept|
    ensures Consistent(kept, s.startTime, scanned, slot) <==> Valid(slot)
  {
    hide CheckpointMetadataValid, Image, DecodeFileHeader, FileHeaderOk, RecordValid, LastSequenceMatches;
    hide ValidCount, Entries, Contiguous;
    if Valid(slot) {
      var n := slot.recordCount;
      SlotWithinScan(s, slot);
      LogHolds(s, n);
      CheckpointForMeaning(s.startTime, slot.generation, s.written[..n]);
      ConsistentMeaning(kept, k, slot);
      SamePrefixEntries(kept, s.disk.log, k, n);
    }
  }

  lemma SamePrefixEntries(a: seq<byte>, b: seq<byte>, k: nat, n: nat)
    requires n <= k && Boundary(k) <= |a| && Boundary(k) <= |b|
    requires Entries(a, k) == Entries(b, k)
    ensures Entries(a, n) == Entries(b, n)
  {
    hide EntryOf, RecordAt;
    forall i | 0 <= i < n
      ensures Entries(a, n)[i] == Entries(b, n)[i]
    {
      assert Entries(a, k)[i] == Entries(b, k)[i];
    }
  }

  // Slot i was selected: it is the newest valid slot.
  ghost predicate Newest(s: Sys, i: nat)
    requires i < 2 && |s.disk.journal| == 104
  {
    && Valid(J(s, i))
    && (Valid(J(s, 1 - i)) ==> J(s, 1 - i).generation < J(s, i).generation)
  }

  lemma SelectsNewest(s: Sys, kept: seq<byte>, scanned: RecoveryReport, i: nat)
    requires |s.disk.journal| == 104 && i < 2 && Newest(s, i)
    requires Consistent(kept, s.startTime, scanned, J(s, 0)) <==> Valid(J(s, 0))
    requires Consistent(kept, s.startTime, scanned, J(s, 1)) <==> Valid(J(s, 1))
    ensures SelectCheckpoint(kept, s.startTime, scanned, s.disk.journal) == Some(J(s, i))
  {
    hide CheckpointMetadataValid, Consistent, SlotAt;
  }

  // The newest valid slot is an anchor.
  lemma NewestExists(s: Sys) returns (i: nat)
    requires Inv(s)
    ensures i < 2 && Newest(s, i) && Anchor(s, i)
  {
    hide CheckpointMetadataValid, SlotAt, LogInv, SlotsInv, CoverInv, UpInv;
    SomeAnchor(s);
    i := if Valid(J(s, 1)) && (Valid(J(s, 0)) ==> J(s, 0).generation < J(s, 1).generation) then 1 else 0;
  }

  // Recovery is healthy and leaves exactly the first n entries, the last
  // acknowledged one among them.
  ghost predicate RecoversTo(s: Sys, generation: u64, n: nat) {
    var (report, files) := RecoverStartup(Files(s));
    && |s.acked| <= n <= |s.written|
    && report.healthy
    && report.validRecords == n
    && report.lastSequence == LastSequence(s.written[..n])
    && report.checkpointGeneration == generation
    && files == Disk(Some(Image(s.startTime, s.written[..n])), Some(s.disk.journal))
  }

  // From every state that the invariant admits, recovery is healthy, keeps what
  // was acknowledged, invents nothing, and leaves the records of the newest
  // valid slot.
  lemma RecoveryOutcome(s: Sys) returns (i: nat)
    requires Inv(s)
    ensures i < 2 && |s.disk.journal| == |s.disk.durable| == 104
    ensures Newest(s, i) && Anchor(s, i)
    ensures RecoversTo(s, J(s, i).generation, J(s, i).recordCount)
  {
    hide CheckpointMetadataValid, Image, CheckpointFor, DecodeFileHeader, FileHeaderOk, RecordValid, ValidCount;
    hide Entries, SelectCheckpoint, RecoverCheckpoint, ScanReport, Trim, ScanHealthyPrefix, Consistent;
    hide OrderInv, CoverInv, UpInv;
    hide Contiguous, SlotAt;
    i := NewestExists(s);
    var log, k := s.disk.log, ValidCount(s.disk.log);
    LogHasHeader(s);
    TrimKeepsValidPrefix(log);
    var kept, scanned := log[..Boundary(k)], ScanHealthyPrefix(Some(log));
    TrimmedScan(log, k);
    ScanHealthy(kept, k);
    SlotConsistent(s, kept, k, scanned, J(s, 0));
    SlotConsistent(s, kept, k, scanned, J(s, 1));
    SelectsNewest(s, kept, scanned, i);
    assert kept[..24] == log[..24];
    RecoverCheckpointMeaning(kept, k, s.disk.journal, scanned);
    var n := J(s, i).recordCount;
    LogHolds(s, n);
    SamePrefixEntries(kept, log, k, n);
    assert kept[..Boundary(n)] == log[..Boundary(n)];
  }

  lemma TrimmedScan(log: seq<byte>, k: nat)
    requires HeaderOk(log) && k == ValidCount(log) && Boundary(k) <= |log|
    requires Trim(Some(log)) == Some(log[..Boundary(k)]) && Healthy(log[..Boundary(k)], k)
    ensures ScanHealthyPrefix(Some(log)).(truncated := false) == ScanReport(log[..Boundary(k)])
  {
    hide HeaderOk, RecordValid, ScanReport, Trim, ValidCount;
    TrimIdempotent(Some(log));
    HealthyIsTrimmed(log[..Boundary(k)], k);
  }

  lemma RecoverKeeps(s: Sys, t: Sys)
    requires Inv(s) && Recover(s, t) && Bounded(t)
    ensures Inv(t) && t.process == Recovered
    ensures s.acked <= t.written <= s.written
  {
    hide CheckpointMetadataValid, Image, CheckpointFor, DecodeCheckpointSlot, SlotBytes, Entries;
    hide RecoverStartup, EncodeEntries;
    var i := RecoveryOutcome(s);
    var n := J(s, i).recordCount;
    RecoveredEntries(s, n);
    assert t.written == s.written[..n];
    assert t.disk.log == Image(s.startTime, t.written);
    assert t.disk.logSynced == Boundary(n);
    SplitPrefix(t.disk.log, Boundary(n), 0);
    KeptSlot(s, t, J(s, 0));
    KeptSlot(s, t, J(s, 1));
    KeptSlot(s, t, D(s, 0));
    KeptSlot(s, t, D(s, 1));
  }

  lemma RecoveredEntries(s: Sys, n: nat)
    requires Contiguous(s.written) && n <= |s.written|
    ensures Entries(Image(s.startTime, s.written[..n]), n) == s.written[..n]
  {
    hide Image, Entries;
    var image := Image(s.startTime, s.written[..n]);
    assert image[..Boundary(n)] == image;
    ImageScans(s.startTime, s.written[..n], image);
  }

  lemma KeptSlot(s: Sys, t: Sys, slot: CheckpointSlot)
    requires Describable(s, slot) && t.startTime == s.startTime
    requires t.written <= s.written && t.disk.logSynced == Boundary(|t.written|)
    requires Valid(slot) ==> slot.recordCount <= |t.written|
    ensures Describable(t, slot)
  {
    hide CheckpointMetadataValid, CheckpointFor;
    if Valid(slot) {
      assert t.written[..slot.recordCount] == s.written[..slot.recordCount];
    }
  }

  // Hand-off: opening after recovery selects the slot that recovery selected
  // and loads its generation, count and last sequence.
  ghost predicate HandedOff(s: Sys, i: nat)
    requires i < 2 && |s.disk.journal| == 104
  {
    && J(s, i).recordCount == |s.written|
    && LoadCheckpoint(s.disk.log, s.disk.journal) ==
         Some(Cursor(|s.disk.log|, J(s, i).generation, i, |s.written|, LastSequence(s.written),
                     |s.written|, Idle, false))
  }

  lemma OpenAfterRecovery(s: Sys) returns (i: nat)
    requires Inv(s) && s.process == Recovered
    ensures i < 2 && |s.disk.journal| == |s.disk.durable| == 104
    ensures Anchor(s, i) && HandedOff(s, i)
  {
    hide CheckpointMetadataValid, Image, CheckpointFor, SlotAt, FileHeaderOk, DecodeFileHeader, Contiguous, CoverInv;
    hide EncodeEntries, RecordValid;
    i := if Anchor(s, 0) && J(s, 0).recordCount == |s.written| then 0 else 1;
    LogHasHeader(s);
    OpenHeader(s.disk.log, |s.written|);
    SlotDescribes(s, J(s, 0));
    SlotDescribes(s, J(s, 1));
  }

  // A writer that has committed everything it wrote, and left nothing behind it in
  // the log, can be opened again without recovery: open() loads the very fields the
  // writer had.
  lemma OpenAfterClose(s: Sys)
    requires Inv(s) && s.process.Up?
    requires s.process.cursor.phase == Idle && !s.process.cursor.failed
    requires s.process.cursor.committed == s.process.cursor.count
    requires s.process.cursor.length == |s.disk.log|
    ensures LoadCheckpoint(s.disk.log, s.disk.journal) == Some(s.process.cursor)
    ensures s.process.cursor.count == |s.written| && s.process.cursor.last == LastSequence(s.written)
  {
    hide CheckpointMetadataValid, Image, CheckpointFor, SlotAt, LoadCheckpoint, Contiguous;
    var recovered := s.(process := Recovered);
    assert s.disk.log[..|s.disk.log|] == s.disk.log;
    assert Inv(recovered);
    var i := OpenAfterRecovery(recovered);
    assert i == s.process.cursor.active;
  }

  lemma OpenHeader(log: seq<byte>, n: nat)
    requires HeaderOk(log) && |log| == Boundary(n)
    ensures OpenHeaderOk(log)
  {
    hide ComputeFileHeaderCrc, DecodeFileHeader;
  }

  lemma SlotDescribes(s: Sys, slot: CheckpointSlot)
    requires LogInv(s) && Describable(s, slot) && |s.disk.log| == Boundary(|s.written|)
    ensures Describes(slot, s.startTime, |s.disk.log|) <==> Valid(slot) && slot.recordCount == |s.written|
    ensures Valid(slot) && slot.recordCount == |s.written| ==> slot.lastSequence == LastSequence(s.written)
  {
    hide CheckpointMetadataValid, Image, CheckpointFor;
    if Valid(slot) {
      CheckpointForMeaning(s.startTime, slot.generation, s.written[..slot.recordCount]);
      if slot.recordCount == |s.written| {
        assert s.written[..slot.recordCount] == s.written;
      }
    }
  }

  lemma OpenKeeps(s: Sys, t: Sys)
    requires Inv(s) && Open(s, t)
    ensures Inv(t) && t.process.Up?
  {
    hide CheckpointMetadataValid, Image, CheckpointFor, SlotAt, LoadCheckpoint, Contiguous;
    var i := OpenAfterRecovery(s);
    SplitPrefix(s.disk.log, |s.disk.log|, 0);
  }

  // The opened writer accepts a batch that starts right after the recovered log.
  lemma NextBatchAccepted(s: Sys, t: Sys, batch: seq<Entry>)
    requires Inv(s) && Open(s, t)
    requires |batch| > 0 && Successive(batch)
    requires batch[0].sequence == (LastSequence(s.written) + 1) % TWO64
    ensures t.process.Up? && Acceptable(t.process.cursor, batch)
  {
    hide Inv, Anchor, J, LoadCheckpoint, Successive;
    var i := OpenAfterRecovery(s);
  }

  // Runs

  lemma InitHolds(s: Sys)
    requires Init(s)
    ensures Inv(s)
  {
    hide CheckpointMetadataValid, Image, CheckpointFor, EncodeCheckpointSlot, DecodeCheckpointSlot, EmptySlot;
    hide Contiguous;
    var slot := CheckpointFor(s.startTime, 1, s.written);
    CheckpointForMeaning(s.startTime, 1, s.written);
    assert SlotBytes(s.disk.journal, 0) == EncodeCheckpointSlot(slot);
    assert SlotBytes(s.disk.journal, 1) == EmptySlot();
    EmptySlotInvalid();
    assert s.written[..|s.written|] == s.written;
    SplitPrefix(s.disk.log, |s.disk.log|, 0);
  }

  lemma StepKeeps(s: Sys, t: Sys)
    requires Inv(s) && Step(s, t)
    ensures Inv(t)
  {
    hide Inv, WriterStep, ProcessCrash, TrimTail, Recover, Open, DetectedCut, SafeToCut, Bounded;
    if WriterStep(s, t) {
      WriterStepKeeps(s, t);
    } else if TrimTail(s, t) {
      TrimTailKeeps(s, t);
    } else if Recover(s, t) {
      RecoverKeeps(s, t);
    } else if Open(s, t) {
      OpenKeeps(s, t);
    } else if ProcessCrash(s, t) {
      ProcessCrashKeeps(s, t);
    } else {
      PowerCutKeeps(s, t);
    }
  }

  lemma WriterStepKeeps(s: Sys, t: Sys)
    requires Inv(s) && WriterStep(s, t) && Bounded(t)
    ensures Inv(t)
  {
    hide Inv, WriteLog, Accepts, SyncLog, DetectedTear, WriteSlot, SyncJournal, Fail, Bounded;
    if WriteLog(s, t) {
      WriteLogKeeps(s, t);
    } else if Accepts(s, t) {
      AcceptsKeeps(s, t);
    } else if SyncLog(s, t) {
      SyncLogKeeps(s, t);
    } else if WriteSlot(s, t) {
      WriteSlotKeeps(s, t);
    } else if SyncJournal(s, t) {
      SyncJournalKeeps(s, t);
    } else if Fail(s, t) {
      FailKeeps(s, t);
    } else {
      DetectedTearKeeps(s, t);
    }
  }

  lemma AcceptsKeeps(s: Sys, t: Sys)
    requires Inv(s) && Accepts(s, t) && Bounded(t)
    ensures Inv(t)
  {
    hide Inv, Accept, Bounded;
    var batch :| Accept(s, t, batch);
    AcceptKeeps(s, t, batch);
  }

  lemma DetectedTearKeeps(s: Sys, t: Sys)
    requires Inv(s) && DetectedTear(s, t)
    ensures Inv(t)
  {
    hide Inv, TearDetected, SlotBytes, NextSlot;
    var bs :| TearSlot(s, t, bs)
      && TearDetected(bs, SlotBytes(s.disk.journal, Inactive(s.process.cursor.active)),
                      EncodeCheckpointSlot(NextSlot(s)));
    TearSlotKeeps(s, t, bs);
  }

  // A run of the system: any number of sessions, crashes and recoveries
  ghost predicate IsRun(run: seq<Sys>) {
    && |run| > 0
    && Init(run[0])
    && forall i :: 0 < i < |run| ==> Step(run[i - 1], run[i])
  }

  lemma {:induction false} RunKeeps(run: seq<Sys>, n: nat)
    requires IsRun(run) && n < |run|
    ensures Inv(run[n])
  {
    hide Inv, Init, Step;
    if n == 0 {
      InitHolds(run[0]);
    } else {
      RunKeeps(run, n - 1);
      StepKeeps(run[n - 1], run[n]);
    }
  }

  // Main theorem.  At every point of every run, were the process to stop there,
  // recovery would be healthy, and would keep a prefix of what was written that
  // includes everything acknowledged.
  lemma CrashSafe(run: seq<Sys>, n: nat) returns (generation: u64, kept: nat)
    requires IsRun(run) && n < |run|
    ensures run[n].acked <= run[n].written
    ensures RecoversTo(run[n], generation, kept)
    ensures run[n].process != Rejected
  {
    hide Step, Init, RecoversTo, SlotsInv, OrderInv, CoverInv, Image, Contiguous;
    RunKeeps(run, n);
    var i := RecoveryOutcome(run[n]);
    generation, kept := J(run[n], i).generation, J(run[n], i).recordCount;
  }
}
