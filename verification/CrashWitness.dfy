/**
 A run in which a process crash is followed by a power cut that loses both
 checkpoints.  Recovery after the process crash selects a slot that is still only
 cached, so the next commit overwrites the last slot that was on the disk.
 */
module CrashWitness {
  import opened Basics
  import opened Bytes
  import opened LogFormat
  import opened LogScanner
  import opened Recovery
  import opened LogImage
  import opened CrashProtocol
  import opened CrashSafety
  import opened CrashLimits

  // An open writer with nothing pending
  ghost predicate Quiet(s: Sys) {
    && s.process.Up?
    && var c := s.process.cursor;
    && c.phase == Idle && !c.failed && c.committed == c.count && c.generation < U64_MAX
  }

  // One entry e is appended, synchronized and its checkpoint written: up to, but
  // without, the synchronization of the journal.
  ghost predicate WrittenNotSynced(s: Sys, t: Sys, e: Entry)
    requires Quiet(s)
  {
    && t.process.Up?
    && t.process.cursor.phase == SlotWritten
    && t.process.cursor.active == s.process.cursor.active < 2
    && t.process.cursor.generation == s.process.cursor.generation
    && t.startTime == s.startTime && t.acked == s.acked && t.written == s.written + [e]
    && t.disk.durable == s.disk.durable
    && |t.disk.journal| == |s.disk.journal| == 104
    && SlotBytes(t.disk.journal, s.process.cursor.active) == SlotBytes(s.disk.journal, s.process.cursor.active)
    && SlotBytes(t.disk.journal, Inactive(s.process.cursor.active)) == EncodeCheckpointSlot(NextSlot(t))
  }

  ghost predicate Steps(run: seq<Sys>) {
    forall i :: 0 < i < |run| ==> Step(run[i - 1], run[i])
  }

  ghost predicate Leads(s: Sys, run: seq<Sys>, t: Sys) {
    |run| > 0 && run[0] == s && run[|run| - 1] == t && Steps(run)
  }

  lemma LeadsOn(s: Sys, run: seq<Sys>, t: Sys, more: seq<Sys>, u: Sys)
    requires Leads(s, run, t) && Leads(t, more, u)
    ensures Leads(s, run + more[1..], u)
  {
    hide Step;
    var all := run + more[1..];
    forall i | 0 < i < |all|
      ensures Step(all[i - 1], all[i])
    {
      if i >= |run| {
        assert all[i] == more[i - |run| + 1];
        assert all[i - 1] == more[i - |run|];
      }
    }
  }

  lemma OneStep(s: Sys, t: Sys)
    requires Step(s, t)
    ensures Leads(s, [s, t], t)
  {
    hide Step;
  }

  lemma WriteUpToSlot(s: Sys, e: Entry) returns (run: seq<Sys>, t: Sys)
    requires Inv(s) && Quiet(s)
    requires s.process.cursor.count > 0 ==> e.sequence == (s.process.cursor.last + 1) % TWO64
    requires FitsSequence(s.written + [e]) && s.process.cursor.length + 84 < 0x8000_0000_0000_0000
    ensures Leads(s, run, t) && Inv(t) && WrittenNotSynced(s, t, e)
  {
    hide CheckpointMetadataValid, SlotAt, Image, CheckpointFor, SlotsInv, OrderInv, CoverInv, Anchor;
    hide SlotBytes, SetSlot, EncodeCheckpointSlot, Inv, Step, EncodeEntries, Steps;
    QuietFacts(s);
    var c := s.process.cursor;
    var log := s.disk.log[..c.length] + EncodeEntries([e]);
    var s1 := s.(disk := s.disk.(log := log, logSynced := Min(s.disk.logSynced, c.length)));
    StepWrite(s, s1);
    var s2 := s1.(written := s.written + [e], process := Up(c.(
        length := c.length + 84, count := c.count + 1, last := LastSequence([e]))));
    StepAccept(s1, s2, [e]);
    var s3 := s2.(disk := s2.disk.(logSynced := |log|), process := Up(s2.process.cursor.(phase := LogSynced)));
    StepSync(s2, s3);
    t := s3.(disk := s3.disk.(journal := SetSlot(s3.disk.journal, Inactive(c.active),
                                                 EncodeCheckpointSlot(NextSlot(s3)))),
             process := Up(s3.process.cursor.(phase := SlotWritten)));
    StepSlot(s3, t);
    SetSlotBytes(s3.disk.journal, Inactive(c.active), EncodeCheckpointSlot(NextSlot(s3)));
    SetSlotOther(s3.disk.journal, c.active, EncodeCheckpointSlot(NextSlot(s3)));
    assert NextSlot(t) == NextSlot(s3);
    LeadsOn(s, [s, s1], s1, [s1, s2], s2);
    LeadsOn(s, [s, s1] + [s1, s2][1..], s2, [s2, s3], s3);
    LeadsOn(s, [s, s1] + [s1, s2][1..] + [s2, s3][1..], s3, [s3, t], t);
    run := [s, s1] + [s1, s2][1..] + [s2, s3][1..] + [s3, t][1..];
  }

  lemma QuietFacts(s: Sys)
    requires Inv(s) && s.process.Up?
    ensures var c := s.process.cursor;
      c.length == Boundary(|s.written|) <= |s.disk.log| && c.count == |s.written| && c.active < 2
      && |s.disk.journal| == |s.disk.durable| == 104
  {
    hide SlotsInv, OrderInv, CoverInv, LogInv, Anchor, Image, SlotAt, CheckpointMetadataValid;
  }

  lemma StepWrite(s: Sys, t: Sys)
    requires Inv(s) && WriteLog(s, t) && Bounded(t)
    ensures Leads(s, [s, t], t) && Inv(t)
  {
    hide Inv, WriteLog, Bounded;
    StepKeeps(s, t);
    OneStep(s, t);
  }

  lemma StepAccept(s: Sys, t: Sys, batch: seq<Entry>)
    requires Inv(s) && Accept(s, t, batch) && Bounded(t)
    ensures Leads(s, [s, t], t) && Inv(t)
  {
    hide Inv, Accept, Bounded;
    assert Accepts(s, t);
    StepKeeps(s, t);
    OneStep(s, t);
  }

  lemma StepSync(s: Sys, t: Sys)
    requires Inv(s) && SyncLog(s, t) && Bounded(t)
    ensures Leads(s, [s, t], t) && Inv(t)
  {
    hide Inv, SyncLog, Bounded;
    StepKeeps(s, t);
    OneStep(s, t);
  }

  lemma StepSlot(s: Sys, t: Sys)
    requires Inv(s) && WriteSlot(s, t) && Bounded(t)
    ensures Leads(s, [s, t], t) && Inv(t)
  {
    hide Inv, WriteSlot, Bounded;
    StepKeeps(s, t);
    OneStep(s, t);
  }

  // Recovery from a state with two valid slots in a known order, then open

  lemma Restart(s: Sys) returns (run: seq<Sys>, t: Sys, i: nat)
    requires Inv(s)
    ensures Leads(s, run, t) && Inv(t) && t.process.Up?
    ensures i < 2 && |s.disk.journal| == 104 && Newest(s, i) && J(s, i).recordCount <= |s.written|
    ensures t.disk.journal == s.disk.journal && t.disk.durable == s.disk.durable
    ensures t.startTime == s.startTime && t.acked == s.acked
    ensures t.written == s.written[..J(s, i).recordCount]
    ensures t.process.cursor.active == i && t.process.cursor.generation == J(s, i).generation
    ensures t.process.cursor.phase == Idle && !t.process.cursor.failed
    ensures t.process.cursor.committed == t.process.cursor.count
  {
    hide Inv, Step, Steps, SlotAt, CheckpointMetadataValid, RecoverStartup, LoadCheckpoint, Image, Entries;
    hide Bounded, Anchor, Newest;
    var down := s.(process := Down);
    ProcessCrashKeeps(s, down);
    StepCrash(s, down);
    i := RecoveryOutcome(down);
    NewestIsDiskOnly(s, down, i);
    var rec := RecoverTo(down, i);
    var k := OpenAfterRecovery(rec);
    NewestUnique(rec, i, k);
    t := rec.(process := Up(LoadCheckpoint(rec.disk.log, rec.disk.journal).value));
    StepOpen(rec, t);
    LeadsOn(s, [s, down], down, [down, rec], rec);
    LeadsOn(s, [s, down] + [down, rec][1..], rec, [rec, t], t);
    run := [s, down] + [down, rec][1..] + [rec, t][1..];
  }

  lemma NewestIsDiskOnly(s: Sys, t: Sys, i: nat)
    requires i < 2 && |s.disk.journal| == 104 && t.disk == s.disk && Newest(t, i)
    ensures Newest(s, i) && J(s, i) == J(t, i)
  {
  }

  // The slot with as many records as were recovered is the one selected.
  lemma NewestUnique(s: Sys, i: nat, k: nat)
    requires Inv(s) && i < 2 && k < 2 && |s.disk.journal| == |s.disk.durable| == 104
    requires Valid(J(s, i)) && J(s, i).recordCount == |s.written|
    requires Anchor(s, k) && J(s, k).recordCount == |s.written|
    ensures k == i
  {
    hide CheckpointMetadataValid, SlotAt, LogInv, SlotsInv, CoverInv, UpInv;
  }

  lemma StepCrash(s: Sys, t: Sys)
    requires Inv(s) && ProcessCrash(s, t)
    ensures Leads(s, [s, t], t)
  {
    hide CheckpointMetadataValid, SlotAt, SlotsInv, OrderInv, CoverInv, UpInv, WriterStep, RecoveryStep, DetectedCut;
    OneStep(s, t);
  }

  lemma StepOpen(s: Sys, t: Sys)
    requires Inv(s) && Open(s, t)
    ensures Leads(s, [s, t], t) && Inv(t)
  {
    hide Inv, Open, Bounded;
    OpenKeeps(s, t);
    BoundedOf(t);
    OneStep(s, t);
  }

  lemma BoundedOf(s: Sys)
    requires Inv(s)
    ensures Bounded(s)
  {
    hide SlotsInv, OrderInv, CoverInv, UpInv, Bounded;
  }

  lemma RecoverTo(s: Sys, i: nat) returns (t: Sys)
    requires Inv(s) && s.process == Down
    requires i < 2 && |s.disk.journal| == 104 && Valid(J(s, i))
    requires RecoversTo(s, J(s, i).generation, J(s, i).recordCount)
    ensures Leads(s, [s, t], t) && Inv(t) && t.process == Recovered
    ensures J(s, i).recordCount <= |s.written|
    ensures t.disk.journal == s.disk.journal && t.disk.durable == s.disk.durable
    ensures t.startTime == s.startTime && t.acked == s.acked
    ensures t.written == s.written[..J(s, i).recordCount]
  {
    hide Inv, Step, Steps, SlotAt, CheckpointMetadataValid, RecoverStartup, Image, Entries, Contiguous;
    var n := J(s, i).recordCount;
    var log := Image(s.startTime, s.written[..n]);
    t := s.(disk := s.disk.(log := log, logSynced := Min(s.disk.logSynced, |log|)),
            process := Recovered, written := s.written[..n]);
    ContiguousOf(s);
    RecoveredEntries(s, n);
    BoundedOf(s);
    LogLongEnough(s, J(s, i));
    assert Recover(s, t);
    RecoverKeeps(s, t);
    RecoverIsStep(s, t);
    OneStep(s, t);
  }

  lemma RecoverIsStep(s: Sys, t: Sys)
    requires Recover(s, t) && Bounded(t)
    ensures Step(s, t)
  {
    hide Recover, Bounded, WriterStep, TrimTail, Open, ProcessCrash, DetectedCut, SafeToCut;
  }

  lemma ContiguousOf(s: Sys)
    requires Inv(s)
    ensures Contiguous(s.written)
  {
    hide SlotsInv, OrderInv, CoverInv, UpInv, Contiguous;
  }

  lemma LogLongEnough(s: Sys, slot: CheckpointSlot)
    requires Inv(s) && Valid(slot) && |s.disk.journal| == 104
    requires slot == J(s, 0) || slot == J(s, 1)
    ensures Boundary(slot.recordCount) <= |s.disk.log|
  {
    hide OrderInv, CoverInv, UpInv, CheckpointMetadataValid, SlotAt;
  }

  // A writer opened for the first time
  function Fresh(startTime: u64): Sys {
    var journal := EncodeCheckpointSlot(CheckpointFor(startTime, 1, [])) + EmptySlot();
    Sys(Storage(Image(startTime, []), 24, journal, journal), startTime,
        Up(Cursor(24, 1, 0, 0, 0, 0, Idle, false)), [], [])
  }

  lemma FreshIsInit(startTime: u64)
    ensures Init(Fresh(startTime)) && Inv(Fresh(startTime)) && Quiet(Fresh(startTime))
    ensures SlotBytes(Fresh(startTime).disk.journal, 0) == EncodeCheckpointSlot(CheckpointFor(startTime, 1, []))
    ensures SlotBytes(Fresh(startTime).disk.journal, 1) == EmptySlot()
  {
    hide Inv, EncodeCheckpointSlot, CheckpointFor, Image, EmptySlot;
    var s := Fresh(startTime);
    assert SlotBytes(s.disk.journal, 0) == EncodeCheckpointSlot(CheckpointFor(startTime, 1, []));
    assert SlotBytes(s.disk.journal, 1) == EmptySlot();
    InitHolds(s);
  }

  // A process crash after the second checkpoint was written but not
  // synchronized, a restart, and one more commit up to the same point: now a
  // power cut can lose both slots.
  lemma MixedCrashesLoseBothSlots(startTime: u64, r: FlightRecord) returns (run: seq<Sys>, t: Sys)
    ensures IsRun(run)
    ensures DetectedCut(run[|run| - 1], t) && Bounded(t)
    ensures !RecoverStartup(Files(t)).0.healthy
  {
    hide Init, Inv, Step, CheckpointMetadataValid, SlotBytes, DecodeCheckpointSlot, EncodeCheckpointSlot;
    hide CheckpointFor, EmptySlot;
    hide RecoverStartup, DetectedCut, Bounded, Quiet, NextSlot, Image;
    var e1, e2 := Entry(1, r), Entry(2, r);
    var s0 := Fresh(startTime);
    FreshIsInit(startTime);
    var run1, s1 := FirstCheckpoint(startTime, e1);
    var run2, s2, i := Restart(s1);
    SecondIsNewest(startTime, s1, e1, i);
    var run3, s3 := SecondCheckpoint(s2, e2, e1);
    LeadsOn(s0, run1, s1, run2, s2);
    LeadsOn(s0, run1 + run2[1..], s2, run3, s3);
    run := run1 + run2[1..] + run3[1..];
    BothSlotsCached(startTime, s2, s3, e1, e2);
    UnsafeCut(s3);
    t := WorstCut(s3);
  }

  lemma NextSlotOf(s: Sys)
    requires Inv(s) && s.process.Up?
    ensures NextSlot(s) == CheckpointFor(s.startTime, U64(s.process.cursor.generation + 1), s.written)
  {
    hide LogInv, SlotsInv, OrderInv, CoverInv, Anchor, SlotAt, CheckpointMetadataValid, Image, NextSlot, CheckpointFor;
    NextSlotIsCheckpoint(s);
  }

  lemma FirstCheckpoint(startTime: u64, e: Entry) returns (run: seq<Sys>, t: Sys)
    requires e.sequence == 1
    ensures Leads(Fresh(startTime), run, t) && Inv(t)
    ensures t.process.Up? && t.written == [e] && t.startTime == startTime
    ensures t.process.cursor.generation == 1
    ensures |t.disk.journal| == 104 && t.disk.durable == Fresh(startTime).disk.journal
    ensures SlotBytes(t.disk.journal, 0) == EncodeCheckpointSlot(CheckpointFor(startTime, 1, []))
    ensures SlotBytes(t.disk.journal, 1) == EncodeCheckpointSlot(CheckpointFor(startTime, 2, [e]))
  {
    hide Inv, Steps, SlotBytes, EncodeCheckpointSlot, CheckpointFor, EmptySlot, Image;
    FreshIsInit(startTime);
    assert [] + [e] == [e];
    run, t := WriteUpToSlot(Fresh(startTime), e);
    NextSlotOf(t);
  }

  lemma SecondIsNewest(startTime: u64, s: Sys, e: Entry, i: nat)
    requires |s.disk.journal| == 104 && i < 2 && Newest(s, i)
    requires SlotBytes(s.disk.journal, 0) == EncodeCheckpointSlot(CheckpointFor(startTime, 1, []))
    requires SlotBytes(s.disk.journal, 1) == EncodeCheckpointSlot(CheckpointFor(startTime, 2, [e]))
    ensures i == 1 && J(s, 1).recordCount == 1 && J(s, 1).generation == 2
  {
    hide CheckpointMetadataValid, SlotBytes, DecodeCheckpointSlot, EncodeCheckpointSlot, CheckpointFor;
    CheckpointForMeaning(startTime, 1, []);
    CheckpointForMeaning(startTime, 2, [e]);
  }

  lemma SecondCheckpoint(s: Sys, e2: Entry, e1: Entry) returns (run: seq<Sys>, t: Sys)
    requires Inv(s) && s.process.Up? && s.written == [e1]
    requires s.process.cursor.phase == Idle && !s.process.cursor.failed
    requires s.process.cursor.committed == s.process.cursor.count
    requires s.process.cursor.generation == 2 && s.process.cursor.active == 1
    requires e1.sequence == 1 && e2.sequence == 2
    ensures Leads(s, run, t) && Inv(t)
    ensures t.startTime == s.startTime && t.disk.durable == s.disk.durable
    ensures |t.disk.journal| == |s.disk.journal| == 104
    ensures SlotBytes(t.disk.journal, 1) == SlotBytes(s.disk.journal, 1)
    ensures SlotBytes(t.disk.journal, 0) == EncodeCheckpointSlot(CheckpointFor(s.startTime, 3, [e1, e2]))
  {
    hide Steps, SlotBytes, EncodeCheckpointSlot, CheckpointFor, Image, LogInv, SlotsInv, OrderInv, CoverInv;
    hide Anchor, SlotAt, CheckpointMetadataValid;
    assert [e1] + [e2] == [e1, e2];
    run, t := WriteUpToSlot(s, e2);
    NextSlotOf(t);
  }

  lemma BothSlotsCached(startTime: u64, s: Sys, t: Sys, e1: Entry, e2: Entry)
    requires |t.disk.journal| == |t.disk.durable| == |s.disk.journal| == 104
    requires t.disk.durable == Fresh(startTime).disk.journal
    requires SlotBytes(t.disk.journal, 0) == EncodeCheckpointSlot(CheckpointFor(startTime, 3, [e1, e2]))
    requires SlotBytes(t.disk.journal, 1) == SlotBytes(s.disk.journal, 1)
    requires SlotBytes(s.disk.journal, 1) == EncodeCheckpointSlot(CheckpointFor(startTime, 2, [e1]))
    ensures !SafeToCut(t)
  {
    hide CheckpointMetadataValid, SlotBytes, DecodeCheckpointSlot, EncodeCheckpointSlot, CheckpointFor, EmptySlot;
    FreshIsInit(startTime);
    CheckpointForMeaning(startTime, 1, []);
    CheckpointForMeaning(startTime, 2, [e1]);
    CheckpointForMeaning(startTime, 3, [e1, e2]);
    EmptySlotInvalid();
  }
}
