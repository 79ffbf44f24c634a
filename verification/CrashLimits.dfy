/**
 Where the crash guarantee comes from and where it ends: the active slot is never
 written, power cuts alone are always survived, and a process crash followed by
 a power cut is survived exactly while some valid slot is on the disk.
 */
module CrashLimits {
  import opened Basics
  import opened Bytes
  import opened LogFormat
  import opened LogScanner
  import opened Recovery
  import opened LogImage
  import opened CrashProtocol
  import opened CrashSafety

  // The active slot

  // A commit never writes the active slot, not even the step that completes it.
  lemma ActiveSlotUntouched(s: Sys, t: Sys)
    requires Inv(s) && WriterStep(s, t)
    ensures |s.disk.journal| == |t.disk.journal| == 104 && s.process.Up? && s.process.cursor.active < 2
    ensures var i := s.process.cursor.active;
      SlotBytes(t.disk.journal, i) == SlotBytes(s.disk.journal, i)
  {
    hide CheckpointMetadataValid, SlotAt, Image, CheckpointFor, SlotsInv, OrderInv, CoverInv, LogInv, Anchor;
    hide SlotBytes, SetSlot, NextSlot, EncodeCheckpointSlot, Acceptable, TearDetected;
    assert s.process.Up?;
    if DetectedTear(s, t) {
      var bs :| TearSlot(s, t, bs);
      SetSlotOther(s.disk.journal, s.process.cursor.active, bs);
    } else if WriteSlot(s, t) {
      SetSlotOther(s.disk.journal, s.process.cursor.active, EncodeCheckpointSlot(NextSlot(s)));
    }
  }

  lemma SetSlotOther(journal: seq<byte>, i: nat, bs: seq<byte>)
    requires |journal| == 104 && i < 2 && |bs| == 52
    ensures SlotBytes(SetSlot(journal, Inactive(i), bs), i) == SlotBytes(journal, i)
  {
    SetSlotBytes(journal, Inactive(i), bs);
  }

  // The active slot is a valid checkpoint of synchronized records that covers
  // everything acknowledged, and the log holds those records.
  ghost predicate ActiveIntact(s: Sys)
    requires s.process.Up?
  {
    var c := s.process.cursor;
    && |s.disk.journal| == 104 && c.active < 2
    && |s.acked| <= c.committed <= |s.written|
    && Valid(J(s, c.active))
    && J(s, c.active) == CheckpointFor(s.startTime, c.generation, s.written[..c.committed])
    && Boundary(c.committed) <= s.disk.logSynced <= |s.disk.log|
    && s.disk.log[..Boundary(c.committed)] == Image(s.startTime, s.written[..c.committed])
  }

  // So it is at every sub-step of every run, and among two valid slots a larger
  // generation always covers strictly more records.
  lemma ActiveSlotIntact(run: seq<Sys>, n: nat)
    requires IsRun(run) && n < |run| && run[n].process.Up?
    ensures ActiveIntact(run[n])
    ensures Ordered(J(run[n], 0), J(run[n], 1))
  {
    hide CheckpointMetadataValid, Image, CheckpointFor, Step, Init, SlotAt, CoverInv, Contiguous;
    RunKeeps(run, n);
    LogHolds(run[n], run[n].process.cursor.committed);
  }

  // Power cuts without process crashes

  // A step in which no process dies leaving its cached writes behind; a power
  // cut may happen at any time.
  ghost predicate PowerStep(s: Sys, t: Sys) {
    && Bounded(t)
    && (WriterStep(s, t) || RecoveryStep(s, t) || DetectedCut(s, t))
  }

  ghost predicate IsPowerRun(run: seq<Sys>) {
    && |run| > 0
    && Init(run[0])
    && forall i :: 0 < i < |run| ==> PowerStep(run[i - 1], run[i])
  }

  // An open writer's active slot is on the disk; without one, the whole journal.
  ghost predicate Flushed(s: Sys) {
    && |s.disk.journal| == |s.disk.durable| == 104
    && match s.process
       case Up(c) => c.active < 2 && SlotDurable(s, c.active)
       case _ => s.disk.journal == s.disk.durable
  }

  lemma FlushedIsSafe(s: Sys)
    requires Inv(s) && Flushed(s)
    ensures SafeToCut(s)
  {
    hide CheckpointMetadataValid, SlotBytes, DecodeCheckpointSlot, Inv;
    SomeValid(s);
  }

  lemma SomeValid(s: Sys)
    requires Inv(s)
    ensures |s.disk.journal| == 104 && (Valid(J(s, 0)) || Valid(J(s, 1)))
  {
    hide CheckpointMetadataValid, SlotAt, LogInv, SlotsInv, OrderInv, CoverInv, UpInv;
    SomeAnchor(s);
  }

  lemma WriterStepFlushed(s: Sys, t: Sys)
    requires Inv(s) && Inv(t) && Flushed(s) && WriterStep(s, t)
    ensures Flushed(t)
  {
    hide CheckpointMetadataValid, Image, CheckpointFor, LogInv, SlotsInv, OrderInv, CoverInv;
    hide SlotBytes, SetSlot, NextSlot, EncodeCheckpointSlot, TearDetected;
    ActiveSlotUntouched(s, t);
    if SyncJournal(s, t) {
      assert Valid(J(t, t.process.cursor.active));
    }
  }

  lemma RecoveryStepFlushed(s: Sys, t: Sys)
    requires Inv(s) && Inv(t) && Flushed(s) && RecoveryStep(s, t)
    ensures Flushed(t)
  {
    hide CheckpointMetadataValid, Image, CheckpointFor, LogInv, SlotsInv, OrderInv, CoverInv;
    hide SlotBytes, RecoverStartup, LoadCheckpoint, Trim, Entries;
    if Open(s, t) {
      assert t.process.Up? && Valid(J(t, t.process.cursor.active));
    }
  }

  lemma {:induction false} PowerRunFlushed(run: seq<Sys>, n: nat)
    requires IsPowerRun(run) && n < |run|
    ensures Inv(run[n]) && Flushed(run[n])
  {
    hide Inv, Init, WriterStep, RecoveryStep, DetectedCut, Bounded, Flushed, SafeToCut;
    if n == 0 {
      InitHolds(run[0]);
      InitFlushed(run[0]);
    } else {
      var s, t := run[n - 1], run[n];
      PowerRunFlushed(run, n - 1);
      FlushedIsSafe(s);
      assert PowerStep(s, t);
      StepKeeps(s, t);
      if WriterStep(s, t) {
        WriterStepFlushed(s, t);
      } else if RecoveryStep(s, t) {
        RecoveryStepFlushed(s, t);
      } else {
        CutFlushed(s, t);
      }
    }
  }

  lemma InitFlushed(s: Sys)
    requires Init(s)
    ensures Flushed(s)
  {
    hide CheckpointMetadataValid, Image, CheckpointFor, EncodeCheckpointSlot, DecodeCheckpointSlot, EmptySlot, Bounded;
    InitHolds(s);
    SomeAnchorOf(s);
  }

  lemma SomeAnchorOf(s: Sys)
    requires Inv(s) && s.process.Up?
    ensures s.process.cursor.active < 2 && |s.disk.journal| == 104 && Valid(J(s, s.process.cursor.active))
  {
    hide CheckpointMetadataValid, Image, CheckpointFor, LogInv, SlotsInv, OrderInv, CoverInv;
  }

  lemma CutFlushed(s: Sys, t: Sys)
    requires DetectedCut(s, t)
    ensures Flushed(t)
  {
    hide CheckpointMetadataValid, SlotBytes, SlotSurvives, CutDetected;
  }

  // Power cuts alone never endanger the log: such runs need no condition on
  // when the power may fail.
  lemma PowerCutsAreSafe(run: seq<Sys>)
    requires IsPowerRun(run)
    ensures IsRun(run)
    ensures forall n :: 0 <= n < |run| ==> SafeToCut(run[n])
  {
    hide Inv, Init, PowerStep, Step, SafeToCut, Flushed;
    forall n | 0 <= n < |run|
      ensures SafeToCut(run[n])
    {
      PowerRunFlushed(run, n);
      FlushedIsSafe(run[n]);
    }
    forall n | 0 < n < |run|
      ensures Step(run[n - 1], run[n])
    {
      PowerIsStep(run[n - 1], run[n]);
    }
  }

  lemma PowerIsStep(s: Sys, t: Sys)
    requires PowerStep(s, t) && SafeToCut(s)
    ensures Step(s, t)
  {
    hide WriterStep, RecoveryStep, DetectedCut, SafeToCut, Bounded;
  }

  // Process crashes followed by power cuts

  // What the worst power cut leaves: every slot that is not on the disk is torn.
  function WorstSlot(s: Sys, i: nat): (bs: seq<byte>)
    requires i < 2 && |s.disk.journal| == |s.disk.durable| == 104
    ensures |bs| == 52
  {
    if SlotBytes(s.disk.journal, i) == SlotBytes(s.disk.durable, i) then SlotBytes(s.disk.journal, i)
    else EmptySlot()
  }

  function WorstCut(s: Sys): Sys
    requires |s.disk.journal| == |s.disk.durable| == 104
  {
    var journal := WorstSlot(s, 0) + WorstSlot(s, 1);
    s.(process := Down, disk := Storage(s.disk.log, s.disk.logSynced, journal, journal))
  }

  lemma WorstCutPossible(s: Sys)
    requires Inv(s)
    ensures var t := WorstCut(s);
      DetectedCut(s, t) && Bounded(t)
      && SlotBytes(t.disk.journal, 0) == WorstSlot(s, 0)
      && SlotBytes(t.disk.journal, 1) == WorstSlot(s, 1)
  {
    hide CheckpointMetadataValid, DecodeCheckpointSlot, EmptySlot, SlotsInv, OrderInv, CoverInv, UpInv, Image;
    var t := WorstCut(s);
    assert SlotBytes(t.disk.journal, 0) == WorstSlot(s, 0);
    assert SlotBytes(t.disk.journal, 1) == WorstSlot(s, 1);
    EmptySlotInvalid();
  }

  // Without a valid slot recovery refuses to guess.
  lemma NoSlotNoRecovery(s: Sys)
    requires |s.disk.journal| == 104 && HeaderOk(s.disk.log)
    requires !Valid(J(s, 0)) && !Valid(J(s, 1))
    ensures !RecoverStartup(Files(s)).0.healthy
  {
    hide CheckpointMetadataValid, FileHeaderOk, RecordValid, ValidCount, ScanReport, Trim, ScanHealthyPrefix;
    hide RecoverCheckpoint, DecodeFileHeader, SlotAt;
    var log, k := s.disk.log, ValidCount(s.disk.log);
    TrimKeepsValidPrefix(log);
    var kept, scanned := log[..Boundary(k)], ScanHealthyPrefix(Some(log));
    TrimmedScan(log, k);
    RecoverCheckpointMeaning(kept, k, s.disk.journal, scanned);
  }

  // A power cut is survived, whatever it leaves, if and only if some valid slot
  // has reached the disk.
  lemma CutSafeExactly(s: Sys)
    requires Inv(s)
    ensures SafeToCut(s) <==>
      forall t :: DetectedCut(s, t) && Bounded(t) ==> RecoverStartup(Files(t)).0.healthy
  {
    hide Inv, SafeToCut, DetectedCut, Bounded, RecoverStartup;
    if SafeToCut(s) {
      forall t | DetectedCut(s, t) && Bounded(t)
        ensures RecoverStartup(Files(t)).0.healthy
      {
        PowerCutKeeps(s, t);
        var i := RecoveryOutcome(t);
      }
    } else {
      UnsafeCut(s);
    }
  }

  lemma UnsafeCut(s: Sys)
    requires Inv(s) && !SafeToCut(s)
    ensures |s.disk.journal| == |s.disk.durable| == 104
    ensures var t := WorstCut(s);
      DetectedCut(s, t) && Bounded(t) && !RecoverStartup(Files(t)).0.healthy
  {
    hide CheckpointMetadataValid, DecodeCheckpointSlot, EmptySlot, SlotsInv, OrderInv, CoverInv, UpInv, Image;
    hide RecoverStartup, DetectedCut, HeaderOk, SlotBytes, Bounded;
    var t := WorstCut(s);
    WorstCutPossible(s);
    EmptySlotInvalid();
    LogHasHeader(s);
    NoSlotNoRecovery(t);
  }
}
