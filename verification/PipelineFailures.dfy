/**
 What a failed write or commit of the writer loop does: it stops acquisition, closes
 the ring and raises the error flag, and nothing else raises it.
 */
module PipelineFailures {
  import opened Basics
  import opened Bytes
  import opened Pipeline
  import opened PipelineSafety
  import Ring = RingProtocol
  import RingSafety
  import RingTheorems

  predicate Leaving(pc: WriterPc) { pc.WExit? || pc.WPublishLast? || pc.WDone? }

  // From the moment the flag is up, the loop is on its way out.
  ghost predicate FlagInv(w: Writer) {
    && (w.error ==> w.pc.WClosing? || Leaving(w.pc))
    && (w.log.failed <==> w.error || w.pc.WFailed? || w.pc.WFlagged?)
    && ((w.pc.WPublishLast? || w.pc.WDone?) && !w.log.failed ==> w.log.unsynced == 0)
    && (w.pc.WDone? ==> w.committed == w.log.committed)
  }

  // Acquisition has been asked to stop before the ring is closed, and the loop is left
  // only when it is closed.
  ghost predicate ShutInv(r: Recorder) {
    && (r.writer.pc.WFlagged? || r.writer.pc.WClosing? || r.stop != TIdle || r.ring.closed ==> r.stopRequested)
    && (Leaving(r.writer.pc) ==> r.ring.closed)
  }

  ghost predicate FailureInv(r: Recorder) {
    FlagInv(r.writer) && ShutInv(r)
  }

  // ---------- Steps ----------

  lemma SensorKeepsFailure(r: Recorder, env: Env, t: Recorder)
    requires Ring.SlotsExist(r.ring) && SensorStep(r, env) == Some(t)
    requires FailureInv(r)
    ensures FailureInv(t)
  {
    hide Ring.ProducerStep, Ring.SlotsExist, Overrun, FlagInv;
    forall choice, ring | Ring.ProducerStep(r.ring, choice) == Some(ring)
      ensures ring.closed == r.ring.closed
    {
      RingTheorems.PushEffect(r.ring, choice, ring);
    }
  }

  lemma RingKeepsFailure(r: Recorder, env: Env, t: Recorder)
    requires CanStart(r.config) && OnRing(r.writer.pc)
    requires Ring.SlotsExist(r.ring) && WriterStep(r, env) == Some(t)
    requires FailureInv(r) && Inv(r)
    ensures FailureInv(t)
  {
    hide SensorInv, RingSafety.Inv, Ring.ConsumerStep, Ring.CloserStep, Ring.SlotsExist, Numbered, LocalStep;
    hide WriterCall, WriterNumbers, WriterCounts, TimerInv;
    forall choice, ring | Ring.ConsumerStep(r.ring, choice) == Some(ring)
      ensures ring.closed == r.ring.closed
    {
      RingTheorems.PopEffect(r.ring, choice, ring);
    }
    ClosedIsClosed(r.ring);
    forall ring | Ring.CloserStep(r.ring, env.choice) == Some(ring)
      ensures r.ring.closed ==> ring.closed
    {
      RingTheorems.CloseEffect(r.ring, env.choice, ring);
    }
  }

  lemma ClosedIsClosed(s: Ring.Ring)
    requires RingSafety.Inv(s)
    ensures s.consumer.CDone? && s.consumer.popStatus == Ring.PopClosed ==> s.closed
  {}

  lemma LocalKeepsFailure(r: Recorder, env: Env, t: Recorder)
    requires CanStart(r.config) && !OnRing(r.writer.pc)
    requires Ring.SlotsExist(r.ring) && WriterStep(r, env) == Some(t)
    requires FailureInv(r)
    ensures FailureInv(t)
  {
    hide Ring.ConsumerStep, Ring.CloserStep, Ring.SlotsExist, Numbered, Append, Flush, WaitTime;
    if r.writer.pc.WAppend? {
      AppendMeaning(r.writer.log, r.writer.batch, r.config, env.io);
    } else {
      FlushMeaning(r.writer.log, env.io);
      FlushEmpties(r.writer.log, env.io);
    }
  }

  lemma FlushEmpties(log: Log, io: Io)
    ensures var (after, ok) := Flush(log, io);
      && (ok ==> after.unsynced == 0)
      && (log.unsynced == 0 ==> after == log)
  {}

  lemma StopKeepsFailure(r: Recorder, env: Env, t: Recorder)
    requires StopStep(r, env) == Some(t)
    requires FailureInv(r)
    ensures FailureInv(t)
  {
    hide Ring.CloserStep, Flush;
    FlushMeaning(r.writer.log, env.io);
    FlushEmpties(r.writer.log, env.io);
    forall ring | Ring.CloserStep(r.ring, env.choice) == Some(ring)
      ensures r.ring.closed ==> ring.closed
    {
      RingTheorems.CloseEffect(r.ring, env.choice, ring);
    }
  }

  lemma StepKeepsFailure(r: Recorder, thread: Thread, env: Env, t: Recorder)
    requires CanStart(r.config)
    requires Ring.SlotsExist(r.ring) && Step(r, thread, env) == Some(t)
    requires FailureInv(r) && Inv(r)
    ensures FailureInv(t)
  {
    hide Inv, FlagInv, Ring.SlotsExist, SensorStep, WriterStep, StopStep;
    match thread
    case TheSensor => SensorKeepsFailure(r, env, t);
    case TheWriter =>
      if OnRing(r.writer.pc) {
        RingKeepsFailure(r, env, t);
      } else {
        LocalKeepsFailure(r, env, t);
      }
    case TheStopper => StopKeepsFailure(r, env, t);
    case TheClock =>
  }

  lemma StartHasNotFailed(config: Config, storage: seq<Sample>, clock: nat, count: nat, last: u64)
    ensures FailureInv(Started(config, storage, clock, count, last))
  {}
}
