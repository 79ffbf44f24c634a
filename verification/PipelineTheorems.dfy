/**
 What holds over every run of the recorder, from start() to the return of stop().
 */
module PipelineTheorems {
  import opened Basics
  import opened Bytes
  import opened LogFormat
  import opened LogImage
  import opened Pipeline
  import opened PipelineSafety
  import opened PipelineFailures
  import Ring = RingProtocol
  import Calls = RingCalls
  import RingSafety
  import RingTheorems
  import Outcomes = RingOutcomes

  // ---------- Leaving the loops ----------

  // stop() has waited for both loops; a sound writer leaves its loop only on
  // Closed, and then commits everything.
  ghost predicate ExitInv(r: Recorder) {
    && (r.stop.TClosing? || r.stop.TJoinWriter? || r.stop.TDone? ==> r.sensor.pc == SStopped)
    && (r.stop.TDone? ==> r.writer.pc == WDone)
    && (Sound(r.writer) && Leaving(r.writer.pc) ==>
          r.ring.consumer.CDone? && r.ring.consumer.popStatus == Ring.PopClosed)
    && (Sound(r.writer) && Leaving(r.writer.pc) && !r.writer.pc.WExit? ==>
          r.writer.log.committed == |r.writer.log.entries|)
    && (Sound(r.writer) && r.writer.pc.WDone? ==> r.writer.committed == r.writer.log.committed)
  }

  lemma SensorKeepsExit(r: Recorder, env: Env, t: Recorder)
    requires Ring.SlotsExist(r.ring) && SensorStep(r, env) == Some(t)
    requires ExitInv(r)
    ensures ExitInv(t)
  {
    hide Ring.ProducerStep, Ring.SlotsExist, Overrun;
    SensorLeavesWriter(r, env, t);
  }

  lemma RingKeepsExit(r: Recorder, env: Env, t: Recorder)
    requires CanStart(r.config) && OnRing(r.writer.pc)
    requires Ring.SlotsExist(r.ring) && WriterStep(r, env) == Some(t)
    requires ExitInv(r) && Inv(r)
    ensures ExitInv(t)
  {
    hide SensorInv, RingSafety.Inv, Ring.ConsumerStep, Ring.CloserStep, Ring.SlotsExist, Numbered, Append, Flush;
    hide WriterCall, WriterCounts, TimerInv, WaitTime, LocalStep;
  }

  lemma LocalKeepsExit(r: Recorder, env: Env, t: Recorder)
    requires CanStart(r.config) && !OnRing(r.writer.pc)
    requires Ring.SlotsExist(r.ring) && WriterStep(r, env) == Some(t)
    requires ExitInv(r) && Inv(r)
    ensures ExitInv(t)
  {
    hide SensorInv, RingSafety.Inv, Ring.ConsumerStep, Ring.CloserStep, Ring.SlotsExist, Numbered, Append, Flush;
    hide WriterCall, WriterCounts, TimerInv, WaitTime;
    if r.writer.pc.WAppend? {
      AppendMeaning(r.writer.log, r.writer.batch, r.config, env.io);
    } else {
      FlushMeaning(r.writer.log, env.io);
    }
  }

  lemma StopKeepsExit(r: Recorder, env: Env, t: Recorder)
    requires StopStep(r, env) == Some(t)
    requires ExitInv(r) && Inv(r)
    ensures ExitInv(t)
  {
    hide SensorInv, RingSafety.Inv, Ring.CloserStep, Flush;
    hide WriterCall, WriterCounts, WriterNumbers, TimerInv;
    FlushMeaning(r.writer.log, env.io);
    forall ring | Ring.CloserStep(r.ring, env.choice) == Some(ring)
      ensures WokenConsumer(r.ring.consumer, ring.consumer)
    {
      Calls.CloseLeavesOthers(r.ring, env.choice, ring);
    }
  }

  // What the writer's pop saw of the ring: a sound writer leaves its loop with head
  // where tail was when it was last loaded.
  ghost predicate SeenInv(r: Recorder) {
    && (r.writer.pc.WPopping? ==> Calls.Seen(r.ring.consumer, r.ring.head, r.writer.seen))
    && (Sound(r.writer) && Leaving(r.writer.pc) ==> r.ring.head == r.writer.seen)
  }

  lemma SensorKeepsSeen(r: Recorder, env: Env, t: Recorder)
    requires Ring.SlotsExist(r.ring) && SensorStep(r, env) == Some(t)
    requires SeenInv(r)
    ensures SeenInv(t)
  {
    hide SensorStep, Ring.SlotsExist;
    SensorLeavesWriter(r, env, t);
  }

  lemma PoppingKeepsSeen(r: Recorder, env: Env, t: Recorder)
    requires CanStart(r.config) && r.writer.pc.WPopping?
    requires Ring.SlotsExist(r.ring) && WriterStep(r, env) == Some(t)
    requires SeenInv(r) && Inv(r)
    ensures SeenInv(t)
  {
    hide SensorInv, RingSafety.Inv, Ring.ConsumerStep, Ring.SlotsExist, Numbered, WriterNumbers, WriterCounts, TimerInv;
    if !r.ring.consumer.CDone? {
      ViewOf(r.ring);
      Calls.SeenContinues(r.ring, env.choice, t.ring, r.writer.seen);
    }
  }

  lemma RingKeepsSeen(r: Recorder, env: Env, t: Recorder)
    requires CanStart(r.config) && OnRing(r.writer.pc) && !r.writer.pc.WPopping?
    requires Ring.SlotsExist(r.ring) && WriterStep(r, env) == Some(t)
    requires SeenInv(r) && Inv(r)
    ensures SeenInv(t)
  {
    hide SensorInv, RingSafety.Inv, Ring.ConsumerStep, Ring.CloserStep, Ring.SlotsExist, Numbered, Append, Flush;
    hide WriterCounts, TimerInv, WaitTime, LocalStep;
    if r.writer.pc.WArm? {
      Calls.PopBegins(r.ring, Ring.Pop(Ring.Timed), t.ring);
    }
  }

  lemma LocalKeepsSeen(r: Recorder, env: Env, t: Recorder)
    requires CanStart(r.config) && !OnRing(r.writer.pc)
    requires Ring.SlotsExist(r.ring) && WriterStep(r, env) == Some(t)
    requires SeenInv(r) && Inv(r)
    ensures SeenInv(t)
  {
    hide SensorInv, RingSafety.Inv, Ring.ConsumerStep, Ring.CloserStep, Ring.SlotsExist, Numbered, Append, Flush;
    hide WriterCall, WriterCounts, TimerInv, WaitTime;
    if r.writer.pc.WAppend? {
      AppendMeaning(r.writer.log, r.writer.batch, r.config, env.io);
    } else {
      FlushMeaning(r.writer.log, env.io);
    }
  }

  lemma StopKeepsSeen(r: Recorder, env: Env, t: Recorder)
    requires StopStep(r, env) == Some(t)
    requires SeenInv(r)
    ensures SeenInv(t)
  {
    hide Ring.CloserStep, Flush;
    FlushMeaning(r.writer.log, env.io);
    forall ring | Ring.CloserStep(r.ring, env.choice) == Some(ring)
      ensures ring.head == r.ring.head && WokenConsumer(r.ring.consumer, ring.consumer)
    {
      Calls.CloseLeavesOthers(r.ring, env.choice, ring);
      RingTheorems.CloseEffect(r.ring, env.choice, ring);
    }
  }

  // ---------- Runs ----------

  datatype Move = Move(thread: Thread, env: Env)

  ghost predicate Reaches(r: Recorder, moves: seq<Move>, t: Recorder)
    decreases |moves|
  {
    if moves == [] then r == t
    else
      && CanStart(r.config) && Ring.SlotsExist(r.ring)
      && Step(r, moves[0].thread, moves[0].env).Some?
      && Reaches(Step(r, moves[0].thread, moves[0].env).value, moves[1..], t)
  }

  // A run of the recorder started on a log whose last number it continues
  ghost predicate Reachable(r: Recorder) {
    exists storage, clock: nat, count: nat, last: u64, moves ::
      && CanStart(r.config) && |storage| == r.config.bufferSize
      && (count != 0 ==> last == r.config.startSequence)
      && Reaches(Started(r.config, storage, clock, count, last), moves, r)
  }

  lemma {:induction false} RunKeepsInv(r: Recorder, moves: seq<Move>, t: Recorder)
    requires Inv(r) && ExitInv(r) && SeenInv(r) && FailureInv(r)
    requires Reaches(r, moves, t)
    ensures Inv(t) && ExitInv(t) && SeenInv(t) && FailureInv(t)
    decreases |moves|
  {
    hide Inv, ExitInv, SeenInv, FailureInv, Ring.SlotsExist, SensorStep, WriterStep, StopStep, CanStart;
    if moves != [] {
      var move := moves[0];
      var next := Step(r, move.thread, move.env).value;
      StepKeepsInv(r, move.thread, move.env, next);
      StepKeepsFailure(r, move.thread, move.env, next);
      match move.thread {
        case TheSensor =>
          SensorKeepsExit(r, move.env, next);
          SensorKeepsSeen(r, move.env, next);
        case TheWriter =>
          if OnRing(r.writer.pc) {
            RingKeepsExit(r, move.env, next);
            if r.writer.pc.WPopping? {
              PoppingKeepsSeen(r, move.env, next);
            } else {
              RingKeepsSeen(r, move.env, next);
            }
          } else {
            LocalKeepsExit(r, move.env, next);
            LocalKeepsSeen(r, move.env, next);
          }
        case TheStopper =>
          StopKeepsExit(r, move.env, next);
          StopKeepsSeen(r, move.env, next);
        case TheClock => TickKeepsExit(r);
      }
      RunKeepsInv(next, moves[1..], t);
    }
  }

  lemma StartIsReachable(config: Config, storage: seq<Sample>, clock: nat, count: nat, last: u64)
    requires CanStart(config) && |storage| == config.bufferSize
    requires count != 0 ==> last == config.startSequence
    ensures Reachable(Started(config, storage, clock, count, last))
  {
    var r := Started(config, storage, clock, count, last);
    assert Reaches(r, [], r);
  }

  lemma StepIsReachable(r: Recorder, thread: Thread, env: Env, t: Recorder)
    requires CanStart(r.config)
    requires Ring.SlotsExist(r.ring) && Step(r, thread, env) == Some(t)
    requires Reachable(r)
    ensures Reachable(t)
  {
    hide Reaches, Started, Ring.SlotsExist, SensorStep, WriterStep, StopStep;
    var storage, clock: nat, count: nat, last: u64, moves :|
      && CanStart(r.config) && |storage| == r.config.bufferSize
      && (count != 0 ==> last == r.config.startSequence)
      && Reaches(Started(r.config, storage, clock, count, last), moves, r);
    RingTakesItsSteps(r, thread, env, t);
    RunThenStep(Started(r.config, storage, clock, count, last), moves, r, Move(thread, env));
  }

  lemma {:induction false} RunThenStep(r: Recorder, moves: seq<Move>, t: Recorder, move: Move)
    requires Reaches(r, moves, t)
    requires CanStart(t.config) && Ring.SlotsExist(t.ring) && Step(t, move.thread, move.env).Some?
    ensures Reaches(r, moves + [move], Step(t, move.thread, move.env).value)
    decreases |moves|
  {
    hide Step, Ring.SlotsExist, CanStart;
    var u := Step(t, move.thread, move.env).value;
    if moves == [] {
      assert [move][1..] == [];
      assert Reaches(u, [], u);
      assert moves + [move] == [move];
    } else {
      RunThenStep(Step(r, moves[0].thread, moves[0].env).value, moves[1..], t, move);
      assert (moves + [move])[1..] == moves[1..] + [move];
    }
  }

  lemma TickKeepsExit(r: Recorder)
    requires ExitInv(r) && SeenInv(r)
    ensures ExitInv(r.(clock := r.clock + 1)) && SeenInv(r.(clock := r.clock + 1))
  {}

  lemma ReachableIsInv(r: Recorder)
    requires Reachable(r)
    ensures Inv(r) && ExitInv(r) && SeenInv(r) && FailureInv(r)
  {
    hide Inv, FailureInv, Reaches;
    var storage, clock: nat, count: nat, last: u64, moves :|
      && CanStart(r.config) && |storage| == r.config.bufferSize
      && (count != 0 ==> last == r.config.startSequence)
      && Reaches(Started(r.config, storage, clock, count, last), moves, r);
    StartHolds(r.config, storage, clock, count, last);
    StartHasNotFailed(r.config, storage, clock, count, last);
    RunKeepsInv(Started(r.config, storage, clock, count, last), moves, r);
  }

  // The recorder drives its ring through a run of the ring: whatever holds of every
  // reachable ring holds of the one inside every reachable recorder.
  lemma RingIsReachable(r: Recorder)
    requires Reachable(r)
    ensures RingTheorems.Reachable(r.ring) && r.ring.capacity == r.config.bufferSize
  {
    hide Reaches, RingTheorems.Reachable;
    var storage, clock: nat, count: nat, last: u64, moves :|
      && CanStart(r.config) && |storage| == r.config.bufferSize
      && (count != 0 ==> last == r.config.startSequence)
      && Reaches(Started(r.config, storage, clock, count, last), moves, r);
    RingTheorems.EmptyIsReachable(r.config.bufferSize, storage);
    RunDrivesRing(Started(r.config, storage, clock, count, last), moves, r);
  }

  lemma {:induction false} RunDrivesRing(r: Recorder, moves: seq<Move>, t: Recorder)
    requires RingTheorems.Reachable(r.ring)
    requires Reaches(r, moves, t)
    ensures RingTheorems.Reachable(t.ring) && t.ring.capacity == r.ring.capacity
    decreases |moves|
  {
    hide RingTheorems.Reachable, Step, Ring.Step, Ring.SlotsExist, CanStart;
    if moves != [] {
      var next := Step(r, moves[0].thread, moves[0].env).value;
      RingTakesItsSteps(r, moves[0].thread, moves[0].env, next);
      if next.ring != r.ring {
        var on, choice :| Ring.Step(r.ring, on, choice) == Some(next.ring);
        RingTheorems.StepIsReachable(r.ring, on, choice, next.ring);
        RingTheorems.StepEffect(r.ring, on, choice, next.ring);
      }
      RunDrivesRing(next, moves[1..], t);
    }
  }

  // ---------- Sleeping and waking ----------

  // A writer asleep in its pop although samples are queued or the ring is closed is
  // owed a wake-up by a push of the sensor or by a close, and it arrives within four
  // of that thread's ring operations, none of which can block.
  lemma WriterIsWoken(r: Recorder)
    requires Reachable(r)
    requires r.ring.consumer.CParked? && (r.ring.tail != r.ring.head || r.ring.closed)
    ensures r.writer.pc.WPopping?
    ensures (r.sensor.pc.SPushing? && RingSafety.Announcing(r.ring.producer)) || RingSafety.ClosingData(r.ring.closer)
    ensures exists on, n: nat, ring ::
      n <= 4 && RingTheorems.Alone(r.ring, on, n, ring) && !ring.consumer.CParked?
  {
    hide Reachable, RingTheorems.Reachable, RingTheorems.Alone, RingSafety.Inv, ExitInv, SeenInv;
    hide TimerInv, WriterNumbers, WriterCounts, SensorBits, SensorCounts;
    ReachableIsInv(r);
    RingIsReachable(r);
    RingTheorems.NoMissedWakeup(r.ring);
    RingTheorems.ConsumerIsWoken(r.ring);
  }

  // A sensor asleep in its push although there is room or the ring is closed is owed
  // one by a pop of the writer or by a close.
  lemma SensorIsWoken(r: Recorder)
    requires Reachable(r)
    requires r.ring.producer.PParked? && (r.ring.tail - r.ring.head < r.ring.capacity || r.ring.closed)
    ensures r.sensor.pc.SPushing?
    ensures || ((r.writer.pc.WPopping? || r.writer.pc.WDraining?) && RingSafety.Releasing(r.ring.consumer))
            || RingSafety.ClosingSpace(r.ring.closer)
    ensures exists on, n: nat, ring ::
      n <= 4 && RingTheorems.Alone(r.ring, on, n, ring) && !ring.producer.PParked?
  {
    hide Reachable, RingTheorems.Reachable, RingTheorems.Alone, RingSafety.Inv, ExitInv, SeenInv;
    hide TimerInv, WriterNumbers, WriterCounts, SensorBits, SensorCounts;
    ReachableIsInv(r);
    RingIsReachable(r);
    RingTheorems.NoMissedWakeup(r.ring);
    RingTheorems.ProducerIsWoken(r.ring);
  }

  // Sensor and writer never sleep on each other.
  lemma LoopsNeverBothAsleep(r: Recorder)
    requires Reachable(r)
    ensures !RingTheorems.BothAsleep(r.ring)
  {
    hide Reachable, RingTheorems.Reachable, RingSafety.Inv, SensorInv, WriterInv, ExitInv, SeenInv;
    ReachableIsInv(r);
    RingIsReachable(r);
    RingTheorems.BothAsleepExactly(r.ring.capacity);
  }

  // ---------- Conservation ----------

  // Published to the ring but not yet counted as generated; and counted as
  // generated but not yet as dropped
  function Uncounted(r: Recorder): int {
    var p := r.ring.producer;
    if r.sensor.pc.SPushing? then
      One(p.PPublished? || p.PUnlocked? || p.PMark? || p.PNotify? || (p.PDone? && p.pushStatus == Ring.Pushed))
    else One(r.sensor.pc.SCount?) - One(r.sensor.pc.SDrop?)
  }

  // Popped from the ring but not yet counted as written
  function InHand(r: Recorder): int {
    |r.ring.popped| - |r.writer.taken| + |r.writer.batch|
  }

  lemma {:induction false} OutcomesAddUp(outcomes: seq<Outcome>)
    ensures |Accepted(outcomes)| + Drops(outcomes) == |outcomes|
  {
    if |outcomes| > 0 {
      OutcomesAddUp(outcomes[..|outcomes| - 1]);
    }
  }

  // Every sample generated is dropped, written, in the writer's hands or queued,
  // up to the operation the sensor is in.
  lemma SamplesConserved(r: Recorder)
    requires Reachable(r) && Sound(r.writer)
    ensures r.sensor.generated - r.sensor.dropped + Uncounted(r)
            == r.writer.written + InHand(r) + (r.ring.tail - r.ring.head)
    ensures InHand(r) >= 0
  {
    hide Reachable, ExitInv, Accepted, Drops, Numbered, BitsTell, RingSafety.Inv, TimerInv, LogCounts;
    ReachableIsInv(r);
    OutcomesAddUp(r.sensor.outcomes);
    RingCounts(r.ring);
    PushedCount(r);
    PoppedCount(r);
  }

  lemma RingCounts(s: Ring.Ring)
    requires RingSafety.Inv(s)
    ensures |s.pushed| == s.tail && |s.popped| == s.head && s.popped <= s.pushed
  {}

  lemma PushedCount(r: Recorder)
    requires Inv(r)
    ensures |r.ring.pushed| == |Accepted(r.sensor.outcomes)| + (if r.sensor.pc.SPushing? then Uncounted(r) else 0)
  {
    hide RingSafety.Inv, WriterInv, Accepted, SensorBits, SensorCounts;
  }

  lemma PoppedCount(r: Recorder)
    requires Inv(r)
    ensures |r.ring.popped| >= |r.writer.taken|
    ensures Sound(r.writer) ==> |r.writer.taken| == r.writer.written + |r.writer.batch|
  {
    hide RingSafety.Inv, SensorInv, TimerInv, LogCounts, Continues;
  }

  // ---------- Order and numbering ----------

  // The i-th sample pushed is the i-th sample popped and, once written, the i-th
  // entry of the session, numbered start + 1 + i.
  lemma LoggedInOrder(r: Recorder, i: nat)
    requires Reachable(r) && i < |r.writer.log.entries|
    ensures i < |r.ring.popped| <= |r.ring.pushed|
    ensures r.ring.popped[i] == r.ring.pushed[i]
    ensures r.writer.log.entries[i] == Entry((r.config.startSequence + 1 + i) % TWO64, r.ring.pushed[i])
  {
    hide Reachable, ExitInv, SensorInv, RingSafety.Inv, TimerInv, WriterCounts, LogCounts;
    ReachableIsInv(r);
    RingCounts(r.ring);
    TakenWerePopped(r);
    assert r.writer.log.entries[i] == Numbered(r.config.startSequence, r.writer.taken)[i];
  }

  lemma TakenWerePopped(r: Recorder)
    requires Inv(r)
    ensures r.writer.taken <= r.ring.popped
  {
    hide RingSafety.Inv, SensorInv, TimerInv, LogCounts, Continues, WriterNumbers, WriterCounts;
  }

  // The writer's checks on size and contiguity never refuse a batch of the loop:
  // an append fails only if a write or a sync fails.
  lemma AppendFailsOnlyOnIo(r: Recorder, io: Io)
    requires Reachable(r) && Sound(r.writer) && r.writer.pc.WAppend?
    ensures 0 < |r.writer.batch| <= r.config.batchSize && Follows(r.writer.log, r.writer.batch)
    ensures io == Fine ==> Append(r.writer.log, r.writer.batch, r.config, io).1
  {
    hide Reachable, ExitInv, SensorInv, RingSafety.Inv, TimerInv, WriterCounts, LogCounts, Follows, Numbered;
    ReachableIsInv(r);
    NumberedFollows(r.config, r.writer.log, r.writer.batch, r.writer.taken);
  }

  // Whenever the loop is back at its top, the counters that the caller reads are those
  // of the log: everything taken from the ring is written and counted.
  lemma CountsArePublished(r: Recorder)
    requires Reachable(r) && (r.writer.pc.WTop? || r.writer.pc.WWait? || r.writer.pc.WPopping?)
    ensures !r.writer.error && !r.writer.log.failed
    ensures r.writer.written == |r.writer.log.entries| == |r.writer.taken| && r.writer.batch == []
    ensures r.writer.committed == r.writer.log.committed
  {
    hide Reachable, ExitInv, SeenInv, SensorInv, RingSafety.Inv, TimerInv, LogCounts, WriterCall, Numbered;
    ReachableIsInv(r);
    assert r.writer.log.entries + [] == r.writer.log.entries;
    assert |Numbered(r.config.startSequence, r.writer.taken)| == |r.writer.taken|;
  }

  // ---------- The overrun bit ----------

  // A pushed record carries the bit exactly if a sample was dropped since the
  // previous push.
  lemma OverrunTellsOfDrops(r: Recorder, i: nat)
    requires Reachable(r) && i < |r.sensor.outcomes| && r.sensor.outcomes[i].pushed
    ensures Overrun(r.sensor.outcomes[i].sample) <==>
              exists j :: 0 <= j < i && !r.sensor.outcomes[j].pushed && NonePushed(r.sensor.outcomes, j, i)
  {
    hide Reachable, ExitInv, RingSafety.Inv, WriterInv, Overrun, Accepted, Drops;
    ReachableIsInv(r);
    var outcomes := r.sensor.outcomes;
    assert Overrun(outcomes[i].sample) <==> LastDropped(outcomes[..i]);
    if LastDropped(outcomes[..i]) {
      assert !outcomes[i - 1].pushed && NonePushed(outcomes, i - 1, i);
    }
  }

  // No push between the two samples
  ghost predicate NonePushed(outcomes: seq<Outcome>, j: int, i: int)
    requires i <= |outcomes|
  {
    forall k :: 0 <= j < k < i ==> !outcomes[k].pushed
  }

  // ---------- The commit timer ----------

  // Whenever the loop looks at the timer it is set exactly if it is enabled and
  // something is uncommitted, and it expires one interval after the start of the
  // oldest uncommitted batch, however many batches followed.
  lemma TimerCoversOldest(r: Recorder)
    requires Reachable(r) && Sound(r.writer)
    requires r.writer.pc.WTop? || r.writer.pc.WWait? || r.writer.pc.WPopping?
    ensures |r.writer.starts| == |r.writer.log.entries|
    ensures r.writer.pending <==> r.config.flushInterval != 0 && r.writer.log.committed < |r.writer.log.entries|
    ensures r.writer.pending ==>
              r.writer.deadline == r.writer.starts[r.writer.log.committed] + r.config.flushInterval
  {
    hide Reachable, ExitInv, SensorInv, RingSafety.Inv, WriterNumbers, LogCounts;
    ReachableIsInv(r);
  }

  // The wait asked for never exceeds the time left when it was computed; since
  // the ring reads the clock again, the wait ends by the deadline exactly if the
  // clock had not moved on by more than the slack the cap left.
  lemma WaitEndsByDeadline(r: Recorder)
    requires Reachable(r) && Sound(r.writer) && r.writer.pc.WArm? && r.writer.pending
    ensures var w := r.writer;
      && w.pc.readAt <= r.clock
      && w.pc.wait == Min(250_000_000, Max(0, w.deadline - w.pc.readAt))
      && w.pc.readAt + w.pc.wait <= Max(w.deadline, w.pc.readAt)
      && (w.pc.readAt < w.deadline ==>
            (r.clock + w.pc.wait <= w.deadline <==>
               r.clock - w.pc.readAt <= Max(0, w.deadline - w.pc.readAt - MAX_WAIT)))
  {
    hide Reachable, ExitInv, SensorInv, RingSafety.Inv, WriterNumbers, LogCounts;
    ReachableIsInv(r);
  }

  // Without a deadline the wait is the longest one.
  lemma IdleWait(r: Recorder)
    requires Reachable(r) && Sound(r.writer) && r.writer.pc.WArm? && !r.writer.pending
    ensures r.writer.pc.wait == 250_000_000
  {
    hide Reachable, ExitInv, SeenInv, SensorInv, RingSafety.Inv, WriterNumbers, LogCounts;
    ReachableIsInv(r);
  }

  // A deadline that has passed is seen at the top of the loop, and the writer's next
  // two operations commit everything logged or fail.
  lemma DueIsCommitted(r: Recorder, io: Io)
    requires Reachable(r) && r.writer.pc.WTop? && r.writer.pending && r.clock >= r.writer.deadline
    ensures
      var first := LocalStep(r, io);
      var second := LocalStep(r.(writer := first), io);
      && second.log.entries == r.writer.log.entries
      && (second.log.failed || second.log.committed == |second.log.entries|)
      && (io == Fine ==> !second.log.failed)
  {
    hide Reachable, ExitInv, SeenInv, SensorInv, RingSafety.Inv, TimerInv, WriterCounts;
    ReachableIsInv(r);
    FlushMeaning(r.writer.log, io);
  }

  // ---------- What the loops see of the ring ----------

  // The sensor's watermark trails that of the ring only between a push and the end of
  // its counting; a pop of the writer gives up only after its deadline.
  ghost predicate SightInv(r: Recorder) {
    && r.sensor.bufferHigh <= r.ring.highWatermark
    && (r.sensor.pc.SCount? || r.sensor.pc.SHigh? || (r.sensor.pc.SPushing? && Marked(r.ring.producer))
        || r.sensor.bufferHigh == r.ring.highWatermark)
    && (r.writer.pc.WPopping? ==>
          && Outcomes.PopMode(r.ring.consumer, Ring.Timed)
          && (Outcomes.PopExpired(r.ring.consumer) || TimedOut(r.ring.consumer) ==> r.clock >= r.writer.pc.until))
  }

  // The push has raised the watermark if it had to.
  predicate Marked(p: Ring.Producer) { p.PNotify? || p == Ring.PDone(Ring.Pushed) }

  lemma PushMarks(s: Ring.Ring, choice: Ring.Choice, t: Ring.Ring)
    requires Ring.SlotsExist(s) && Ring.ProducerStep(s, choice) == Some(t)
    ensures t.highWatermark >= s.highWatermark
    ensures t.highWatermark != s.highWatermark ==> t.producer.PNotify?
    ensures s.producer.PNotify? ==> t.producer == Ring.PDone(Ring.Pushed)
    ensures Marked(t.producer) ==> s.producer.PMark? || s.producer.PNotify?
  {
    if !Ring.PushWaiting(s.producer) {
      match s.producer
      case PIdle =>
      case PStart(_, _) =>
      case PChecked(_, _) =>
      case PLoaded(_, _, _) =>
      case PWritten(_, _) =>
      case PLocked(_, _) =>
      case PPublished(_) =>
      case PUnlocked(_) =>
      case PMark(_, _) =>
      case PNotify =>
      case PDone(_) =>
    }
  }

  predicate TimedOut(c: Ring.Consumer) { c.CDone? && c.popStatus == Ring.PopTimeout }

  lemma SensorKeepsSight(r: Recorder, env: Env, t: Recorder)
    requires Ring.SlotsExist(r.ring) && SensorStep(r, env) == Some(t)
    requires SightInv(r)
    ensures SightInv(t)
  {
    hide Ring.SlotsExist, Overrun, Ring.ProducerStep;
    forall choice, ring | Ring.ProducerStep(r.ring, choice) == Some(ring)
      ensures ring.highWatermark >= r.ring.highWatermark
      ensures ring.highWatermark != r.ring.highWatermark ==> ring.producer.PNotify?
      ensures r.ring.producer.PNotify? ==> ring.producer == Ring.PDone(Ring.Pushed)
      ensures WokenConsumer(r.ring.consumer, ring.consumer)
    {
      PushMarks(r.ring, choice, ring);
      Calls.PushLeavesConsumer(r.ring, choice, ring);
    }
  }

  lemma PoppingKeepsSight(r: Recorder, env: Env, t: Recorder)
    requires CanStart(r.config) && r.writer.pc.WPopping?
    requires Ring.SlotsExist(r.ring) && WriterStep(r, env) == Some(t)
    requires SightInv(r)
    ensures SightInv(t)
  {
    hide Ring.SlotsExist, Ring.ConsumerStep, Numbered, Ring.Step;
    if !r.ring.consumer.CDone? {
      RingTheorems.PopEffect(r.ring, env.choice, t.ring);
      Calls.PopLeavesProducer(r.ring, env.choice, t.ring);
      assert Ring.Step(r.ring, Ring.TheConsumer, env.choice) == Some(t.ring) by {
        RingStepOf(r.ring, env.choice);
      }
      Outcomes.PopOutcomeStep(r.ring, RingTheorems.Move(Ring.TheConsumer, env.choice), t.ring, Ring.Timed, false);
    }
  }

  lemma RingStepOf(s: Ring.Ring, choice: Ring.Choice)
    requires Ring.SlotsExist(s)
    ensures Ring.Step(s, Ring.TheConsumer, choice) == Ring.ConsumerStep(s, choice)
  {}

  lemma WriterKeepsSight(r: Recorder, env: Env, t: Recorder)
    requires CanStart(r.config) && !r.writer.pc.WPopping?
    requires Ring.SlotsExist(r.ring) && WriterStep(r, env) == Some(t)
    requires SightInv(r) && Inv(r)
    ensures SightInv(t)
  {
    hide Ring.SlotsExist, Ring.ConsumerStep, Ring.CloserStep, Numbered, Append, Flush, WaitTime, LocalStep;
    hide SensorInv, RingSafety.Inv, WriterNumbers, WriterCounts, TimerInv, LogCounts;
    if r.writer.pc.WArm? {
      Calls.PopBegins(r.ring, Ring.Pop(Ring.Timed), t.ring);
    }
    LocalNeverPops(r, env.io);
    forall choice, ring | Ring.ConsumerStep(r.ring, choice) == Some(ring)
      ensures ring.highWatermark == r.ring.highWatermark && Woken(r.ring.producer, ring.producer)
    {
      RingTheorems.PopEffect(r.ring, choice, ring);
      Calls.PopLeavesProducer(r.ring, choice, ring);
    }
    forall ring | Ring.CloserStep(r.ring, env.choice) == Some(ring)
      ensures ring.highWatermark == r.ring.highWatermark && Woken(r.ring.producer, ring.producer)
    {
      RingTheorems.CloseEffect(r.ring, env.choice, ring);
      Calls.CloseLeavesOthers(r.ring, env.choice, ring);
    }
  }

  lemma LocalNeverPops(r: Recorder, io: Io)
    requires !r.writer.pc.WPopping?
    ensures !LocalStep(r, io).pc.WPopping?
  {
    hide Append, Flush, WaitTime;
  }

  lemma StopKeepsSight(r: Recorder, env: Env, t: Recorder)
    requires StopStep(r, env) == Some(t)
    requires SightInv(r)
    ensures SightInv(t)
  {
    hide Ring.CloserStep, Flush;
    forall ring | Ring.CloserStep(r.ring, env.choice) == Some(ring)
      ensures ring.highWatermark == r.ring.highWatermark && WokenConsumer(r.ring.consumer, ring.consumer)
      ensures Woken(r.ring.producer, ring.producer)
    {
      RingTheorems.CloseEffect(r.ring, env.choice, ring);
      Calls.CloseLeavesOthers(r.ring, env.choice, ring);
    }
  }

  lemma {:induction false} RunKeepsSight(r: Recorder, moves: seq<Move>, t: Recorder)
    requires SightInv(r) && Inv(r)
    requires Reaches(r, moves, t)
    ensures SightInv(t)
    decreases |moves|
  {
    hide Inv, SightInv, Ring.SlotsExist, SensorStep, WriterStep, StopStep, CanStart;
    if moves != [] {
      var move := moves[0];
      var next := Step(r, move.thread, move.env).value;
      StepKeepsInv(r, move.thread, move.env, next);
      match move.thread {
        case TheSensor => SensorKeepsSight(r, move.env, next);
        case TheWriter =>
          if r.writer.pc.WPopping? {
            PoppingKeepsSight(r, move.env, next);
          } else {
            WriterKeepsSight(r, move.env, next);
          }
        case TheStopper => StopKeepsSight(r, move.env, next);
        case TheClock => TickKeepsSight(r);
      }
      RunKeepsSight(next, moves[1..], t);
    }
  }

  lemma TickKeepsSight(r: Recorder)
    requires SightInv(r)
    ensures SightInv(r.(clock := r.clock + 1))
  {}

  lemma ReachableIsSeen(r: Recorder)
    requires Reachable(r)
    ensures SightInv(r)
  {
    hide Inv, Reaches;
    var storage, clock: nat, count: nat, last: u64, moves :|
      && CanStart(r.config) && |storage| == r.config.bufferSize
      && (count != 0 ==> last == r.config.startSequence)
      && Reaches(Started(r.config, storage, clock, count, last), moves, r);
    StartHolds(r.config, storage, clock, count, last);
    RunKeepsSight(Started(r.config, storage, clock, count, last), moves, r);
  }

  // Between samples the sensor has recorded the ring's watermark, and counted every
  // sample it made and every one it had to drop.
  lemma SensorRecordsAll(r: Recorder)
    requires Reachable(r) && (r.sensor.pc.STop? || r.sensor.pc.SStopped?)
    ensures r.sensor.bufferHigh == r.ring.highWatermark
    ensures r.sensor.generated == |r.sensor.outcomes|
    ensures r.sensor.dropped == Drops(r.sensor.outcomes)
    ensures r.ring.pushed == Accepted(r.sensor.outcomes)
  {
    hide Reachable, ExitInv, SeenInv, FailureInv, RingSafety.Inv, WriterInv, Accepted, Drops, SensorBits;
    ReachableIsInv(r);
    ReachableIsSeen(r);
  }

  // The writer's pop gives up only after its time, counted from when it began.
  lemma WaitIsNotCutShort(r: Recorder)
    requires Reachable(r) && r.writer.pc.WPopping? && TimedOut(r.ring.consumer)
    ensures r.clock >= r.writer.pc.until
  {
    hide Reachable;
    ReachableIsSeen(r);
  }

  // ---------- Failure ----------

  // The error flag that the caller reads after the writer has ended is up exactly if
  // a write or a commit failed, and then acquisition has been stopped.  Whatever
  // happened, the count of committed entries is that of the log.
  lemma FailureIsReported(r: Recorder)
    requires Reachable(r) && r.writer.pc.WDone?
    ensures r.writer.error <==> r.writer.log.failed
    ensures r.ring.closed && r.stopRequested
    ensures r.writer.committed == r.writer.log.committed <= |r.writer.log.entries|
    ensures !r.writer.error <==> Sound(r.writer)
  {
    hide Reachable, ExitInv, SeenInv, SensorInv, RingSafety.Inv, TimerInv, WriterCall, WriterNumbers, LogCounts;
    ReachableIsInv(r);
  }

  // A failed append or commit in the loop has asked acquisition to stop before the
  // flag is up, and has closed the ring before the last flush: the sensor makes no
  // further sample and no push succeeds.
  lemma FailureStopsAcquisition(r: Recorder)
    requires Reachable(r)
    ensures r.writer.log.failed ==> Broken(r.writer.pc) || Leaving(r.writer.pc)
    ensures r.writer.log.failed && !r.writer.pc.WFailed? ==> r.stopRequested
    ensures r.writer.error ==> r.writer.log.failed && r.stopRequested
    ensures r.writer.log.failed && Leaving(r.writer.pc) ==> r.ring.closed && r.writer.error
    ensures Leaving(r.writer.pc) ==> r.ring.closed && r.stopRequested
  {
    hide Reachable, Inv, ExitInv, SeenInv;
    ReachableIsInv(r);
  }

  // Nothing reaches the log after a failure, in any run that follows.
  lemma {:induction false} NothingAfterFailure(r: Recorder, moves: seq<Move>, t: Recorder)
    requires Reachable(r) && r.writer.log.failed
    requires Reaches(r, moves, t)
    ensures t.writer.log == r.writer.log
    decreases |moves|
  {
    hide Reachable, Step, Ring.SlotsExist, CanStart;
    if moves != [] {
      var next := Step(r, moves[0].thread, moves[0].env).value;
      StepIsReachable(r, moves[0].thread, moves[0].env, next);
      FailedLogStays(r, moves[0].thread, moves[0].env, next);
      NothingAfterFailure(next, moves[1..], t);
    }
  }

  lemma FailedLogStays(r: Recorder, thread: Thread, env: Env, t: Recorder)
    requires CanStart(r.config) && Ring.SlotsExist(r.ring) && Step(r, thread, env) == Some(t)
    requires Reachable(r) && r.writer.log.failed
    ensures t.writer.log == r.writer.log
  {
    hide Reachable, Inv, ExitInv, SeenInv, Ring.SlotsExist, SensorStep, Ring.ConsumerStep, Ring.CloserStep, Append;
    ReachableIsInv(r);
    if thread == TheSensor {
      SensorLeavesWriter(r, env, t);
    }
  }

  // Samples that the sensor has begun and whose push has not yet returned
  function Begun(s: Sensor): nat {
    if s.pc.SSnapshot? || s.pc.SSample? || s.pc.SPushing? then 1 else 0
  }

  // Once a stop is requested, by stop() or by a failure, the sensor finishes at most
  // the sample it has begun, in any run that follows.
  lemma {:induction false} StopEndsAcquisition(r: Recorder, moves: seq<Move>, t: Recorder)
    requires r.stopRequested && Reaches(r, moves, t)
    ensures t.stopRequested && r.sensor.outcomes <= t.sensor.outcomes
    ensures |t.sensor.outcomes| + Begun(t.sensor) <= |r.sensor.outcomes| + Begun(r.sensor)
    decreases |moves|
  {
    hide Step, Ring.SlotsExist, CanStart, Begun;
    if moves != [] {
      var next := Step(r, moves[0].thread, moves[0].env).value;
      StopRequestStays(r, moves[0].thread, moves[0].env, next);
      StopEndsAcquisition(next, moves[1..], t);
    }
  }

  lemma StopRequestStays(r: Recorder, thread: Thread, env: Env, t: Recorder)
    requires CanStart(r.config) && Ring.SlotsExist(r.ring) && Step(r, thread, env) == Some(t)
    requires r.stopRequested
    ensures t.stopRequested && r.sensor.outcomes <= t.sensor.outcomes
    ensures |t.sensor.outcomes| + Begun(t.sensor) <= |r.sensor.outcomes| + Begun(r.sensor)
  {
    hide Ring.SlotsExist, Ring.ProducerStep, Ring.ConsumerStep, Ring.CloserStep, LocalStep;
  }

  // ---------- After stop() ----------

  // When stop() returns without the error flag, everything written is committed and
  // what was generated is dropped, written or left in the ring.  What is left is
  // what was pushed after the writer's last load of tail: the ring is empty if and
  // only if nothing was, and nothing was if that load came after the close.
  lemma StopDrains(r: Recorder)
    requires Reachable(r) && r.stop == TDone && !r.writer.error
    ensures r.sensor.pc == SStopped && r.writer.pc == WDone && r.ring.closed
    ensures r.writer.committed == r.writer.written == |r.writer.log.entries|
    ensures r.sensor.generated - r.sensor.dropped == r.writer.written + (r.ring.tail - r.ring.head)
    ensures r.writer.seen <= |r.ring.pushed| && r.ring.popped == r.ring.pushed[..r.writer.seen]
    ensures r.ring.tail == r.ring.head <==> |r.ring.pushed| == r.writer.seen
    ensures r.ring.tail == r.ring.head ==>
              r.writer.log.entries == Numbered(r.config.startSequence, Accepted(r.sensor.outcomes))
    ensures r.ring.consumer.CDone? && (r.ring.consumer.wasSettled ==> r.ring.tail == r.ring.head)
  {
    hide Reachable, SensorBits, RingSafety.Inv, TimerInv, LogCounts, Accepted, Drops, Numbered;
    ReachableIsInv(r);
    FailureIsReported(r);
    SamplesConserved(r);
    ClosedView(r.ring);
    RingCounts(r.ring);
    assert r.writer.log.entries + [] == r.writer.log.entries;
    if r.ring.tail == r.ring.head {
      assert r.ring.popped == r.ring.pushed;
    }
  }

  lemma ClosedView(s: Ring.Ring)
    requires RingSafety.Inv(s)
    ensures s.consumer.CDone? && s.consumer.popStatus == Ring.PopClosed ==>
              s.closed && (s.consumer.wasSettled ==> s.head == s.tail)
  {}
}
