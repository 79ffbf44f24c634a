/**
 What every interleaving of the recorder's threads keeps: no sample is lost between
 the sensor and the log except by a counted drop, the log holds the samples in
 order and numbered without gaps, the overrun bit tells of drops, and the commit
 timer runs from the oldest uncommitted batch.
 */
module PipelineSafety {
  import opened Basics
  import opened Bytes
  import opened LogFormat
  import opened LogImage
  import opened Pipeline
  import Ring = RingProtocol
  import Calls = RingCalls
  import RingSafety
  import RingTheorems

  // ---------- The sensor's side ----------

  function Accepted(outcomes: seq<Outcome>): seq<Sample> {
    if |outcomes| == 0 then []
    else
      var last := outcomes[|outcomes| - 1];
      Accepted(outcomes[..|outcomes| - 1]) + (if last.pushed then [last.sample] else [])
  }

  function Drops(outcomes: seq<Outcome>): nat {
    if |outcomes| == 0 then 0
    else Drops(outcomes[..|outcomes| - 1]) + (if outcomes[|outcomes| - 1].pushed then 0 else 1)
  }

  predicate LastDropped(outcomes: seq<Outcome>) {
    |outcomes| > 0 && !outcomes[|outcomes| - 1].pushed
  }

  ghost predicate BitsTell(outcomes: seq<Outcome>) {
    forall i :: 0 <= i < |outcomes| ==> (Overrun(outcomes[i].sample) <==> LastDropped(outcomes[..i]))
  }

  ghost predicate SensorCall(s: Sensor, p: Ring.Producer, pushed: seq<Sample>) {
    if s.pc.SPushing? then Calls.PushCall(p, pushed, Accepted(s.outcomes), s.pc.sample)
    else (p.PIdle? || p.PDone?) && pushed == Accepted(s.outcomes)
  }

  function One(b: bool): int { if b then 1 else 0 }

  ghost predicate SensorCounts(s: Sensor) {
    && s.generated == |s.outcomes| - One(s.pc.SCount? || s.pc.SCountDropped?)
    && s.dropped == Drops(s.outcomes) - One(s.pc.SCountDropped? || s.pc.SDrop?)
  }

  ghost predicate SensorBits(s: Sensor) {
    && BitsTell(s.outcomes)
    && match s.pc
       case STop => s.overflow == LastDropped(s.outcomes)
       case SSnapshot => s.overflow == LastDropped(s.outcomes)
       case SSample(overrun) => !s.overflow && overrun == LastDropped(s.outcomes)
       case SPushing(sample) => !s.overflow && Overrun(sample) == LastDropped(s.outcomes)
       case SCount => !s.overflow && !LastDropped(s.outcomes)
       case SHigh => !s.overflow && !LastDropped(s.outcomes)
       case SStopped => true
       case _ => LastDropped(s.outcomes)
  }

  ghost predicate SensorInv(s: Sensor, p: Ring.Producer, pushed: seq<Sample>) {
    && SensorCall(s, p, pushed)
    && SensorCounts(s)
    && SensorBits(s)
  }

  // ---------- The writer's side ----------

  predicate Broken(pc: WriterPc) { pc.WFailed? || pc.WFlagged? || pc.WClosing? }

  // No call on the log has failed
  predicate Sound(w: Writer) { !Broken(w.pc) && !w.error && !w.log.failed }

  predicate HoldsBatch(pc: WriterPc) { pc.WDrain? || pc.WDraining? || pc.WStamp? || pc.WAppend? }

  ghost predicate WriterCall(config: Config, w: Writer, c: Ring.Consumer, popped: seq<Sample>) {
    match w.pc
    case WPopping(_, _) => Calls.PopCall(c, popped, w.taken, false, 1)
    case WDraining => Calls.PopCall(c, popped, w.taken, true, config.batchSize - 1)
    case _ => (c.CIdle? || c.CDone?) && popped == w.taken
  }

  // The samples taken, in order and numbered from the start, are the entries
  // logged followed by the batch in hand.
  ghost predicate WriterNumbers(config: Config, w: Writer) {
    && w.sequence == (config.startSequence + |w.taken|) % TWO64
    && w.log.entries <= Numbered(config.startSequence, w.taken)
    && (Sound(w) ==>
          && Numbered(config.startSequence, w.taken) == w.log.entries + (if HoldsBatch(w.pc) then w.batch else [])
          && (HoldsBatch(w.pc) ==> 1 <= |w.batch| <= config.batchSize)
          && (w.pc.WDrain? || w.pc.WDraining? ==> |w.batch| == 1)
          && (!HoldsBatch(w.pc) && !w.pc.WCount? ==> w.batch == []))
    && (Broken(w.pc) ==> w.log.failed)
    && (!Sound(w) ==> Broken(w.pc) || w.pc.WExit? || w.pc.WPublishLast? || w.pc.WDone?)
  }

  ghost predicate WriterCounts(w: Writer) {
    && w.written + (if w.pc.WCount? then |w.batch| else 0) <= |w.log.entries|
    && (Sound(w) ==> w.written + (if w.pc.WCount? then |w.batch| else 0) == |w.log.entries|)
    && w.committed <= w.log.committed <= |w.log.entries|
    && (w.committed == w.log.committed
        || w.pc.WFlushed? || w.pc.WCount? || w.pc.WPublish? || w.pc.WPublishLast? || w.pc.WDone?
        || !Sound(w))
  }

  ghost predicate LogCounts(log: Log) {
    !log.failed ==> (log.unsynced == 0 <==> log.committed == |log.entries|)
  }

  // The timer is due one interval after the start of the oldest uncommitted batch
  ghost predicate OldestDue(config: Config, w: Writer)
    requires |w.starts| == |w.log.entries|
  {
    w.log.committed < |w.log.entries| && w.deadline == w.starts[w.log.committed] + config.flushInterval
  }

  ghost predicate TimerInv(config: Config, w: Writer, clock: nat) {
    && |w.starts| == |w.log.entries|
    && (Sound(w) ==>
          match w.pc
          case WFlush => w.pending && OldestDue(config, w)
          case WFlushed => w.log.committed == |w.log.entries|
          case WCount(started) => Unset(config, w, started)
          case WPublish(started) => Unset(config, w, started)
          case WTimer(started) => Unset(config, w, started)
          case WArm(wait, readAt) =>
            && Set(config, w) && readAt <= clock && wait == WaitTime(w.pending, w.deadline, readAt)
          case WExit => true
          case WPublishLast => true
          case WDone => true
          case _ => Set(config, w))
  }

  ghost predicate Set(config: Config, w: Writer)
    requires |w.starts| == |w.log.entries|
  {
    && (w.pending <==> config.flushInterval != 0 && w.log.committed != |w.log.entries|)
    && (w.pending ==> OldestDue(config, w))
  }

  // After an append, before the timer is looked at
  ghost predicate Unset(config: Config, w: Writer, started: nat)
    requires |w.starts| == |w.log.entries|
  {
    w.log.committed < |w.log.entries| ==>
      if w.pending then config.flushInterval != 0 && OldestDue(config, w)
      else config.flushInterval != 0 ==> w.starts[w.log.committed] == started
  }

  // The session continues the log it opened.
  predicate Continues(config: Config, log: Log) {
    log.count != 0 ==> log.last == config.startSequence
  }

  ghost predicate WriterInv(config: Config, w: Writer, c: Ring.Consumer, popped: seq<Sample>, clock: nat) {
    && Continues(config, w.log)
    && WriterCall(config, w, c, popped)
    && WriterNumbers(config, w)
    && WriterCounts(w)
    && LogCounts(w.log)
    && TimerInv(config, w, clock)
  }

  ghost predicate Inv(r: Recorder) {
    && CanStart(r.config)
    && RingSafety.Inv(r.ring)
    && SensorInv(r.sensor, r.ring.producer, r.ring.pushed)
    && WriterInv(r.config, r.writer, r.ring.consumer, r.ring.popped, r.clock)
  }

  // ---------- Sensor steps ----------

  lemma {:induction false} AnotherOutcome(outcomes: seq<Outcome>, outcome: Outcome)
    ensures Accepted(outcomes + [outcome]) == Accepted(outcomes) + (if outcome.pushed then [outcome.sample] else [])
    ensures Drops(outcomes + [outcome]) == Drops(outcomes) + (if outcome.pushed then 0 else 1)
    ensures LastDropped(outcomes + [outcome]) == !outcome.pushed
    ensures BitsTell(outcomes) && Overrun(outcome.sample) == LastDropped(outcomes) ==> BitsTell(outcomes + [outcome])
  {
    var more := outcomes + [outcome];
    assert more[..|more| - 1] == outcomes;
    assert forall i :: 0 <= i < |outcomes| ==> more[..i] == outcomes[..i];
  }

  lemma SensorKeeps(r: Recorder, env: Env, t: Recorder)
    requires CanStart(r.config)
    requires Ring.SlotsExist(r.ring) && SensorStep(r, env) == Some(t)
    requires Inv(r)
    ensures SensorInv(t.sensor, t.ring.producer, t.ring.pushed)
  {
    hide RingSafety.Inv, WriterInv, Ring.ProducerStep, Ring.SlotsExist, Accepted, Drops, BitsTell, LastDropped, Overrun;
    match r.sensor.pc
    case SSample(overrun) =>
      Calls.PushBegins(r.ring, NextSample(env.reading, overrun), Ring.Timed, t.ring);
    case SPushing(sample) =>
      if r.ring.producer.PDone? {
        AnotherOutcome(r.sensor.outcomes, Outcome(sample, r.ring.producer.pushStatus == Ring.Pushed));
      } else {
        Calls.PushContinues(r.ring, env.choice, t.ring, Accepted(r.sensor.outcomes), sample);
      }
    case _ =>
  }

  // The writer and the caller of stop() touch the sensor at most by waking its push.
  lemma OthersKeepSensor(r: Recorder, thread: Thread, env: Env, t: Recorder)
    requires CanStart(r.config) && thread != TheSensor
    requires Ring.SlotsExist(r.ring) && Step(r, thread, env) == Some(t)
    requires Inv(r)
    ensures SensorInv(t.sensor, t.ring.producer, t.ring.pushed)
  {
    hide WriterInv, Accepted, Drops, BitsTell, LastDropped, Overrun, Ring.SlotsExist, RingSafety.Inv;
    OthersLeaveSensor(r, thread, env, t);
  }

  lemma OthersLeaveSensor(r: Recorder, thread: Thread, env: Env, t: Recorder)
    requires CanStart(r.config) && thread != TheSensor
    requires Ring.SlotsExist(r.ring) && Step(r, thread, env) == Some(t)
    ensures t.sensor == r.sensor && t.ring.pushed == r.ring.pushed
    ensures Woken(r.ring.producer, t.ring.producer)
  {
    hide Ring.ConsumerStep, Ring.CloserStep, Ring.SlotsExist, LocalStep;
    forall choice, ring | Ring.ConsumerStep(r.ring, choice) == Some(ring)
      ensures ring.pushed == r.ring.pushed && Woken(r.ring.producer, ring.producer)
    {
      Calls.PopLeavesProducer(r.ring, choice, ring);
      RingTheorems.PopEffect(r.ring, choice, ring);
    }
    forall choice, ring | Ring.CloserStep(r.ring, choice) == Some(ring)
      ensures ring.pushed == r.ring.pushed && Woken(r.ring.producer, ring.producer)
    {
      Calls.CloseLeavesOthers(r.ring, choice, ring);
      RingTheorems.CloseEffect(r.ring, choice, ring);
    }
  }

  predicate Woken(p: Ring.Producer, q: Ring.Producer) {
    q == p || (p.PParked? && q == Ring.PWaitLock(p.record, p.mode, false))
  }

  predicate WokenConsumer(c: Ring.Consumer, d: Ring.Consumer) {
    d == c || (c.CParked? && d == Ring.CWaitLock(c.mode, false))
  }

  // ---------- Writer steps ----------

  lemma SensorLeavesWriter(r: Recorder, env: Env, t: Recorder)
    requires Ring.SlotsExist(r.ring) && SensorStep(r, env) == Some(t)
    ensures t.writer == r.writer && t.ring.popped == r.ring.popped && t.ring.head == r.ring.head
    ensures t.config == r.config && t.clock == r.clock
    ensures WokenConsumer(r.ring.consumer, t.ring.consumer)
  {
    hide Ring.ProducerStep, Ring.SlotsExist;
    forall choice, ring | Ring.ProducerStep(r.ring, choice) == Some(ring)
      ensures ring.popped == r.ring.popped && ring.head == r.ring.head && WokenConsumer(r.ring.consumer, ring.consumer)
    {
      Calls.PushLeavesConsumer(r.ring, choice, ring);
      RingTheorems.PushEffect(r.ring, choice, ring);
    }
  }

  lemma SensorKeepsWriter(r: Recorder, env: Env, t: Recorder)
    requires CanStart(r.config)
    requires Ring.SlotsExist(r.ring) && SensorStep(r, env) == Some(t)
    requires Inv(r)
    ensures WriterInv(t.config, t.writer, t.ring.consumer, t.ring.popped, t.clock)
  {
    hide RingSafety.Inv, SensorInv, SensorStep, WriterNumbers, WriterCounts, LogCounts, TimerInv, Continues;
    SensorLeavesWriter(r, env, t);
  }

  // Numbering one run of samples after another numbers the two together.
  lemma NumberedAppend(start: u64, a: seq<Sample>, b: seq<Sample>)
    ensures Numbered(start, a + b) == Numbered(start, a) + Numbered((start + |a|) % TWO64, b)
  {
    var all, tail := Numbered(start, a + b), Numbered((start + |a|) % TWO64, b);
    forall i | 0 <= i < |b|
      ensures all[|a| + i] == tail[i]
    {
      LaterNumber(start + |a|, 1 + i);
    }
    assert all[..|a|] == Numbered(start, a);
    assert all[|a|..] == tail;
  }

  lemma LaterNumber(x: nat, i: nat)
    ensures (x % TWO64 + i) % TWO64 == (x + i) % TWO64
  {}

  // A batch numbered from where the log ends continues the log.
  lemma NumberedFollows(config: Config, log: Log, batch: seq<Entry>, taken: seq<Sample>)
    requires Continues(config, log)
    requires log.entries + batch == Numbered(config.startSequence, taken)
    ensures Follows(log, batch)
  {
    var all := Numbered(config.startSequence, taken);
    NumberedSuccessive(config.startSequence, taken);
    assert batch == all[|log.entries|..];
    if |log.entries| > 0 {
      assert log.entries[|log.entries| - 1] == all[|log.entries| - 1];
    }
  }

  lemma NumberedSuccessive(start: u64, samples: seq<Sample>)
    ensures Successive(Numbered(start, samples))
    ensures |samples| > 0 ==> Numbered(start, samples)[0].sequence == (start + 1) % TWO64
  {
    var all := Numbered(start, samples);
    forall i | 0 < i < |all|
      ensures all[i].sequence == (all[i - 1].sequence + 1) % TWO64
    {
      NextNumber(start + i);
    }
  }

  lemma NextNumber(x: nat)
    ensures (x % TWO64 + 1) % TWO64 == (x + 1) % TWO64
  {}

  // The steps of the writer on the ring
  predicate OnRing(pc: WriterPc) {
    pc.WArm? || pc.WPopping? || pc.WDrain? || pc.WDraining? || pc.WClosing? || pc.WFailed?
  }

  lemma LocalKeepsCall(r: Recorder, env: Env, t: Recorder)
    requires CanStart(r.config) && !OnRing(r.writer.pc)
    requires Ring.SlotsExist(r.ring) && WriterStep(r, env) == Some(t)
    requires Inv(r)
    ensures WriterCall(t.config, t.writer, t.ring.consumer, t.ring.popped)
  {
    hide SensorInv, WriterNumbers, WriterCounts, LogCounts, TimerInv, Continues, Ring.SlotsExist;
    hide Append, Flush, RingSafety.Inv, WaitTime;
    match r.writer.pc
    case WTop =>
    case WFlush =>
    case WFlushed =>
    case WWait =>
    case WStamp =>
    case WAppend(_) =>
    case WCount(_) =>
    case WPublish(_) =>
    case WTimer(_) =>
    case WFlagged =>
    case WExit =>
    case WPublishLast =>
    case WDone =>
  }

  lemma PoppingKeepsCall(r: Recorder, env: Env, t: Recorder)
    requires CanStart(r.config) && r.writer.pc.WPopping?
    requires Ring.SlotsExist(r.ring) && WriterStep(r, env) == Some(t)
    requires Inv(r)
    ensures WriterCall(t.config, t.writer, t.ring.consumer, t.ring.popped)
  {
    hide SensorInv, WriterNumbers, WriterCounts, LogCounts, TimerInv, Continues, Ring.SlotsExist;
    hide Ring.ConsumerStep, Ring.CloserStep, Append, Flush, RingSafety.Inv, LocalStep, Numbered;
    if !r.ring.consumer.CDone? {
      ViewOf(r.ring);
      Calls.PopContinues(r.ring, env.choice, t.ring, r.writer.taken, false, 1);
    }
  }

  lemma DrainingKeepsCall(r: Recorder, env: Env, t: Recorder)
    requires CanStart(r.config) && r.writer.pc.WDraining?
    requires Ring.SlotsExist(r.ring) && WriterStep(r, env) == Some(t)
    requires Inv(r)
    ensures WriterCall(t.config, t.writer, t.ring.consumer, t.ring.popped)
  {
    hide SensorInv, WriterNumbers, WriterCounts, LogCounts, TimerInv, Continues, Ring.SlotsExist;
    hide Ring.ConsumerStep, Ring.CloserStep, Append, Flush, RingSafety.Inv, LocalStep, Numbered;
    if !r.ring.consumer.CDone? {
      ViewOf(r.ring);
      Calls.PopContinues(r.ring, env.choice, t.ring, r.writer.taken, true, r.config.batchSize - 1);
    }
  }

  lemma BeginningKeepsCall(r: Recorder, env: Env, t: Recorder)
    requires CanStart(r.config) && OnRing(r.writer.pc) && !r.writer.pc.WPopping? && !r.writer.pc.WDraining?
    requires Ring.SlotsExist(r.ring) && WriterStep(r, env) == Some(t)
    requires Inv(r)
    ensures WriterCall(t.config, t.writer, t.ring.consumer, t.ring.popped)
  {
    hide SensorInv, WriterNumbers, WriterCounts, LogCounts, TimerInv, Continues, Ring.SlotsExist;
    hide Ring.ConsumerStep, Ring.CloserStep, Append, Flush, RingSafety.Inv, LocalStep, Numbered;
    match r.writer.pc
    case WDrain =>
      Calls.PopBegins(r.ring, Ring.PopBatch(r.config.batchSize - 1), t.ring);
    case WArm(_, _) =>
      Calls.PopBegins(r.ring, Ring.Pop(Ring.Timed), t.ring);
    case WClosing =>
      if !(r.ring.closer.KDone? && r.ring.closed) {
        Calls.CloseLeavesOthers(r.ring, env.choice, t.ring);
        RingTheorems.CloseEffect(r.ring, env.choice, t.ring);
      }
    case WFailed =>
  }

  lemma ViewOf(s: Ring.Ring)
    requires RingSafety.Inv(s)
    ensures RingSafety.ConsumerView(s.consumer, s.head, s.tail, s.closed, Ring.InFlight(s.producer))
  {}

  lemma ReceivingKeepsNumbers(config: Config, log: Log, sequence: u64, taken: seq<Sample>, held: seq<Entry>,
                              output: seq<Sample>)
    requires sequence == (config.startSequence + |taken|) % TWO64
    requires log.entries + held == Numbered(config.startSequence, taken)
    ensures (sequence + |output|) % TWO64 == (config.startSequence + |taken + output|) % TWO64
    ensures log.entries + (held + Numbered(sequence, output)) == Numbered(config.startSequence, taken + output)
  {
    NumberedAppend(config.startSequence, taken, output);
  }

  // An append either takes the whole batch or none of it, and fails only with the
  // log marked as failed.
  lemma AppendMeaning(log: Log, batch: seq<Entry>, config: Config, io: Io)
    ensures var (after, ok) := Append(log, batch, config, io);
      && after.count == log.count && after.last == log.last
      && (after.entries == log.entries || after.entries == log.entries + batch)
      && (ok ==> after.entries == log.entries + batch)
      && (!ok ==> after.failed)
      && (ok && !log.failed ==> !after.failed)
      && (after.committed == log.committed || after.committed == |after.entries|)
      && (ok && 0 < |batch| && LogCounts(log) && log.committed <= |log.entries| ==> LogCounts(after))
      && (log.failed ==> after.failed)
  {}

  lemma FlushMeaning(log: Log, io: Io)
    ensures var (after, ok) := Flush(log, io);
      && after.count == log.count && after.last == log.last && after.entries == log.entries
      && (ok <==> !after.failed)
      && (ok && LogCounts(log) ==> after.committed == |after.entries| && after.unsynced == 0)
      && (after.committed == log.committed || after.committed == |after.entries|)
      && (log.failed ==> after == log)
      && (LogCounts(log) ==> LogCounts(after))
  {}

  lemma PoppingKeepsNumbers(r: Recorder, env: Env, t: Recorder)
    requires CanStart(r.config) && r.writer.pc.WPopping?
    requires Ring.SlotsExist(r.ring) && WriterStep(r, env) == Some(t)
    requires Inv(r)
    ensures WriterNumbers(t.config, t.writer)
  {
    hide SensorInv, WriterCounts, LogCounts, TimerInv, Continues, Ring.SlotsExist, Numbered;
    hide Ring.ConsumerStep, Ring.CloserStep, Append, Flush, RingSafety.Inv, LocalStep;
    var w := r.writer;
    if r.ring.consumer.CDone? && r.ring.consumer.popStatus.Popped? {
      assert w.log.entries + [] == w.log.entries;
      assert [] + t.writer.batch == t.writer.batch;
      ReceivingKeepsNumbers(r.config, w.log, w.sequence, w.taken, [], r.ring.consumer.output);
      PrefixStays(r.config, w.log.entries, w.taken, r.ring.consumer.output);
    }
  }

  lemma DrainingKeepsNumbers(r: Recorder, env: Env, t: Recorder)
    requires CanStart(r.config) && r.writer.pc.WDraining?
    requires Ring.SlotsExist(r.ring) && WriterStep(r, env) == Some(t)
    requires Inv(r)
    ensures WriterNumbers(t.config, t.writer)
  {
    hide SensorInv, WriterCounts, LogCounts, TimerInv, Continues, Ring.SlotsExist, Numbered;
    hide Ring.ConsumerStep, Ring.CloserStep, Append, Flush, RingSafety.Inv, LocalStep;
    var w := r.writer;
    if r.ring.consumer.CDone? {
      ReceivingKeepsNumbers(r.config, w.log, w.sequence, w.taken, w.batch, r.ring.consumer.output);
      PrefixStays(r.config, w.log.entries, w.taken, r.ring.consumer.output);
    }
  }

  lemma BeginningKeepsNumbers(r: Recorder, env: Env, t: Recorder)
    requires CanStart(r.config) && OnRing(r.writer.pc) && !r.writer.pc.WPopping? && !r.writer.pc.WDraining?
    requires Ring.SlotsExist(r.ring) && WriterStep(r, env) == Some(t)
    requires Inv(r)
    ensures WriterNumbers(t.config, t.writer)
  {
    hide SensorInv, WriterCounts, LogCounts, TimerInv, Continues, Ring.SlotsExist, Numbered;
    hide Ring.ConsumerStep, Ring.CloserStep, Append, Flush, RingSafety.Inv, LocalStep;
  }

  lemma PrefixStays(config: Config, entries: seq<Entry>, taken: seq<Sample>, output: seq<Sample>)
    requires entries <= Numbered(config.startSequence, taken)
    ensures entries <= Numbered(config.startSequence, taken + output)
  {
    NumberedAppend(config.startSequence, taken, output);
  }

  lemma AppendKeepsNumbers(r: Recorder, env: Env, t: Recorder)
    requires CanStart(r.config) && r.writer.pc.WAppend?
    requires Ring.SlotsExist(r.ring) && WriterStep(r, env) == Some(t)
    requires Inv(r)
    ensures WriterNumbers(t.config, t.writer) && Continues(t.config, t.writer.log)
  {
    hide SensorInv, WriterCounts, LogCounts, TimerInv, Ring.SlotsExist, Numbered, Append, Flush;
    hide RingSafety.Inv, WaitTime;
    AppendMeaning(r.writer.log, r.writer.batch, r.config, env.io);
  }

  lemma LocalKeepsNumbers(r: Recorder, env: Env, t: Recorder)
    requires CanStart(r.config) && !OnRing(r.writer.pc) && !r.writer.pc.WAppend?
    requires Ring.SlotsExist(r.ring) && WriterStep(r, env) == Some(t)
    requires Inv(r)
    ensures WriterNumbers(t.config, t.writer) && Continues(t.config, t.writer.log)
  {
    hide SensorInv, WriterCounts, LogCounts, TimerInv, Ring.SlotsExist, Numbered, Append, Flush;
    hide RingSafety.Inv, WaitTime;
    match r.writer.pc
    case WFlush => FlushMeaning(r.writer.log, env.io);
    case WExit => FlushMeaning(r.writer.log, env.io);
    case WTop =>
    case WFlushed =>
    case WWait =>
    case WStamp =>
    case WCount(_) =>
    case WPublish(_) =>
    case WTimer(_) =>
    case WFlagged =>
    case WPublishLast =>
    case WDone =>
  }

  // The steps on the ring change nothing the counters or the timer speak of
  // except the program counter.
  lemma RingKeepsCounts(r: Recorder, env: Env, t: Recorder)
    requires CanStart(r.config) && OnRing(r.writer.pc)
    requires Ring.SlotsExist(r.ring) && WriterStep(r, env) == Some(t)
    requires Inv(r)
    ensures WriterCounts(t.writer) && LogCounts(t.writer.log) && TimerInv(t.config, t.writer, t.clock)
    ensures Continues(t.config, t.writer.log)
  {
    hide SensorInv, Ring.SlotsExist, Numbered, WriterCall;
    hide Ring.ConsumerStep, Ring.CloserStep, Append, Flush, RingSafety.Inv, LocalStep, WaitTime;
  }

  lemma LocalKeepsCounts(r: Recorder, env: Env, t: Recorder)
    requires CanStart(r.config) && !OnRing(r.writer.pc)
    requires Ring.SlotsExist(r.ring) && WriterStep(r, env) == Some(t)
    requires Inv(r)
    ensures WriterCounts(t.writer) && LogCounts(t.writer.log)
  {
    hide SensorInv, TimerInv, Ring.SlotsExist, Numbered, WriterCall, Append, Flush, RingSafety.Inv, WaitTime;
    match r.writer.pc
    case WAppend(_) => AppendMeaning(r.writer.log, r.writer.batch, r.config, env.io);
    case WFlush => FlushMeaning(r.writer.log, env.io);
    case WExit => FlushMeaning(r.writer.log, env.io);
    case WTop =>
    case WFlushed =>
    case WWait =>
    case WStamp =>
    case WCount(_) =>
    case WPublish(_) =>
    case WTimer(_) =>
    case WFlagged =>
    case WPublishLast =>
    case WDone =>
  }

  lemma AppendKeepsTimer(r: Recorder, env: Env, t: Recorder)
    requires CanStart(r.config) && r.writer.pc.WAppend?
    requires Ring.SlotsExist(r.ring) && WriterStep(r, env) == Some(t)
    requires Inv(r)
    ensures TimerInv(t.config, t.writer, t.clock)
  {
    hide SensorInv, Ring.SlotsExist, Numbered, WriterCall, Append, Flush, RingSafety.Inv, WaitTime;
    AppendMeaning(r.writer.log, r.writer.batch, r.config, env.io);
  }

  lemma LocalKeepsTimer(r: Recorder, env: Env, t: Recorder)
    requires CanStart(r.config) && !OnRing(r.writer.pc) && !r.writer.pc.WAppend?
    requires Ring.SlotsExist(r.ring) && WriterStep(r, env) == Some(t)
    requires Inv(r)
    ensures TimerInv(t.config, t.writer, t.clock)
  {
    hide SensorInv, Ring.SlotsExist, Numbered, WriterCall, Append, Flush, RingSafety.Inv, WaitTime;
    match r.writer.pc
    case WFlush => FlushMeaning(r.writer.log, env.io);
    case WExit => FlushMeaning(r.writer.log, env.io);
    case WTop =>
    case WFlushed =>
    case WWait =>
    case WStamp =>
    case WCount(_) =>
    case WPublish(_) =>
    case WTimer(_) =>
    case WFlagged =>
    case WPublishLast =>
    case WDone =>
  }

  lemma WriterKeeps(r: Recorder, env: Env, t: Recorder)
    requires CanStart(r.config)
    requires Ring.SlotsExist(r.ring) && WriterStep(r, env) == Some(t)
    requires Inv(r)
    ensures WriterInv(t.config, t.writer, t.ring.consumer, t.ring.popped, t.clock)
  {
    hide SensorInv, WriterStep, WriterCall, WriterNumbers, WriterCounts, LogCounts, TimerInv, Continues, RingSafety.Inv;
    if r.writer.pc.WPopping? {
      PoppingKeepsCall(r, env, t);
      PoppingKeepsNumbers(r, env, t);
    } else if r.writer.pc.WDraining? {
      DrainingKeepsCall(r, env, t);
      DrainingKeepsNumbers(r, env, t);
    } else if OnRing(r.writer.pc) {
      BeginningKeepsCall(r, env, t);
      BeginningKeepsNumbers(r, env, t);
    } else {
      LocalKeepsCall(r, env, t);
    }
    if OnRing(r.writer.pc) {
      RingKeepsCounts(r, env, t);
    } else {
      LocalKeepsCounts(r, env, t);
      if r.writer.pc.WAppend? {
        AppendKeepsNumbers(r, env, t);
        AppendKeepsTimer(r, env, t);
      } else {
        LocalKeepsNumbers(r, env, t);
        LocalKeepsTimer(r, env, t);
      }
    }
  }

  lemma StopKeepsWriter(r: Recorder, env: Env, t: Recorder)
    requires StopStep(r, env) == Some(t)
    requires Inv(r)
    ensures t.config == r.config
    ensures WriterInv(t.config, t.writer, t.ring.consumer, t.ring.popped, t.clock)
  {
    hide SensorInv, RingSafety.Inv, Flush, Ring.CloserStep, WaitTime, Numbered, OldestDue;
    FlushMeaning(r.writer.log, env.io);
    forall ring | Ring.CloserStep(r.ring, env.choice) == Some(ring)
      ensures ring.popped == r.ring.popped && WokenConsumer(r.ring.consumer, ring.consumer)
    {
      Calls.CloseLeavesOthers(r.ring, env.choice, ring);
      RingTheorems.CloseEffect(r.ring, env.choice, ring);
    }
  }

  lemma TickKeepsWriter(r: Recorder)
    requires Inv(r)
    ensures WriterInv(r.config, r.writer, r.ring.consumer, r.ring.popped, r.clock + 1)
  {}

  // ---------- The ring inside the recorder ----------

  // Every step is no step of the ring or one step of one of its threads.
  lemma RingTakesItsSteps(r: Recorder, thread: Thread, env: Env, t: Recorder)
    requires CanStart(r.config)
    requires Ring.SlotsExist(r.ring) && Step(r, thread, env) == Some(t)
    ensures t.ring == r.ring || exists on, choice :: Ring.Step(r.ring, on, choice) == Some(t.ring)
    ensures t.config == r.config
  {
    hide Ring.ProducerStep, Ring.ConsumerStep, Ring.CloserStep, Ring.SlotsExist, LocalStep;
    if t.ring != r.ring {
      match thread
      case TheSensor =>
        var choice :| Ring.ProducerStep(r.ring, choice) == Some(t.ring);
        assert Ring.Step(r.ring, Ring.TheProducer, choice) == Some(t.ring);
      case TheWriter =>
        if r.writer.pc.WClosing? {
          assert Ring.Step(r.ring, Ring.TheCloser, env.choice) == Some(t.ring);
        } else {
          var choice :| Ring.ConsumerStep(r.ring, choice) == Some(t.ring);
          assert Ring.Step(r.ring, Ring.TheConsumer, choice) == Some(t.ring);
        }
      case TheStopper =>
        assert Ring.Step(r.ring, Ring.TheCloser, env.choice) == Some(t.ring);
    }
  }

  lemma StepKeepsInv(r: Recorder, thread: Thread, env: Env, t: Recorder)
    requires CanStart(r.config)
    requires Ring.SlotsExist(r.ring) && Step(r, thread, env) == Some(t)
    requires Inv(r)
    ensures Inv(t)
  {
    hide RingSafety.Inv, SensorInv, WriterInv, Ring.Step, Ring.SlotsExist, SensorStep, WriterStep, StopStep;
    RingTakesItsSteps(r, thread, env, t);
    if t.ring != r.ring {
      var on, choice :| Ring.Step(r.ring, on, choice) == Some(t.ring);
      RingSafety.StepKeepsInv(r.ring, on, choice, t.ring);
    }
    match thread
    case TheSensor =>
      SensorKeeps(r, env, t);
      SensorKeepsWriter(r, env, t);
    case TheWriter =>
      OthersKeepSensor(r, thread, env, t);
      WriterKeeps(r, env, t);
    case TheStopper =>
      OthersKeepSensor(r, thread, env, t);
      StopKeepsWriter(r, env, t);
    case TheClock =>
      TickKeepsWriter(r);
  }

  lemma SensorStarts()
    ensures SensorInv(Sensor(STop, false, 0, 0, 0, []), Ring.PIdle, [])
  {}

  lemma WriterStarts(config: Config, clock: nat, count: nat, last: u64)
    requires count != 0 ==> last == config.startSequence
    ensures WriterInv(config, Started(config, [], clock, count, last).writer, Ring.CIdle, [], clock)
  {
    assert Numbered(config.startSequence, []) == [];
  }

  lemma StartHolds(config: Config, storage: seq<Sample>, clock: nat, count: nat, last: u64)
    requires CanStart(config) && |storage| == config.bufferSize
    requires count != 0 ==> last == config.startSequence
    ensures Inv(Started(config, storage, clock, count, last))
  {
    hide RingSafety.Inv, SensorInv, WriterInv;
    RingSafety.StartHolds(config.bufferSize, storage);
    SensorStarts();
    WriterStarts(config, clock, count, last);
  }
}
