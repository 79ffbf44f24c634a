/**
 The recorder as three threads over one ring: the sensor loop that pushes samples,
 the writer loop that drains them into the log in numbered batches, and the caller
 of stop().  Ring operations are the small steps of RingProtocol; every access to
 a variable another thread can see is a step of its own.
 */
module Pipeline {
  import opened Basics
  import opened Bytes
  import opened LogFormat
  import opened LogImage
  import Ring = RingProtocol

  type Sample = FlightRecord

  // Times are in nanoseconds.
  const MAX_WAIT: nat := 250_000_000
  const OVERRUN_BIT: u32 := 16

  // flushInterval 0 disables the commit timer; startSequence is the last sequence
  // number already in use.
  datatype Config = Config(
    bufferSize: nat, batchSize: nat, syncEveryBatches: nat, flushInterval: nat, startSequence: u64)

  // ---------- The sample's overrun bit ----------

  predicate Overrun(sample: Sample) { sample.systemStatus / OVERRUN_BIT % 2 == 1 }

  lemma BitSet(high: nat, low: nat, bit: nat)
    requires low < OVERRUN_BIT && bit < 2
    ensures var status := high * 32 + bit * OVERRUN_BIT + low;
      status / OVERRUN_BIT % 2 == bit && status / 32 == high && status % OVERRUN_BIT == low
  {
    assert (high * 32 + bit * OVERRUN_BIT + low) / OVERRUN_BIT == high * 2 + bit;
  }

  // The simulator's sample; its other status bits and readings are the
  // environment's.
  function NextSample(reading: Sample, overrun: bool): (sample: Sample)
    ensures Overrun(sample) <==> overrun
    ensures sample == reading.(systemStatus := sample.systemStatus)
    ensures sample.systemStatus % OVERRUN_BIT == reading.systemStatus % OVERRUN_BIT
    ensures sample.systemStatus / 32 == reading.systemStatus / 32
  {
    var status := reading.systemStatus;
    var bit := if overrun then 1 else 0;
    BitSet(status / 32, status % OVERRUN_BIT, bit);
    reading.(systemStatus := status / 32 * 32 + bit * OVERRUN_BIT + status % OVERRUN_BIT)
  }

  // ---------- The log as the writer loop sees it ----------

  // Whether the writes and syncs of one call succeed
  datatype Io = Fine | WriteFails | CommitFails

  // entries are this session's; the log held count entries before, the last
  // numbered last.
  datatype Log = Log(count: nat, last: u64, entries: seq<Entry>, committed: nat, unsynced: nat, failed: bool)

  function LastSequence(log: Log): u64 {
    if |log.entries| == 0 then log.last else log.entries[|log.entries| - 1].sequence
  }

  // The batch continues the log.
  predicate Follows(log: Log, batch: seq<Entry>) {
    && Successive(batch)
    && (log.count + |log.entries| != 0 && |batch| > 0 ==> batch[0].sequence == (LastSequence(log) + 1) % TWO64)
  }

  function Flush(log: Log, io: Io): (Log, bool) {
    if log.failed then (log, false)
    else if log.unsynced == 0 then (log, true)
    else if io != Fine then (log.(failed := true), false)
    else (log.(committed := |log.entries|, unsynced := 0), true)
  }

  function Append(log: Log, batch: seq<Entry>, config: Config, io: Io): (Log, bool) {
    if |batch| == 0 || |batch| > config.batchSize || !Follows(log, batch) || io == WriteFails then
      (log.(failed := true), false)
    else
      var written := log.(entries := log.entries + batch, unsynced := log.unsynced + 1);
      if written.unsynced >= config.syncEveryBatches then Flush(written, io) else (written, true)
  }

  // Consecutive numbers after sequence, wrapping at 64 bits as fetch_add does
  function Numbered(sequence: u64, samples: seq<Sample>): (es: seq<Entry>)
    ensures |es| == |samples|
  {
    seq(|samples|, i requires 0 <= i < |samples| => Entry((sequence + 1 + i) % TWO64, samples[i]))
  }

  // ---------- State ----------

  datatype SensorPc =
    | STop                            // before loading stop_requested_
    | SSnapshot                       // before taking the overflow flag
    | SSample(overrun: bool)          // before the next sample
    | SPushing(sample: Sample)        // inside push_wait_for
    | SCount                          // pushed; before counting it
    | SHigh                           // before raising the buffer high watermark
    | SCountDropped                   // timed out; before counting it
    | SDrop                           // before counting the drop
    | SFlag                           // before setting the overflow flag
    | SStopped

  datatype Outcome = Outcome(sample: Sample, pushed: bool)

  datatype Sensor = Sensor(
    pc: SensorPc, overflow: bool, generated: nat, dropped: nat, bufferHigh: int,
    outcomes: seq<Outcome>)           // every push that ended other than Closed

  datatype WriterPc =
    | WTop                            // before testing the commit deadline
    | WFlush                          // the commit is due
    | WFlushed                        // before publishing what is committed
    | WWait                           // before choosing how long to wait
    | WArm(wait: nat, readAt: nat)    // before pop_wait_for reads the clock
    | WPopping(until: nat, wait: nat) // inside pop_wait_for
    | WDrain                          // before try_pop_batch
    | WDraining                       // inside try_pop_batch
    | WStamp                          // before noting the batch's start
    | WAppend(started: nat)           // before append_batch
    | WCount(started: nat)            // before counting what was written
    | WPublish(started: nat)          // before publishing what is committed
    | WTimer(started: nat)            // before setting the timer
    | WFailed                         // before requesting a stop
    | WFlagged                        // before setting the error flag
    | WClosing                        // inside close
    | WExit                           // before the last flush
    | WPublishLast
    | WDone

  datatype Writer = Writer(
    pc: WriterPc, sequence: u64, written: nat, committed: nat, pending: bool, deadline: nat,
    batch: seq<Entry>, log: Log, error: bool,
    taken: seq<Sample>,               // every sample its pops have returned
    starts: seq<nat>,                 // when the batch of each log entry was started
    seen: nat)                        // the ring's tail when its last pop loaded it

  datatype StopPc = TIdle | TJoinSensor | TClosing | TJoinWriter | TDone

  datatype Recorder = Recorder(
    config: Config, clock: nat, ring: Ring.Ring, stopRequested: bool,
    sensor: Sensor, writer: Writer, stop: StopPc)

  // What the environment decides at a step
  datatype Env = Env(choice: Ring.Choice, reading: Sample, io: Io)

  // As start() leaves it: the log is open with count entries up to last
  function Started(config: Config, storage: seq<Sample>, clock: nat, count: nat, last: u64): Recorder {
    Recorder(config, clock, Ring.Empty(config.bufferSize, storage), false,
             Sensor(STop, false, 0, 0, 0, []),
             Writer(WTop, config.startSequence, 0, 0, false, 0, [], Log(count, last, [], 0, 0, false), false, [], [],
                    0),
             TIdle)
  }

  // start() refuses these configurations
  predicate CanStart(config: Config) {
    config.bufferSize > 0 && config.batchSize > 0 && config.syncEveryBatches > 0
  }

  // ---------- The sensor loop ----------

  function SensorStep(r: Recorder, env: Env): Option<Recorder>
    requires Ring.SlotsExist(r.ring)
  {
    var s := r.sensor;
    match s.pc
    case STop =>
      Some(r.(sensor := s.(pc := if r.stopRequested then SStopped else SSnapshot)))
    case SSnapshot =>
      Some(r.(sensor := s.(pc := SSample(s.overflow), overflow := false)))
    case SSample(overrun) =>
      var sample := NextSample(env.reading, overrun);
      var begun := Ring.ProducerStep(r.ring, Ring.Push(sample, Ring.Timed));
      if begun.None? then None else Some(r.(ring := begun.value, sensor := s.(pc := SPushing(sample))))
    case SPushing(sample) =>
      if !r.ring.producer.PDone? then
        var next := Ring.ProducerStep(r.ring, env.choice);
        if next.None? then None else Some(r.(ring := next.value))
      else
        (match r.ring.producer.pushStatus
         case Pushed => Some(r.(sensor := s.(pc := SCount, outcomes := s.outcomes + [Outcome(sample, true)])))
         case PushTimeout => Some(r.(sensor := s.(pc := SCountDropped,
                                                  outcomes := s.outcomes + [Outcome(sample, false)])))
         case PushClosed => Some(r.(sensor := s.(pc := SStopped))))
    case SCount =>
      Some(r.(sensor := s.(pc := SHigh, generated := s.generated + 1)))
    case SHigh =>
      Some(r.(sensor := s.(pc := STop, bufferHigh := Max(s.bufferHigh, r.ring.highWatermark))))
    case SCountDropped =>
      Some(r.(sensor := s.(pc := SDrop, generated := s.generated + 1)))
    case SDrop =>
      Some(r.(sensor := s.(pc := SFlag, dropped := s.dropped + 1)))
    case SFlag =>
      Some(r.(sensor := s.(pc := STop, overflow := true)))
    case SStopped => None
  }

  // ---------- The writer loop ----------

  function WriterStep(r: Recorder, env: Env): Option<Recorder>
    requires CanStart(r.config) && Ring.SlotsExist(r.ring)
  {
    match r.writer.pc
    case WPopping(_, _) => PoppingStep(r, env)
    case WDrain => BeginPop(r, Ring.PopBatch(r.config.batchSize - 1), r.writer.(pc := WDraining))
    case WDraining => DrainingStep(r, env)
    case WArm(wait, _) =>
      BeginPop(r, Ring.Pop(Ring.Timed), r.writer.(pc := WPopping(r.clock + wait, wait)))
    case WFailed => Some(r.(stopRequested := true, writer := r.writer.(pc := WFlagged)))
    case WClosing =>
      if r.ring.closer.KDone? && r.ring.closed then Some(r.(writer := r.writer.(pc := WExit)))
      else CloseRing(r, env)
    case WDone => None
    case _ => Some(r.(writer := LocalStep(r, env.io)))
  }

  // The steps that touch neither the ring nor the stop request
  function LocalStep(r: Recorder, io: Io): Writer {
    var w := r.writer;
    match w.pc
    case WTop => w.(pc := if w.pending && r.clock >= w.deadline then WFlush else WWait)
    case WFlush =>
      var (log, ok) := Flush(w.log, io);
      w.(log := log, pc := if ok then WFlushed else WFailed)
    case WFlushed => w.(committed := w.log.committed, pending := false, pc := WWait)
    case WWait => w.(pc := WArm(WaitTime(w.pending, w.deadline, r.clock), r.clock))
    case WStamp => w.(pc := WAppend(r.clock))
    case WAppend(started) =>
      var (log, ok) := Append(w.log, w.batch, r.config, io);
      w.(log := log, pc := if ok then WCount(started) else WFailed,
         starts := w.starts + seq(|log.entries| - |w.log.entries|, _ => started))
    case WCount(started) => w.(written := w.written + |w.batch|, batch := [], pc := WPublish(started))
    case WPublish(started) => w.(committed := w.log.committed, pc := WTimer(started))
    case WTimer(started) =>
      if |w.log.entries| == w.log.committed then w.(pending := false, pc := WTop)
      else if r.config.flushInterval != 0 && !w.pending then
        w.(deadline := started + r.config.flushInterval, pending := true, pc := WTop)
      else w.(pc := WTop)
    case WFlagged => w.(error := true, pc := WClosing)
    case WExit =>
      var (log, ok) := Flush(w.log, io);
      w.(log := log, error := w.error || !ok, pc := WPublishLast)
    case WPublishLast => w.(committed := w.log.committed, pc := WDone)
    case _ => w
  }

  function WaitTime(pending: bool, deadline: nat, now: nat): nat {
    if !pending then MAX_WAIT
    else if deadline <= now then 0
    else if deadline - now < MAX_WAIT then deadline - now else MAX_WAIT
  }

  function BeginPop(r: Recorder, call: Ring.Choice, w: Writer): Option<Recorder>
    requires Ring.SlotsExist(r.ring)
  {
    var begun := Ring.ConsumerStep(r.ring, call);
    if begun.None? then None else Some(r.(ring := begun.value, writer := w))
  }

  // Inside a pop: the ring's next operation.  A sleeper's deadline passes only
  // when the clock has reached it.
  function InsidePop(r: Recorder, env: Env, until: nat, w: Writer): Option<Recorder>
    requires Ring.SlotsExist(r.ring)
  {
    if env.choice.Expire? && r.clock < until then None
    else
      var next := Ring.ConsumerStep(r.ring, env.choice);
      if next.None? then None else Some(r.(ring := next.value, writer := w))
  }

  function PoppingStep(r: Recorder, env: Env): Option<Recorder>
    requires Ring.SlotsExist(r.ring) && r.writer.pc.WPopping?
  {
    var w := r.writer;
    var c := r.ring.consumer;
    if !c.CDone? then InsidePop(r, env, w.pc.until, if c.CStart? then w.(seen := r.ring.tail) else w)
    else match c.popStatus
      case PopTimeout => Some(r.(writer := w.(pc := WTop)))
      case PopClosed => Some(r.(writer := w.(pc := WExit)))
      case Popped =>
        Some(r.(writer := w.(pc := WDrain, batch := Numbered(w.sequence, c.output),
                             sequence := (w.sequence + |c.output|) % TWO64, taken := w.taken + c.output)))
  }

  function DrainingStep(r: Recorder, env: Env): Option<Recorder>
    requires Ring.SlotsExist(r.ring)
  {
    var w := r.writer;
    var c := r.ring.consumer;
    if !c.CDone? then InsidePop(r, env, 0, w)
    else Some(r.(writer := w.(pc := WStamp, batch := w.batch + Numbered(w.sequence, c.output),
                              sequence := (w.sequence + |c.output|) % TWO64, taken := w.taken + c.output)))
  }

  // An operation of close(), whoever called it
  function CloseRing(r: Recorder, env: Env): Option<Recorder> {
    var next := Ring.CloserStep(r.ring, env.choice);
    if next.None? then None else Some(r.(ring := next.value))
  }

  // ---------- stop() ----------

  function StopStep(r: Recorder, env: Env): Option<Recorder> {
    match r.stop
    case TIdle => Some(r.(stopRequested := true, stop := TJoinSensor))
    case TJoinSensor => if r.sensor.pc == SStopped then Some(r.(stop := TClosing)) else None
    case TClosing =>
      if r.ring.closer.KDone? && r.ring.closed then Some(r.(stop := TJoinWriter)) else CloseRing(r, env)
    case TJoinWriter =>
      if r.writer.pc == WDone then
        Some(r.(stop := TDone, writer := r.writer.(log := Flush(r.writer.log, env.io).0)))
      else None
    case TDone => None
  }

  datatype Thread = TheSensor | TheWriter | TheStopper | TheClock

  function Step(r: Recorder, thread: Thread, env: Env): Option<Recorder>
    requires CanStart(r.config) && Ring.SlotsExist(r.ring)
  {
    match thread
    case TheSensor => SensorStep(r, env)
    case TheWriter => WriterStep(r, env)
    case TheStopper => StopStep(r, env)
    case TheClock => Some(r.(clock := r.clock + 1))
  }
}
