/**
 Two runs of the recorder, step by step: one in which stop() returns with a sample
 left in the ring, and one in which a commit wait outlasts its deadline.
 */
module PipelineWitness {
  import opened Basics
  import opened Bytes
  import opened LogFormat
  import opened LogImage
  import opened Pipeline
  import opened PipelineSafety
  import opened PipelineTheorems
  import Ring = RingProtocol

  // One slot, batches of one record, a commit every two batches or after 1 ns
  const ONE_SLOT := Config(1, 1, 2, 1, 0)

  // ---------- Single moves ----------

  lemma SensorMoves(r: Recorder, env: Env, t: Recorder)
    requires CanStart(r.config) && Ring.SlotsExist(r.ring) && SensorStep(r, env) == Some(t)
    requires Reachable(r)
    ensures Reachable(t)
  {
    hide Reachable, SensorStep, Ring.SlotsExist;
    StepIsReachable(r, TheSensor, env, t);
  }

  lemma WriterMoves(r: Recorder, env: Env, t: Recorder)
    requires CanStart(r.config) && Ring.SlotsExist(r.ring) && WriterStep(r, env) == Some(t)
    requires Reachable(r)
    ensures Reachable(t)
  {
    hide Reachable, WriterStep, Ring.SlotsExist;
    StepIsReachable(r, TheWriter, env, t);
  }

  lemma StopMoves(r: Recorder, env: Env, t: Recorder)
    requires CanStart(r.config) && Ring.SlotsExist(r.ring) && StopStep(r, env) == Some(t)
    requires Reachable(r)
    ensures Reachable(t)
  {
    hide Reachable, StopStep, Ring.SlotsExist;
    StepIsReachable(r, TheStopper, env, t);
  }

  // The next operation of the push that the sensor is in
  lemma SensorOnRing(r: Recorder, choice: Ring.Choice, ring: Ring.Ring, reading: Sample)
    requires CanStart(r.config) && r.sensor.pc.SPushing? && !r.ring.producer.PDone?
    requires Ring.SlotsExist(r.ring) && Ring.ProducerStep(r.ring, choice) == Some(ring)
    requires Reachable(r)
    ensures Reachable(r.(ring := ring))
  {
    hide Reachable, Ring.ProducerStep, Ring.SlotsExist;
    SensorMoves(r, Env(choice, reading, Fine), r.(ring := ring));
  }

  // The next operation of the pop that the writer is in
  lemma WriterOnRing(r: Recorder, t: Recorder, reading: Sample)
    requires CanStart(r.config) && r.writer.pc.WPopping? && !r.ring.consumer.CDone?
    requires r.ring.consumer.CStart? ==> r.ring.tail == r.writer.seen
    requires Ring.SlotsExist(r.ring) && Ring.ConsumerStep(r.ring, Ring.Go) == Some(t.ring)
    requires t == r.(ring := t.ring)
    requires Reachable(r)
    ensures Reachable(t)
  {
    hide Reachable, Ring.ConsumerStep, Ring.SlotsExist;
    WriterMoves(r, Env(Ring.Go, reading, Fine), t);
  }

  // The operation in which that pop loads tail
  lemma WriterLoads(r: Recorder, t: Recorder, reading: Sample)
    requires CanStart(r.config) && r.writer.pc.WPopping? && r.ring.consumer.CStart?
    requires Ring.SlotsExist(r.ring) && Ring.ConsumerStep(r.ring, Ring.Go) == Some(t.ring)
    requires t == r.(ring := t.ring, writer := r.writer.(seen := r.ring.tail))
    requires Reachable(r)
    ensures Reachable(t)
  {
    hide Reachable, Ring.ConsumerStep, Ring.SlotsExist;
    WriterMoves(r, Env(Ring.Go, reading, Fine), t);
  }

  // ---------- One sample is pushed ----------

  // The sample of a reading
  function Made(reading: Sample): Sample { NextSample(reading, false) }

  // Just started, but for where the writer and its pop are
  function Before(reading: Sample, w: Writer, c: Ring.Consumer): Recorder {
    var r := Started(ONE_SLOT, [Made(reading)], 0, 0, 0);
    r.(writer := w, ring := r.ring.(consumer := c))
  }

  function FirstWriter(): Writer {
    Writer(WTop, 0, 0, 0, false, 0, [], Log(0, 0, [], 0, 0, false), false, [], [], 0)
  }

  // The sensor is at the start of its push.
  function Pushing(reading: Sample, w: Writer, c: Ring.Consumer): Recorder {
    var r := Before(reading, w, c);
    r.(sensor := r.sensor.(pc := SPushing(Made(reading))),
       ring := r.ring.(producer := Ring.PStart(Made(reading), Ring.Timed)))
  }

  // It has found room.
  function Loaded(reading: Sample, w: Writer, c: Ring.Consumer): Recorder {
    var r := Pushing(reading, w, c);
    r.(ring := r.ring.(producer := Ring.PLoaded(Made(reading), Ring.Timed, 0)))
  }

  // The sensor has published its sample and still holds the mutex.
  function Published(reading: Sample, w: Writer, c: Ring.Consumer): Recorder {
    var r := Before(reading, w, c);
    r.(sensor := r.sensor.(pc := SPushing(Made(reading))),
       ring := r.ring.(owner := Ring.ByProducer, tail := 1, producer := Ring.PPublished(0), pushed := [Made(reading)],
                       peak := 1))
  }

  // The push has returned.
  function Returned(reading: Sample, w: Writer, c: Ring.Consumer): Recorder {
    var r := Before(reading, w, c);
    r.(sensor := r.sensor.(pc := SPushing(Made(reading))),
       ring := r.ring.(tail := 1, highWatermark := 1, producer := Ring.PDone(Ring.Pushed), pushed := [Made(reading)],
                       peak := 1))
  }

  // It is counted.
  function After(reading: Sample, w: Writer, c: Ring.Consumer): Recorder {
    var r := Before(reading, w, c);
    r.(sensor := Sensor(STop, false, 1, 0, 1, [Outcome(Made(reading), true)]),
       ring := r.ring.(tail := 1, highWatermark := 1, producer := Ring.PDone(Ring.Pushed), pushed := [Made(reading)],
                       peak := 1))
  }

  lemma SensorBegins(reading: Sample, w: Writer, c: Ring.Consumer)
    requires c.CIdle? || c.CEmpty?
    requires Reachable(Before(reading, w, c))
    ensures Reachable(Pushing(reading, w, c))
  {
    hide Reachable, NextSample;
    var x := Made(reading);
    var r1 := Before(reading, w, c).(sensor := Before(reading, w, c).sensor.(pc := SSnapshot));
    SensorMoves(Before(reading, w, c), Env(Ring.Go, reading, Fine), r1);
    var r2 := r1.(sensor := r1.sensor.(pc := SSample(false)));
    SensorMoves(r1, Env(Ring.Go, reading, Fine), r2);
    var r3 := r2.(ring := r2.ring.(producer := Ring.PStart(x, Ring.Timed)), sensor := r2.sensor.(pc := SPushing(x)));
    SensorMoves(r2, Env(Ring.Go, reading, Fine), r3);
  }

  lemma SensorLoads(reading: Sample, w: Writer, c: Ring.Consumer)
    requires c.CIdle? || c.CEmpty?
    requires Reachable(Before(reading, w, c))
    ensures Reachable(Loaded(reading, w, c))
  {
    hide Reachable, NextSample, SensorStep;
    var x := Made(reading);
    SensorBegins(reading, w, c);
    var r3 := Pushing(reading, w, c);
    var r4 := r3.(ring := r3.ring.(producer := Ring.PChecked(x, Ring.Timed)));
    SensorOnRing(r3, Ring.Go, r4.ring, reading);
    var r5 := r4.(ring := r4.ring.(producer := Ring.PLoaded(x, Ring.Timed, 0)));
    SensorOnRing(r4, Ring.Go, r5.ring, reading);
  }

  lemma SensorPublishes(reading: Sample, w: Writer, c: Ring.Consumer)
    requires c.CIdle? || c.CEmpty?
    requires Reachable(Before(reading, w, c))
    ensures Reachable(Published(reading, w, c))
  {
    hide Reachable, NextSample, SensorStep;
    var x := Made(reading);
    SensorLoads(reading, w, c);
    var r5 := Loaded(reading, w, c);
    assert r5.ring.storage[0 := x] == [x];
    var r6 := r5.(ring := r5.ring.(producer := Ring.PWritten(x, 0)));
    SensorOnRing(r5, Ring.Go, r6.ring, reading);
    var r7 := r6.(ring := r6.ring.(owner := Ring.ByProducer, producer := Ring.PLocked(x, 0)));
    SensorOnRing(r6, Ring.Go, r7.ring, reading);
    assert r7.ring.pushed + [x] == [x];
    var r8 := r7.(ring := r7.ring.(tail := 1, producer := Ring.PPublished(0), pushed := [x], peak := 1));
    SensorOnRing(r7, Ring.Go, r8.ring, reading);
  }

  lemma SensorReturns(reading: Sample, w: Writer, c: Ring.Consumer)
    requires c.CIdle? || c.CEmpty?
    requires Reachable(Before(reading, w, c))
    ensures Reachable(Returned(reading, w, c))
  {
    hide Reachable, NextSample, SensorStep;
    var x := Made(reading);
    SensorPublishes(reading, w, c);
    var r0 := Published(reading, w, c);
    var r1 := r0.(ring := r0.ring.(owner := Ring.Free, producer := Ring.PUnlocked(0)));
    SensorOnRing(r0, Ring.Go, r1.ring, reading);
    var r2 := r1.(ring := r1.ring.(producer := Ring.PMark(0, 0)));
    SensorOnRing(r1, Ring.Go, r2.ring, reading);
    var r3 := r2.(ring := r2.ring.(highWatermark := 1, producer := Ring.PNotify));
    SensorOnRing(r2, Ring.Go, r3.ring, reading);
    var r4 := r3.(ring := r3.ring.(producer := Ring.PDone(Ring.Pushed)));
    SensorOnRing(r3, Ring.Go, r4.ring, reading);
  }

  lemma SensorCounts(reading: Sample, w: Writer, c: Ring.Consumer)
    requires c.CIdle? || c.CEmpty?
    requires Reachable(Before(reading, w, c))
    ensures Reachable(After(reading, w, c))
  {
    hide Reachable, NextSample;
    var x := Made(reading);
    SensorReturns(reading, w, c);
    var r4 := Returned(reading, w, c);
    assert r4.sensor.outcomes + [Outcome(x, true)] == [Outcome(x, true)];
    var r5 := r4.(sensor := r4.sensor.(pc := SCount, outcomes := [Outcome(x, true)]));
    SensorMoves(r4, Env(Ring.Go, reading, Fine), r5);
    var r6 := r5.(sensor := r5.sensor.(pc := SHigh, generated := 1));
    SensorMoves(r5, Env(Ring.Go, reading, Fine), r6);
    var r7 := r6.(sensor := r6.sensor.(pc := STop, bufferHigh := 1));
    SensorMoves(r6, Env(Ring.Go, reading, Fine), r7);
  }

  // ---------- A sample is left behind ----------

  // The writer's first pop has loaded tail, found the ring empty, and not yet loaded
  // closed_.
  function LateWriter(): Writer { FirstWriter().(pc := WPopping(MAX_WAIT, MAX_WAIT)) }

  function LatePop(): Ring.Consumer { Ring.CEmpty(Ring.Timed, 0, false) }

  lemma WriterFindsNothing(reading: Sample)
    ensures Reachable(Before(reading, LateWriter(), LatePop()))
  {
    hide Reachable, NextSample;
    StartIsReachable(ONE_SLOT, [Made(reading)], 0, 0, 0);
    var r0 := Before(reading, FirstWriter(), Ring.CIdle);
    var r1 := r0.(writer := r0.writer.(pc := WWait));
    WriterMoves(r0, Env(Ring.Go, reading, Fine), r1);
    var r2 := r1.(writer := r1.writer.(pc := WArm(MAX_WAIT, 0)));
    WriterMoves(r1, Env(Ring.Go, reading, Fine), r2);
    var r3 := r2.(ring := r2.ring.(consumer := Ring.CStart(Ring.Timed)),
                  writer := r2.writer.(pc := WPopping(MAX_WAIT, MAX_WAIT)));
    WriterMoves(r2, Env(Ring.Go, reading, Fine), r3);
    var r4 := r3.(ring := r3.ring.(consumer := Ring.CLoaded(Ring.Timed, 0, false)));
    WriterOnRing(r3, r4, reading);
    var r5 := r4.(ring := r4.ring.(consumer := Ring.CEmpty(Ring.Timed, 0, false)));
    WriterOnRing(r4, r5, reading);
  }

  // Then the sensor pushes and stop() joins it and closes the ring.
  function Closed(reading: Sample): Recorder {
    var r := After(reading, LateWriter(), LatePop());
    r.(stopRequested := true, stop := TJoinWriter, sensor := r.sensor.(pc := SStopped),
       ring := r.ring.(closed := true, closer := Ring.KDone))
  }

  lemma StopCloses(reading: Sample)
    ensures Reachable(Closed(reading))
  {
    hide Reachable, NextSample;
    WriterFindsNothing(reading);
    SensorCounts(reading, LateWriter(), LatePop());
    var r1 := After(reading, LateWriter(), LatePop()).(stopRequested := true, stop := TJoinSensor);
    StopMoves(After(reading, LateWriter(), LatePop()), Env(Ring.Go, reading, Fine), r1);
    var r2 := r1.(sensor := r1.sensor.(pc := SStopped));
    SensorMoves(r1, Env(Ring.Go, reading, Fine), r2);
    var r3 := r2.(stop := TClosing);
    StopMoves(r2, Env(Ring.Go, reading, Fine), r3);
    var r4 := r3.(ring := r3.ring.(owner := Ring.ByCloser, closer := Ring.KLocked));
    StopMoves(r3, Env(Ring.Close, reading, Fine), r4);
    var r5 := r4.(ring := r4.ring.(closed := true, closer := Ring.KStored));
    StopMoves(r4, Env(Ring.Go, reading, Fine), r5);
    var r6 := r5.(ring := r5.ring.(owner := Ring.Free, closer := Ring.KNotifyData));
    StopMoves(r5, Env(Ring.Go, reading, Fine), r6);
    var r7 := r6.(ring := r6.ring.(closer := Ring.KNotifySpace));
    StopMoves(r6, Env(Ring.Go, reading, Fine), r7);
    var r8 := r7.(ring := r7.ring.(closer := Ring.KDone));
    StopMoves(r7, Env(Ring.Go, reading, Fine), r8);
    var r9 := r8.(stop := TJoinWriter);
    StopMoves(r8, Env(Ring.Go, reading, Fine), r9);
  }

  // The writer's pop reports Closed.
  function Told(reading: Sample): Recorder {
    var r := Closed(reading);
    r.(ring := r.ring.(consumer := Ring.CDone(Ring.PopClosed, [], false)), writer := r.writer.(pc := WExit))
  }

  lemma WriterIsTold(reading: Sample)
    ensures Reachable(Told(reading))
  {
    hide Reachable, NextSample, LocalStep;
    StopCloses(reading);
    var r := Closed(reading);
    var r1 := r.(ring := r.ring.(consumer := Ring.CDone(Ring.PopClosed, [], false)));
    WriterOnRing(r, r1, reading);
    WriterMoves(r1, Env(Ring.Go, reading, Fine), Told(reading));
  }

  // stop() returns without failure, the one sample generated is neither dropped nor
  // written, and it is still in the ring.
  lemma StopMayLeaveSample(reading: Sample) returns (r: Recorder)
    ensures Reachable(r) && r.stop == TDone && Sound(r.writer) && !r.writer.error
    ensures r.sensor.generated == 1 && r.sensor.dropped == 0
    ensures r.writer.written == 0 && r.writer.log.entries == []
    ensures r.ring.tail - r.ring.head == 1 && r.ring.pushed == [NextSample(reading, false)]
  {
    hide Reachable, NextSample, Ring.ConsumerStep;
    WriterIsTold(reading);
    var r1 := Told(reading).(writer := LateWriter().(pc := WPublishLast));
    WriterMoves(Told(reading), Env(Ring.Go, reading, Fine), r1);
    var r2 := r1.(writer := LateWriter().(pc := WDone));
    WriterMoves(r1, Env(Ring.Go, reading, Fine), r2);
    r := r2.(stop := TDone);
    StopMoves(r2, Env(Ring.Go, reading, Fine), r);
  }

  // ---------- A wait outlasts its deadline ----------

  // The writer has taken the sample and still holds the mutex.
  function Popped(reading: Sample): Recorder {
    var x := Made(reading);
    var r := After(reading, FirstWriter().(pc := WPopping(MAX_WAIT, MAX_WAIT), seen := 1), Ring.CPublished([x]));
    r.(ring := r.ring.(head := 1, popped := [x], owner := Ring.ByConsumer))
  }

  // It is about to append it.
  function Appending(reading: Sample): Recorder {
    var x := Made(reading);
    var w := FirstWriter().(pc := WAppend(0), sequence := 1, batch := [Entry(1, x)], taken := [x], seen := 1);
    var r := After(reading, w, Ring.CDone(Ring.Popped, [], false));
    r.(ring := r.ring.(head := 1, popped := [x]))
  }

  lemma WriterPops(reading: Sample)
    ensures Reachable(Popped(reading))
  {
    hide Reachable, NextSample;
    var x := Made(reading);
    StartIsReachable(ONE_SLOT, [x], 0, 0, 0);
    SensorCounts(reading, FirstWriter(), Ring.CIdle);
    var r0 := After(reading, FirstWriter(), Ring.CIdle);
    var r1 := r0.(writer := r0.writer.(pc := WWait));
    WriterMoves(r0, Env(Ring.Go, reading, Fine), r1);
    var r2 := r1.(writer := r1.writer.(pc := WArm(MAX_WAIT, 0)));
    WriterMoves(r1, Env(Ring.Go, reading, Fine), r2);
    var r3 := r2.(ring := r2.ring.(consumer := Ring.CStart(Ring.Timed)),
                  writer := r2.writer.(pc := WPopping(MAX_WAIT, MAX_WAIT)));
    WriterMoves(r2, Env(Ring.Go, reading, Fine), r3);
    var r4 := r3.(ring := r3.ring.(consumer := Ring.CLoaded(Ring.Timed, 1, false)), writer := r3.writer.(seen := 1));
    WriterLoads(r3, r4, reading);
    var r5 := r4.(ring := r4.ring.(consumer := Ring.CCopying(1, [])));
    WriterOnRing(r4, r5, reading);
    assert [] + [r5.ring.storage[0]] == [x];
    var r6 := r5.(ring := r5.ring.(consumer := Ring.CCopying(1, [x])));
    WriterOnRing(r5, r6, reading);
    var r7 := r6.(ring := r6.ring.(owner := Ring.ByConsumer, consumer := Ring.CLocked(1, [x])));
    WriterOnRing(r6, r7, reading);
    assert r7.ring.popped + [x] == [x];
    var r8 := r7.(ring := r7.ring.(head := 1, popped := [x], consumer := Ring.CPublished([x])));
    WriterOnRing(r7, r8, reading);
  }

  lemma NumbersFirst(x: Sample)
    ensures Numbered(0, [x]) == [Entry(1, x)] && Numbered(1, []) == []
  {}

  // The pop has returned with the sample.
  function Taken(reading: Sample): Recorder {
    var x := Made(reading);
    var r := After(reading, FirstWriter().(pc := WPopping(MAX_WAIT, MAX_WAIT), seen := 1),
                   Ring.CDone(Ring.Popped, [x], false));
    r.(ring := r.ring.(head := 1, popped := [x]))
  }

  lemma WriterTakes(reading: Sample)
    ensures Reachable(Taken(reading))
  {
    hide Reachable, NextSample, WriterStep;
    var x := Made(reading);
    WriterPops(reading);
    var r1 := Popped(reading).(ring := Popped(reading).ring.(owner := Ring.Free, consumer := Ring.CNotify([x])));
    WriterOnRing(Popped(reading), r1, reading);
    WriterOnRing(r1, Taken(reading), reading);
  }

  lemma WriterBatches(reading: Sample)
    ensures Reachable(Appending(reading))
  {
    hide Reachable, NextSample, Numbered, Append, Flush;
    var x := Made(reading);
    WriterTakes(reading);
    NumbersFirst(x);
    var r2 := Taken(reading);
    assert r2.writer.taken + [x] == [x];
    var r3 := r2.(writer := r2.writer.(pc := WDrain, batch := [Entry(1, x)], sequence := 1, taken := [x]));
    WriterMoves(r2, Env(Ring.Go, reading, Fine), r3);
    var r4 := r3.(ring := r3.ring.(consumer := Ring.CDone(Ring.Popped, [], false)),
                  writer := r3.writer.(pc := WDraining));
    WriterMoves(r3, Env(Ring.Go, reading, Fine), r4);
    assert r4.writer.batch + [] == r4.writer.batch && r4.writer.taken + [] == r4.writer.taken;
    var r5 := r4.(writer := r4.writer.(pc := WStamp));
    WriterMoves(r4, Env(Ring.Go, reading, Fine), r5);
    WriterMoves(r5, Env(Ring.Go, reading, Fine), Appending(reading));
  }

  lemma AppendsFirst(r: Recorder, x: Sample)
    requires r.config == ONE_SLOT && r.writer.batch == [Entry(1, x)]
    requires r.writer.log == Log(0, 0, [], 0, 0, false) && r.writer.starts == []
    ensures Append(r.writer.log, r.writer.batch, r.config, Fine) == (Log(0, 0, [Entry(1, x)], 0, 1, false), true)
    ensures r.writer.starts + seq(1, _ => 0) == [0]
  {
    assert [] + r.writer.batch == [Entry(1, x)];
  }

  // One record is written and not committed; the wait until its deadline has been
  // computed and the clock has not been read again.
  function Arming(reading: Sample): Recorder {
    var r := Appending(reading);
    r.(writer := r.writer.(pc := WArm(1, 0), written := 1, pending := true, deadline := 1, batch := [],
                           log := Log(0, 0, [Entry(1, Made(reading))], 0, 1, false), starts := [0]))
  }

  lemma WriterArms(reading: Sample)
    ensures Reachable(Arming(reading))
  {
    hide Reachable, NextSample, Append;
    var x := Made(reading);
    WriterBatches(reading);
    var r0 := Appending(reading);
    AppendsFirst(r0, x);
    var r1 := r0.(writer := r0.writer.(pc := WCount(0), log := Log(0, 0, [Entry(1, x)], 0, 1, false), starts := [0]));
    WriterMoves(r0, Env(Ring.Go, reading, Fine), r1);
    var r2 := r1.(writer := r1.writer.(pc := WPublish(0), written := 1, batch := []));
    WriterMoves(r1, Env(Ring.Go, reading, Fine), r2);
    var r3 := r2.(writer := r2.writer.(pc := WTimer(0)));
    WriterMoves(r2, Env(Ring.Go, reading, Fine), r3);
    var r4 := r3.(writer := r3.writer.(pc := WTop, pending := true, deadline := 1));
    WriterMoves(r3, Env(Ring.Go, reading, Fine), r4);
    var r5 := r4.(writer := r4.writer.(pc := WWait));
    WriterMoves(r4, Env(Ring.Go, reading, Fine), r5);
    var r6 := r5.(writer := r5.writer.(pc := WArm(1, 0)));
    WriterMoves(r5, Env(Ring.Go, reading, Fine), r6);
  }

  // A reachable recorder whose next wait ends after the commit deadline it was
  // computed for.
  lemma WaitMayOutlastDeadline(reading: Sample) returns (t: Recorder)
    ensures Reachable(t) && Sound(t.writer) && t.writer.pc.WArm? && t.writer.pending
    ensures t.writer.pc.readAt < t.writer.deadline < t.clock + t.writer.pc.wait
  {
    hide Reachable, NextSample;
    WriterArms(reading);
    t := Arming(reading).(clock := 1);
    StepIsReachable(Arming(reading), TheClock, Env(Ring.Go, reading, Fine), t);
  }
}
