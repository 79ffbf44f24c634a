/**
 The ring as the object its callers hold.  Each method, when no other thread
 interferes, does exactly what its small steps do when they run alone.
 */
module CircularBuffer {
  import opened Basics
  import opened LogFormat
  import opened RingProtocol
  import opened RingSafety
  import opened RingTheorems

  ghost predicate RunsTo(s: Ring, thread: Thread, t: Ring) {
    exists n: nat :: Alone(s, thread, n, t)
  }

  lemma StepThenRun(s: Ring, thread: Thread, next: Ring, t: Ring)
    requires SlotsExist(s) && Step(s, thread, Go) == Some(next)
    requires RunsTo(next, thread, t)
    ensures RunsTo(s, thread, t)
  {
    hide SlotsExist, Step;
    var n: nat :| Alone(next, thread, n, t);
    assert Alone(s, thread, n + 1, t);
  }

  lemma RunEnds(t: Ring, thread: Thread)
    ensures RunsTo(t, thread, t)
  {
    assert Alone(t, thread, 0, t);
  }

  // ---------- What a call does ----------

  function Full(s: Ring): bool { s.tail - s.head >= s.capacity }

  function PushResult(s: Ring): PushStatus {
    if s.closed then PushClosed else if Full(s) then PushTimeout else Pushed
  }

  function AfterPush(s: Ring, record: Sample): Ring
    requires 0 < |s.storage| == s.capacity || Full(s)
  {
    if PushResult(s) != Pushed then s
    else s.(storage := s.storage[s.tail % s.capacity := record], tail := s.tail + 1,
            pushed := s.pushed + [record], peak := Max(s.peak, s.tail + 1 - s.head),
            highWatermark := Max(s.highWatermark, s.tail + 1 - s.head))
  }

  function AfterPop(s: Ring, count: nat): Ring
    requires s.head + count <= |s.pushed|
  {
    s.(head := s.head + count, popped := s.popped + s.pushed[s.head..s.head + count])
  }

  // ---------- The steps of a call, run alone, do that ----------

  lemma PushRunsAlone(s: Ring, record: Sample)
    requires s.owner == Free && s.producer == PStart(record, Try) && s.consumer.CIdle?
    requires Inv(s)
    ensures |s.storage| == s.capacity
    ensures RunsTo(s, TheProducer, AfterPush(s, record).(producer := PDone(PushResult(s))))
  {
    hide RunsTo, ConsumerView, Output, LockHeld, Marks, Wakeups;
    var t := AfterPush(s, record).(producer := PDone(PushResult(s)));
    RunEnds(t, TheProducer);
    if s.closed {
      assert t == s.(producer := PDone(PushClosed));
      StepThenRun(s, TheProducer, t, t);
    } else {
      var s1 := s.(producer := PChecked(record, Try));
      var s2 := s.(producer := PLoaded(record, Try, s.head));
      if Full(s) {
        assert t == s2.(producer := PDone(PushTimeout));
        StepThenRun(s2, TheProducer, t, t);
      } else {
        var p := AfterWrite(s, record);
        WriteRunsAlone(s2, record);
        assert AfterWrite(s2, record) == p;
        MarkRunsAlone(p, s.head);
        assert p.(highWatermark := Max(s.highWatermark, p.tail - s.head), owner := Free,
                  producer := PDone(Pushed)) == t;
        RunsOn(s2, TheProducer, p, t);
      }
      StepThenRun(s1, TheProducer, s2, t);
      StepThenRun(s, TheProducer, s1, t);
    }
  }

  // With the cursor published and the mutex still held
  function AfterWrite(s: Ring, record: Sample): Ring
    requires 0 < |s.storage| == s.capacity && s.head <= s.tail
  {
    s.(storage := s.storage[s.tail % s.capacity := record], tail := s.tail + 1,
       pushed := s.pushed + [record], peak := Max(s.peak, s.tail + 1 - s.head),
       owner := ByProducer, producer := PPublished(s.head))
  }

  lemma WriteRunsAlone(s: Ring, record: Sample)
    requires |s.storage| == s.capacity && s.head <= s.tail < s.head + s.capacity
    requires s.owner == Free && s.producer == PLoaded(record, Try, s.head) && s.consumer.CIdle?
    ensures RunsTo(s, TheProducer, AfterWrite(s, record))
  {
    hide RunsTo;
    var p1 := s.(storage := s.storage[s.tail % s.capacity := record], producer := PWritten(record, s.head));
    var p2 := p1.(owner := ByProducer, producer := PLocked(record, s.head));
    var t := AfterWrite(s, record);
    RunEnds(t, TheProducer);
    StepThenRun(p2, TheProducer, t, t);
    StepThenRun(p1, TheProducer, p2, t);
    StepThenRun(s, TheProducer, p1, t);
  }

  lemma MarkRunsAlone(s: Ring, head: nat)
    requires |s.storage| == s.capacity && s.owner == ByProducer && s.consumer.CIdle?
    requires s.producer == PPublished(head)
    ensures RunsTo(s, TheProducer,
              s.(highWatermark := Max(s.highWatermark, s.tail - head), owner := Free, producer := PDone(Pushed)))
  {
    hide RunsTo;
    var p1 := s.(owner := Free, producer := PUnlocked(head));
    var p2 := p1.(producer := PMark(head, s.highWatermark));
    var p3 := p1.(highWatermark := Max(s.highWatermark, s.tail - head), producer := PNotify);
    var t := p3.(producer := PDone(Pushed));
    RunEnds(t, TheProducer);
    StepThenRun(p3, TheProducer, t, t);
    StepThenRun(p2, TheProducer, p3, t);
    StepThenRun(p1, TheProducer, p2, t);
    StepThenRun(s, TheProducer, p1, t);
  }

  lemma {:induction false} AloneTwice(s: Ring, thread: Thread, n: nat, t: Ring, m: nat, u: Ring)
    requires Alone(s, thread, n, t) && Alone(t, thread, m, u)
    ensures Alone(s, thread, n + m, u)
    decreases n
  {
    hide SlotsExist, Step;
    if n > 0 {
      AloneTwice(Step(s, thread, Go).value, thread, n - 1, t, m, u);
    }
  }

  lemma RunsOn(s: Ring, thread: Thread, t: Ring, u: Ring)
    requires RunsTo(s, thread, t) && RunsTo(t, thread, u)
    ensures RunsTo(s, thread, u)
  {
    hide Alone;
    var n: nat :| Alone(s, thread, n, t);
    var m: nat :| Alone(t, thread, m, u);
    AloneTwice(s, thread, n, t, m, u);
  }

  // Copying, releasing and notifying
  lemma {:induction false} CopyRunsAlone(s: Ring, count: nat, copied: seq<Sample>)
    requires s.owner == Free && s.producer.PIdle? && s.consumer == CCopying(count, copied)
    requires Inv(s)
    ensures s.head + count <= |s.pushed|
    ensures RunsTo(s, TheConsumer,
              AfterPop(s, count).(consumer := CDone(Popped, s.pushed[s.head..s.head + count], false)))
    decreases count - |copied|
  {
    hide RunsTo, ProducerView, SlotReady, LockHeld, Marks, Wakeups, Step;
    var t := AfterPop(s, count).(consumer := CDone(Popped, s.pushed[s.head..s.head + count], false));
    if |copied| < count {
      InvMeansSlotsExist(s);
      var next := s.(consumer := CCopying(count, copied + [s.storage[(s.head + |copied|) % s.capacity]]));
      assert Step(s, TheConsumer, Go) == Some(next) by { NextCopy(s, count, copied); }
      StepKeepsInv(s, TheConsumer, Go, next);
      CopyRunsAlone(next, count, next.consumer.copied);
      assert AfterPop(next, count).(consumer := t.consumer) == t;
      StepThenRun(s, TheConsumer, next, t);
    } else {
      assert copied == s.pushed[s.head..s.head + count];
      ReleaseRunsAlone(s, copied);
    }
  }

  lemma NextCopy(s: Ring, count: nat, copied: seq<Sample>)
    requires SlotsExist(s) && s.consumer == CCopying(count, copied) && |copied| < count
    ensures Step(s, TheConsumer, Go) ==
              Some(s.(consumer := CCopying(count, copied + [s.storage[(s.head + |copied|) % s.capacity]])))
  {}

  lemma ReleaseRunsAlone(s: Ring, copied: seq<Sample>)
    requires |s.storage| == s.capacity && s.owner == Free && s.producer.PIdle?
    requires s.consumer == CCopying(|copied|, copied)
    ensures RunsTo(s, TheConsumer,
              s.(head := s.head + |copied|, popped := s.popped + copied, consumer := CDone(Popped, copied, false)))
  {
    hide RunsTo;
    var p1 := s.(owner := ByConsumer, consumer := CLocked(|copied|, copied));
    var p2 := p1.(head := s.head + |copied|, popped := s.popped + copied, consumer := CPublished(copied));
    var p3 := p2.(owner := Free, consumer := CNotify(copied));
    var t := p3.(consumer := CDone(Popped, copied, false));
    RunEnds(t, TheConsumer);
    StepThenRun(p3, TheConsumer, t, t);
    StepThenRun(p2, TheConsumer, p3, t);
    StepThenRun(p1, TheConsumer, p2, t);
    StepThenRun(s, TheConsumer, p1, t);
  }

  function PopResult(s: Ring): PopStatus {
    if s.head != s.tail then Popped else if s.closed then PopClosed else PopTimeout
  }

  // A pop takes one sample if there is one
  lemma PopRunsAlone(s: Ring)
    requires s.owner == Free && s.producer.PIdle? && s.consumer == CStart(Try)
    requires Inv(s)
    ensures s.head <= |s.pushed| && (s.head != s.tail ==> s.head < |s.pushed|)
    ensures if s.head == s.tail
            then RunsTo(s, TheConsumer, s.(consumer := CDone(PopResult(s), [], s.closed)))
            else RunsTo(s, TheConsumer,
                   AfterPop(s, 1).(consumer := CDone(Popped, s.pushed[s.head..s.head + 1], false)))
  {
    hide RunsTo, SlotReady, ProducerView, Output, LockHeld, Marks, Wakeups;
    var s1 := s.(consumer := CLoaded(Try, s.tail, s.closed));
    InvMeansSlotsExist(s);
    StepKeepsInv(s, TheConsumer, Go, s1);
    if s.head == s.tail {
      var s2 := s1.(consumer := CEmpty(Try, s.tail, s.closed));
      var t := s.(consumer := CDone(PopResult(s), [], s.closed));
      RunEnds(t, TheConsumer);
      StepThenRun(s2, TheConsumer, t, t);
      StepThenRun(s1, TheConsumer, s2, t);
      StepThenRun(s, TheConsumer, s1, t);
    } else {
      var s2 := s1.(consumer := CCopying(1, []));
      InvMeansSlotsExist(s1);
      StepKeepsInv(s1, TheConsumer, Go, s2);
      var t := AfterPop(s, 1).(consumer := CDone(Popped, s.pushed[s.head..s.head + 1], false));
      CopyRunsAlone(s2, 1, []);
      assert AfterPop(s2, 1).(consumer := t.consumer) == t;
      StepThenRun(s1, TheConsumer, s2, t);
      StepThenRun(s, TheConsumer, s1, t);
    }
  }

  // A batch takes what there is, up to its limit
  lemma BatchRunsAlone(s: Ring, limit: nat)
    requires s.owner == Free && s.producer.PIdle? && s.consumer == CBatchStart(limit)
    requires Inv(s)
    ensures s.head <= s.tail == |s.pushed|
    ensures var count := Min(limit, s.tail - s.head);
      RunsTo(s, TheConsumer,
        AfterPop(s, count).(consumer := CDone(Popped, s.pushed[s.head..s.head + count], false)))
  {
    hide RunsTo, SlotReady, ProducerView, Output, LockHeld, Marks, Wakeups;
    var count := Min(limit, s.tail - s.head);
    var t := AfterPop(s, count).(consumer := CDone(Popped, s.pushed[s.head..s.head + count], false));
    InvMeansSlotsExist(s);
    if count == 0 {
      assert s.popped + [] == s.popped;
      assert t == s.(consumer := CDone(Popped, [], false));
      RunEnds(t, TheConsumer);
      StepThenRun(s, TheConsumer, t, t);
    } else {
      var s1 := s.(consumer := CCopying(count, []));
      StepKeepsInv(s, TheConsumer, Go, s1);
      CopyRunsAlone(s1, count, []);
      assert AfterPop(s1, count).(consumer := t.consumer) == t;
      StepThenRun(s, TheConsumer, s1, t);
    }
  }

  lemma {:induction false} RunsKeepInv(s: Ring, thread: Thread, n: nat, t: Ring)
    requires Inv(s)
    requires Alone(s, thread, n, t)
    ensures Inv(t)
    decreases n
  {
    hide Inv, SlotsExist, Step;
    if n > 0 {
      StepKeepsInv(s, thread, Go, Step(s, thread, Go).value);
      RunsKeepInv(Step(s, thread, Go).value, thread, n - 1, t);
    }
  }

  lemma CallBegins(s: Ring, producer: Producer, consumer: Consumer)
    requires s.producer.PIdle? || s.producer.PDone?
    requires s.consumer.CIdle? || s.consumer.CDone?
    requires producer == PIdle || producer.PStart?
    requires consumer == CIdle || consumer.CStart? || consumer.CBatchStart?
    requires Inv(s)
    ensures Inv(s.(producer := producer, consumer := consumer))
  {
    hide Cells;
  }

  class CircularBuffer {
    const capacity: nat
    const storage: array<Sample>
    var head: nat
    var tail: nat
    var closed: bool
    var highWatermark: int
    var dropped: nat
    ghost var pushed: seq<Sample>
    ghost var popped: seq<Sample>
    ghost var peak: int

    // The state of the small-step machine with every thread between calls
    ghost function View(): Ring
      reads this, storage
    {
      Ring(capacity, storage[..], head, tail, closed, highWatermark, Free, PIdle, CIdle,
           if closed then KDone else KIdle, pushed, popped, peak, dropped)
    }

    ghost predicate Valid()
      reads this, storage
    {
      Inv(View())
    }

    // The samples queued, oldest first
    ghost function Contents(): seq<Sample>
      reads this, storage
      requires Valid()
    {
      LiveIsUnpopped(View());
      Live(View())
    }

    constructor (capacity: nat, fill: Sample)
      ensures Valid() && fresh(storage) && this.capacity == capacity
      ensures Contents() == [] && !closed && dropped == 0 && highWatermark == 0
    {
      this.capacity := capacity;
      storage := new Sample[capacity](_ => fill);
      head, tail, closed, highWatermark, dropped := 0, 0, false, 0, 0;
      pushed, popped, peak := [], [], 0;
      new;
      StartHolds(capacity, storage[..]);
      assert View() == Empty(capacity, storage[..]);
    }

    method TryPush(record: Sample) returns (status: PushStatus)
      requires Valid()
      modifies this`tail, this`highWatermark, this`pushed, this`peak, storage
      ensures Valid()
      ensures status == PushClosed <==> closed
      ensures status == Pushed <==> !closed && |old(Contents())| < capacity
      ensures Contents() == if status == Pushed then old(Contents()) + [record] else old(Contents())
      ensures RunsTo(old(View()).(producer := PStart(record, Try)), TheProducer, View().(producer := PDone(status)))
    {
      hide Inv, Live, RunsTo;
      ghost var s := View();
      PushIsQueued(s, record);
      if closed {
        return PushClosed;
      }
      if tail - head >= capacity {
        return PushTimeout;
      }
      storage[tail % capacity] := record;
      tail := tail + 1;
      pushed, peak := pushed + [record], Max(peak, tail - head);
      RaiseWatermark(tail - head);
      assert View() == AfterPush(s, record);
      status := Pushed;
    }

    method TryPopStatus() returns (status: PopStatus, out: seq<Sample>)
      requires Valid()
      modifies this`head, this`popped
      ensures Valid()
      ensures status == if |old(Contents())| > 0 then Popped else if closed then PopClosed else PopTimeout
      ensures out == if status == Popped then [old(Contents()[0])] else []
      ensures old(Contents()) == out + Contents()
      ensures RunsTo(old(View()).(consumer := CStart(Try)), TheConsumer,
                View().(consumer := CDone(status, out, status != Popped && closed)))
    {
      hide Inv, Live, RunsTo;
      ghost var s := View();
      PopIsQueued(s);
      if head == tail {
        return if closed then PopClosed else PopTimeout, [];
      }
      LiveAt(s, 0);
      out := [storage[head % capacity]];
      popped := popped + out;
      head := head + 1;
      assert View() == AfterPop(s, 1);
      status := Popped;
    }

    // Copies up to maxRecords samples to the front of output.
    method TryPopBatch(output: array<Sample>, maxRecords: nat) returns (count: nat)
      requires Valid()
      requires maxRecords <= output.Length && output != storage
      modifies this`head, this`popped, output
      ensures Valid()
      ensures count == Min(maxRecords, |old(Contents())|)
      ensures output[..count] == old(Contents())[..count]
      ensures output[count..] == old(output[count..])
      ensures Contents() == old(Contents())[count..]
      ensures 0 < maxRecords ==>
                RunsTo(old(View()).(consumer := CBatchStart(maxRecords)), TheConsumer,
                  View().(consumer := CDone(Popped, output[..count], false)))
    {
      hide Inv, RunsTo, Live;
      if maxRecords == 0 {
        return 0;
      }
      ghost var s := View();
      LiveAt(s, 0);
      count := if maxRecords < tail - head then maxRecords else tail - head;
      CopyOut(output, count);
      Release(count, maxRecords);
      assert output[..count] == Live(s)[..count];
    }

    // Gives up the oldest samples.
    method Release(count: nat, ghost limit: nat)
      requires Valid() && count == Min(limit, |Contents()|)
      modifies this`head, this`popped
      ensures Valid() && Contents() == old(Contents())[count..]
      ensures RunsTo(old(View()).(consumer := CBatchStart(limit)), TheConsumer,
                View().(consumer := CDone(Popped, old(Contents())[..count], false)))
    {
      hide Inv, RunsTo, Live;
      ghost var s := View();
      LiveAt(s, 0);
      BatchIsQueued(s, limit);
      if count != 0 {
        popped := popped + pushed[head..head + count];
        head := head + count;
      }
      assert popped == s.popped + s.pushed[s.head..s.head + count];
      assert View() == AfterPop(s, count);
    }

    method CopyOut(output: array<Sample>, count: nat)
      requires output != storage && count <= output.Length
      requires Valid() && count <= |Contents()|
      modifies output
      ensures output[..count] == Contents()[..count]
      ensures output[count..] == old(output[count..])
    {
      hide Inv, Live;
      var index := 0;
      while index < count
        invariant index <= count
        invariant output[..index] == Contents()[..index]
        invariant output[count..] == old(output[count..])
      {
        LiveAt(View(), index);
        assert Contents() == Live(View());
        output[index] := storage[(head + index) % capacity];
        index := index + 1;
      }
    }

    method Close()
      requires Valid()
      modifies this`closed
      ensures Valid() && closed && Contents() == old(Contents())
    {
      closed := true;
      ClosedIsInv(old(View()));
    }

    method Reset()
      requires Valid()
      modifies this
      ensures Valid() && Contents() == [] && !closed && highWatermark == 0 && dropped == 0
    {
      head, tail, dropped, highWatermark, closed := 0, 0, 0, 0, false;
      pushed, popped, peak := [], [], 0;
      StartHolds(capacity, storage[..]);
    }

    // Dropped, current size and high watermark
    method GetStats() returns (drops: nat, size: int, watermark: int)
      requires Valid()
      ensures size == |Contents()| && drops == dropped
      ensures size <= watermark <= capacity
      ensures peak <= watermark == highWatermark
    {
      drops, size, watermark := dropped, tail - head, highWatermark;
    }

    method RaiseWatermark(size: int)
      modifies this`highWatermark
      ensures highWatermark == Max(old(highWatermark), size)
    {
      if highWatermark < size {
        highWatermark := size;
      }
    }
  }

  // What a push run alone does to the queue
  lemma PushIsQueued(s: Ring, record: Sample)
    requires s.owner == Free && s.producer.PIdle? && s.consumer.CIdle?
    requires Inv(s)
    ensures 0 < |s.storage| == s.capacity || Full(s)
    ensures Inv(AfterPush(s, record))
    ensures RunsTo(s.(producer := PStart(record, Try)), TheProducer,
                   AfterPush(s, record).(producer := PDone(PushResult(s))))
    ensures s.head <= s.tail <= s.head + s.capacity == s.head + |s.storage|
    ensures PushResult(s) == Pushed <==> !s.closed && |Live(s)| < s.capacity
    ensures var t := AfterPush(s, record);
      t.head <= t.tail <= t.head + t.capacity == t.head + |t.storage|
      && Live(t) == if PushResult(s) == Pushed then Live(s) + [record] else Live(s)
  {
    hide Inv, Live, Alone;
    var begun := s.(producer := PStart(record, Try));
    LiveIsUnpopped(s);
    CallBegins(s, begun.producer, CIdle);
    PushRunsAlone(begun, record);
    var t := AfterPush(s, record);
    var done := t.(producer := PDone(PushResult(s)));
    assert done == AfterPush(begun, record).(producer := PDone(PushResult(begun)));
    var n: nat :| Alone(begun, TheProducer, n, done);
    RunsKeepInv(begun, TheProducer, n, done);
    CallBegins(done, PIdle, CIdle);
    assert done.(producer := PIdle, consumer := CIdle) == t;
    LiveIsUnpopped(t);
  }

  // What a pop run alone does to the queue
  lemma PopIsQueued(s: Ring)
    requires s.owner == Free && s.producer.PIdle? && s.consumer.CIdle?
    requires Inv(s)
    ensures s.head <= s.tail <= s.head + s.capacity == s.head + |s.storage| && s.tail == |s.pushed|
    ensures s.head == s.tail ==>
              && Live(s) == []
              && RunsTo(s.(consumer := CStart(Try)), TheConsumer, s.(consumer := CDone(PopResult(s), [], s.closed)))
    ensures s.head != s.tail ==>
              && var t := AfterPop(s, 1);
              && Inv(t) && t.head <= t.tail
              && s.pushed[s.head..s.head + 1] == [Live(s)[0]] && Live(s) == [Live(s)[0]] + Live(t)
              && RunsTo(s.(consumer := CStart(Try)), TheConsumer, t.(consumer := CDone(Popped, [Live(s)[0]], false)))
  {
    hide Inv, Live, Alone;
    var begun := s.(consumer := CStart(Try));
    LiveIsUnpopped(s);
    CallBegins(s, PIdle, begun.consumer);
    PopRunsAlone(begun);
    if s.head != s.tail {
      PopEndsAtRest(begun, s, 1);
      assert s.pushed[s.head..s.head + 1] == [Live(s)[0]];
    }
  }

  lemma PopEndsAtRest(begun: Ring, s: Ring, count: nat)
    requires Inv(begun) && s.owner == Free && s.producer.PIdle? && s.consumer.CIdle?
    requires s.head <= s.head + count <= |s.pushed|
    requires RunsTo(begun, TheConsumer,
               AfterPop(s, count).(consumer := CDone(Popped, s.pushed[s.head..s.head + count], false)))
    requires Inv(s)
    ensures s.head <= s.tail <= s.head + s.capacity == s.head + |s.storage|
    ensures var t := AfterPop(s, count);
      && Inv(t) && t.head <= t.tail <= t.head + t.capacity
      && Live(s) == s.pushed[s.head..s.head + count] + Live(t)
  {
    hide Inv, Live, Alone;
    var t := AfterPop(s, count);
    var done := t.(consumer := CDone(Popped, s.pushed[s.head..s.head + count], false));
    var n: nat :| Alone(begun, TheConsumer, n, done);
    RunsKeepInv(begun, TheConsumer, n, done);
    CallBegins(done, PIdle, CIdle);
    assert done.(producer := PIdle, consumer := CIdle) == t;
    LiveIsUnpopped(s);
    LiveIsUnpopped(t);
  }

  lemma BatchIsQueued(s: Ring, limit: nat)
    requires s.owner == Free && s.producer.PIdle? && s.consumer.CIdle?
    requires Inv(s)
    ensures s.head <= s.tail <= s.head + s.capacity == s.head + |s.storage| && s.tail == |s.pushed|
    ensures var count := Min(limit, s.tail - s.head);
      && var t := AfterPop(s, count);
      && Inv(t) && t.head <= t.tail
      && s.pushed[s.head..s.head + count] == Live(s)[..count] && Live(t) == Live(s)[count..]
      && RunsTo(s.(consumer := CBatchStart(limit)), TheConsumer, t.(consumer := CDone(Popped, Live(s)[..count], false)))
  {
    hide Inv, Live, Alone;
    var begun := s.(consumer := CBatchStart(limit));
    LiveIsUnpopped(s);
    CallBegins(s, PIdle, begun.consumer);
    BatchRunsAlone(begun, limit);
    var count := Min(limit, s.tail - s.head);
    PopEndsAtRest(begun, s, count);
    assert s.pushed[s.head..s.head + count] == Live(s)[..count];
  }

  lemma ClosedIsInv(s: Ring)
    requires s.owner == Free && s.producer.PIdle? && s.consumer.CIdle?
    requires Inv(s)
    ensures Inv(s.(closed := true, closer := KDone))
  {
    hide Cells;
  }

  lemma LiveAt(s: Ring, i: nat)
    requires Inv(s)
    ensures s.head <= s.tail <= s.head + s.capacity == s.head + |s.storage|
    ensures |Live(s)| == s.tail - s.head
    ensures i < |Live(s)| ==> 0 < s.capacity && Live(s)[i] == s.storage[(s.head + i) % s.capacity]
  {
    hide ProducerView, SlotReady, ConsumerView, Output, LockHeld, Marks, Wakeups;
  }
}
