/**
 What holds over every run of the ring: a FIFO queue of at most capacity samples,
 no slot written while it may be copied, no missed wake-up, no deadlock, a
 watermark that brackets every occupancy, and what Closed promises a pop.
 */
module RingTheorems {
  import opened Basics
  import opened LogFormat
  import opened RingProtocol
  import opened RingSafety

  // ---------- Runs ----------

  datatype Move = Move(thread: Thread, choice: Choice)

  // t is reached from s by these moves, in this order
  ghost predicate Reaches(s: Ring, moves: seq<Move>, t: Ring)
    decreases |moves|
  {
    if moves == [] then s == t
    else
      && SlotsExist(s)
      && Step(s, moves[0].thread, moves[0].choice).Some?
      && Reaches(Step(s, moves[0].thread, moves[0].choice).value, moves[1..], t)
  }

  // Some interleaving of some calls leads from an empty ring to s
  ghost predicate Reachable(s: Ring) {
    exists storage, moves :: |storage| == s.capacity && Reaches(Empty(s.capacity, storage), moves, s)
  }

  lemma {:induction false} RunKeepsInv(s: Ring, moves: seq<Move>, t: Ring)
    requires Inv(s)
    requires Reaches(s, moves, t)
    ensures Inv(t)
    decreases |moves|
  {
    hide Inv, SlotsExist, Step;
    if moves != [] {
      var next := Step(s, moves[0].thread, moves[0].choice).value;
      StepKeepsInv(s, moves[0].thread, moves[0].choice, next);
      RunKeepsInv(next, moves[1..], t);
    }
  }

  lemma ReachableIsInv(s: Ring)
    requires Reachable(s)
    ensures Inv(s)
  {
    hide Inv, Empty, Reaches;
    var storage, moves :| |storage| == s.capacity && Reaches(Empty(s.capacity, storage), moves, s);
    StartHolds(s.capacity, storage);
    RunKeepsInv(Empty(s.capacity, storage), moves, s);
  }

  lemma {:induction false} RunThenStep(s: Ring, moves: seq<Move>, t: Ring, move: Move)
    requires Reaches(s, moves, t)
    requires SlotsExist(t) && Step(t, move.thread, move.choice).Some?
    ensures Reaches(s, moves + [move], Step(t, move.thread, move.choice).value)
    decreases |moves|
  {
    hide SlotsExist, Step;
    var u := Step(t, move.thread, move.choice).value;
    if moves == [] {
      assert [move][1..] == [];
      assert Reaches(u, [], u);
      assert moves + [move] == [move];
    } else {
      var next := Step(s, moves[0].thread, moves[0].choice).value;
      RunThenStep(next, moves[1..], t, move);
      assert (moves + [move])[1..] == moves[1..] + [move];
    }
  }

  lemma StepIsReachable(s: Ring, thread: Thread, choice: Choice, t: Ring)
    requires Reachable(s)
    requires SlotsExist(s) && Step(s, thread, choice) == Some(t)
    ensures Reachable(t)
  {
    hide SlotsExist, Reaches, Empty;
    var storage, moves :| |storage| == s.capacity && Reaches(Empty(s.capacity, storage), moves, s);
    RunThenStep(Empty(s.capacity, storage), moves, s, Move(thread, choice));
    assert t.capacity == s.capacity by {
      StepEffect(s, thread, choice, t);
    }
  }

  // Every operation of every run stays inside the storage
  lemma SlotAccessesInBounds(s: Ring)
    requires Reachable(s)
    ensures SlotsExist(s)
  {
    ReachableIsInv(s);
  }

  // ---------- A FIFO queue ----------

  // The samples published and not yet released, oldest first
  function Live(s: Ring): seq<Sample>
    requires s.head <= s.tail && (s.head < s.tail ==> 0 < |s.storage| == s.capacity)
  {
    seq(s.tail - s.head, i requires 0 <= i < s.tail - s.head => s.storage[(s.head + i) % s.capacity])
  }

  lemma LiveIsUnpopped(s: Ring)
    requires Inv(s)
    ensures s.head <= s.tail <= s.head + s.capacity && |s.storage| == s.capacity
    ensures s.popped <= s.pushed && |s.popped| == s.head && |s.pushed| == s.tail
    ensures Live(s) == s.pushed[s.head..]
  {
    hide ProducerView, SlotReady, ConsumerView, Output, LockHeld, Marks, Wakeups;
  }

  // Nothing is lost, duplicated, reordered or invented, and a pop returns the
  // samples that were next
  lemma QueueHolds(s: Ring)
    requires Reachable(s)
    ensures 0 <= s.tail - s.head <= s.capacity == |s.storage|
    ensures s.pushed == s.popped + Live(s)
    ensures s.consumer.CDone? ==> EndsWith(s.popped, s.consumer.output)
  {
    hide Cells, ProducerView, SlotReady, ConsumerView, LockHeld, Marks, Wakeups;
    ReachableIsInv(s);
    LiveIsUnpopped(s);
  }

  // Each step leaves the queue alone, appends the record being pushed to a queue
  // that had room, or removes from its front exactly what the pop will return
  lemma StepRefinesQueue(s: Ring, thread: Thread, choice: Choice, t: Ring)
    requires Reachable(s)
    requires SlotsExist(s) && Step(s, thread, choice) == Some(t)
    ensures s.head <= s.tail <= s.head + s.capacity && |s.storage| == s.capacity
    ensures t.head <= t.tail <= t.head + t.capacity && |t.storage| == t.capacity
    ensures if thread == TheProducer && s.producer.PLocked?
            then |Live(s)| < s.capacity && Live(t) == Live(s) + [s.producer.record]
            else if thread == TheConsumer && s.consumer.CLocked?
            then t.consumer.CPublished? && t.consumer.copied != [] && Live(s) == t.consumer.copied + Live(t)
            else Live(t) == Live(s)
  {
    hide ProducerView, SlotReady, Output, LockHeld, Marks, Wakeups, Step;
    ReachableIsInv(s);
    StepKeepsInv(s, thread, choice, t);
    StepEffect(s, thread, choice, t);
    LiveIsUnpopped(s);
    LiveIsUnpopped(t);
  }

  // Only publishing moves tail, and then the occupancy counts
  lemma PushEffect(s: Ring, choice: Choice, t: Ring)
    requires SlotsExist(s) && ProducerStep(s, choice) == Some(t)
    ensures t.capacity == s.capacity && t.head == s.head && t.popped == s.popped && t.closed == s.closed
    ensures if s.producer.PLocked?
            then t.tail == s.tail + 1 && t.pushed == s.pushed + [s.producer.record]
                 && t.peak == Max(s.peak, s.tail + 1 - s.head)
            else t.tail == s.tail && t.pushed == s.pushed && t.peak == s.peak
    ensures InFlight(t.producer) && !InFlight(s.producer) ==> !s.closed
    ensures || t.highWatermark == s.highWatermark
            || (s.producer.PMark? && s.highWatermark == s.producer.previous < t.highWatermark)
    ensures t.consumer == s.consumer || t.consumer.CWaitLock?
  {
    if !PushWaiting(s.producer) {
      PushTryEffect(s, choice, t);
    }
  }

  lemma PushTryEffect(s: Ring, choice: Choice, t: Ring)
    requires SlotsExist(s) && !PushWaiting(s.producer) && TryPushStep(s, choice) == Some(t)
    ensures t.capacity == s.capacity && t.head == s.head && t.popped == s.popped && t.closed == s.closed
    ensures if s.producer.PLocked?
            then t.tail == s.tail + 1 && t.pushed == s.pushed + [s.producer.record]
                 && t.peak == Max(s.peak, s.tail + 1 - s.head)
            else t.tail == s.tail && t.pushed == s.pushed && t.peak == s.peak
    ensures InFlight(t.producer) && !InFlight(s.producer) ==> !s.closed
    ensures || t.highWatermark == s.highWatermark
            || (s.producer.PMark? && s.highWatermark == s.producer.previous < t.highWatermark)
    ensures t.consumer == s.consumer || t.consumer.CWaitLock?
  {
    match s.producer
    case PIdle =>
    case PStart(_, _) =>
    case PChecked(_, _) =>
    case PLoaded(_, _, _) =>
    case PWritten(_, _) =>
    case PLocked(_, _) =>
    case PPublished(_) =>
    case PUnlocked(_) =>
    case PMark(_, _) =>
    case PNotify =>
    case PDone(_) =>
  }

  // Only releasing moves head
  lemma PopEffect(s: Ring, choice: Choice, t: Ring)
    requires SlotsExist(s) && ConsumerStep(s, choice) == Some(t)
    ensures t.capacity == s.capacity && t.tail == s.tail && t.pushed == s.pushed && t.closed == s.closed
    ensures t.peak == s.peak && t.highWatermark == s.highWatermark
    ensures InFlight(t.producer) == InFlight(s.producer)
    ensures if s.consumer.CLocked?
            then t.head == s.head + s.consumer.count && t.popped == s.popped + s.consumer.copied
                 && t.consumer == CPublished(s.consumer.copied)
            else t.head == s.head && t.popped == s.popped
  {
    if !PopWaiting(s.consumer) {
      PopTryEffect(s, choice, t);
    }
  }

  lemma PopTryEffect(s: Ring, choice: Choice, t: Ring)
    requires SlotsExist(s) && !PopWaiting(s.consumer) && TryPopStep(s, choice) == Some(t)
    ensures t.capacity == s.capacity && t.tail == s.tail && t.pushed == s.pushed && t.closed == s.closed
    ensures t.peak == s.peak && t.highWatermark == s.highWatermark
    ensures InFlight(t.producer) == InFlight(s.producer)
    ensures if s.consumer.CLocked?
            then t.head == s.head + s.consumer.count && t.popped == s.popped + s.consumer.copied
                 && t.consumer == CPublished(s.consumer.copied)
            else t.head == s.head && t.popped == s.popped
  {
    match s.consumer
    case CIdle =>
    case CStart(_) =>
    case CLoaded(_, _, _) =>
    case CEmpty(_, _, _) =>
    case CBatchStart(_) =>
    case CCopying(_, _) =>
    case CLocked(_, _) =>
    case CPublished(_) =>
    case CNotify(_) =>
    case CDone(_, _, _) =>
  }

  lemma CloseEffect(s: Ring, choice: Choice, t: Ring)
    requires CloserStep(s, choice) == Some(t)
    ensures t.capacity == s.capacity && t.head == s.head && t.tail == s.tail
    ensures t.pushed == s.pushed && t.popped == s.popped
    ensures t.peak == s.peak && t.highWatermark == s.highWatermark
    ensures s.closed ==> t.closed
    ensures InFlight(t.producer) == InFlight(s.producer)
  {}

  lemma StepEffect(s: Ring, thread: Thread, choice: Choice, t: Ring)
    requires SlotsExist(s) && Step(s, thread, choice) == Some(t)
    ensures t.capacity == s.capacity
    ensures if thread == TheProducer && s.producer.PLocked?
            then t.tail == s.tail + 1 && t.pushed == s.pushed + [s.producer.record]
                 && t.peak == Max(s.peak, s.tail + 1 - s.head)
            else t.tail == s.tail && t.pushed == s.pushed && t.peak == s.peak
    ensures if thread == TheConsumer && s.consumer.CLocked?
            then t.head == s.head + s.consumer.count && t.popped == s.popped + s.consumer.copied
                 && t.consumer == CPublished(s.consumer.copied)
            else t.head == s.head && t.popped == s.popped
    ensures t.highWatermark >= s.highWatermark
    ensures s.closed ==> t.closed
    ensures InFlight(t.producer) && !InFlight(s.producer) ==> !s.closed
  {
    hide ProducerStep, ConsumerStep, CloserStep;
    match thread
    case TheProducer => PushEffect(s, choice, t);
    case TheConsumer => PopEffect(s, choice, t);
    case TheCloser => CloseEffect(s, choice, t);
  }

  // The slot about to be written is never one the consumer is about to copy, nor
  // any slot whose sample is still queued
  lemma WriterHasSlotAlone(s: Ring, i: int)
    requires Reachable(s)
    requires s.producer.PLoaded? && s.tail - s.producer.head < s.capacity
    requires s.head <= i < s.tail
    ensures 0 < s.capacity && i % s.capacity != s.tail % s.capacity
    ensures s.consumer.CCopying? ==> s.head + s.consumer.count <= s.tail
  {
    ReachableIsInv(s);
    SlotsDiffer(i, s.tail, s.capacity);
  }

  // ---------- Sleeping and waking ----------

  // A thread asleep with something to do has a notification on its way
  lemma NoMissedWakeup(s: Ring)
    requires Reachable(s)
    ensures s.consumer.CParked? && (s.head != s.tail || s.closed) ==>
              Announcing(s.producer) || ClosingData(s.closer)
    ensures s.producer.PParked? && (s.tail - s.head < s.capacity || s.closed) ==>
              Releasing(s.consumer) || ClosingSpace(s.closer)
  {
    ReachableIsInv(s);
  }

  // A thread's next n operations, uninterrupted
  ghost predicate Alone(s: Ring, thread: Thread, n: nat, t: Ring)
    decreases n
  {
    if n == 0 then s == t
    else SlotsExist(s) && Step(s, thread, Go).Some? && Alone(Step(s, thread, Go).value, thread, n - 1, t)
  }

  // The notification arrives: within four uninterrupted operations of the thread
  // that owes it, none of which can block, the sleeper is awake
  lemma ConsumerIsWoken(s: Ring)
    requires Reachable(s)
    requires s.consumer.CParked? && (s.head != s.tail || s.closed)
    ensures exists thread, n: nat, t :: n <= 4 && Alone(s, thread, n, t) && !t.consumer.CParked?
  {
    hide Alone, Inv;
    NoMissedWakeup(s);
    ReachableIsInv(s);
    if Announcing(s.producer) {
      var n, t := AnnounceArrives(s);
    } else {
      var n, t := CloseWakesConsumer(s);
    }
  }

  lemma ProducerIsWoken(s: Ring)
    requires Reachable(s)
    requires s.producer.PParked? && (s.tail - s.head < s.capacity || s.closed)
    ensures exists thread, n: nat, t :: n <= 4 && Alone(s, thread, n, t) && !t.producer.PParked?
  {
    hide Alone, Inv;
    NoMissedWakeup(s);
    ReachableIsInv(s);
    if Releasing(s.consumer) {
      var n, t := ReleaseArrives(s);
    } else {
      var n, t := CloseWakesProducer(s);
    }
  }

  function StepsToNotify(p: Producer): nat {
    if p.PPublished? then 4 else if p.PUnlocked? then 3 else if p.PMark? then 2 else 1
  }

  lemma {:induction false} AnnounceArrives(s: Ring) returns (n: nat, t: Ring)
    requires Inv(s)
    requires Announcing(s.producer)
    ensures n <= StepsToNotify(s.producer) && Alone(s, TheProducer, n, t) && !t.consumer.CParked?
    decreases StepsToNotify(s.producer)
  {
    hide Cells, SlotReady, ConsumerView, Output, LockHeld, Marks, Wakeups;
    InvMeansSlotsExist(s);
    var next := ProducerStep(s, Go).value;
    if s.producer.PNotify? {
      n, t := 1, next;
      assert Alone(next, TheProducer, 0, t);
    } else {
      StepKeepsInv(s, TheProducer, Go, next);
      n, t := AnnounceArrives(next);
      n := n + 1;
    }
  }

  lemma {:induction false} ReleaseArrives(s: Ring) returns (n: nat, t: Ring)
    requires Inv(s)
    requires Releasing(s.consumer)
    ensures n <= 2 && Alone(s, TheConsumer, n, t) && !t.producer.PParked?
  {
    hide Cells, SlotReady, ProducerView, Output, LockHeld, Marks, Wakeups;
    InvMeansSlotsExist(s);
    t := ConsumerStep(s, Go).value;
    StepKeepsInv(s, TheConsumer, Go, t);
    InvMeansSlotsExist(t);
    n := 1;
    var first := t;
    if s.consumer.CPublished? {
      n, t := 2, ConsumerStep(t, Go).value;
      assert Alone(t, TheConsumer, 0, t);
    }
    assert Alone(first, TheConsumer, n - 1, t);
  }

  function StepsToClose(k: Closer): nat {
    if k.KStored? then 3 else if k.KNotifyData? then 2 else 1
  }

  lemma {:induction false} CloseWakesConsumer(s: Ring) returns (n: nat, t: Ring)
    requires Inv(s)
    requires ClosingData(s.closer)
    ensures n < StepsToClose(s.closer) && Alone(s, TheCloser, n, t) && !t.consumer.CParked?
    decreases StepsToClose(s.closer)
  {
    hide Cells, SlotReady, ProducerView, ConsumerView, Output, LockHeld, Marks, Wakeups;
    InvMeansSlotsExist(s);
    var next := CloserStep(s, Go).value;
    if s.closer.KNotifyData? {
      n, t := 1, next;
      assert Alone(next, TheCloser, 0, t);
    } else {
      StepKeepsInv(s, TheCloser, Go, next);
      n, t := CloseWakesConsumer(next);
      n := n + 1;
    }
  }

  lemma {:induction false} CloseWakesProducer(s: Ring) returns (n: nat, t: Ring)
    requires Inv(s)
    requires ClosingSpace(s.closer)
    ensures n <= StepsToClose(s.closer) && Alone(s, TheCloser, n, t) && !t.producer.PParked?
    decreases StepsToClose(s.closer)
  {
    hide Cells, SlotReady, ProducerView, ConsumerView, Output, LockHeld, Marks, Wakeups;
    InvMeansSlotsExist(s);
    var next := CloserStep(s, Go).value;
    if s.closer.KNotifySpace? {
      n, t := 1, next;
      assert Alone(next, TheCloser, 0, t);
    } else {
      StepKeepsInv(s, TheCloser, Go, next);
      n, t := CloseWakesProducer(next);
      n := n + 1;
    }
  }

  // Producer and consumer both asleep, and no close under way to wake them
  predicate BothAsleep(s: Ring) {
    s.producer.PParked? && s.consumer.CParked? && (s.closer.KIdle? || s.closer.KDone?)
  }

  // With at least one slot they never sleep on each other; with none they can
  lemma BothAsleepExactly(capacity: nat)
    ensures (exists s :: Reachable(s) && s.capacity == capacity && BothAsleep(s)) <==> capacity == 0
  {
    forall s | Reachable(s) && s.capacity == capacity && BothAsleep(s)
      ensures capacity == 0
    {
      NoMissedWakeup(s);
      QueueHolds(s);
      ReachableIsInv(s);
    }
    if capacity == 0 {
      var r: Sample :| true;
      var s := EmptyRingSleeps(r);
    }
  }

  lemma EmptyIsReachable(capacity: nat, storage: seq<Sample>)
    requires |storage| == capacity
    ensures Reachable(Empty(capacity, storage))
  {
    assert Reaches(Empty(capacity, storage), [], Empty(capacity, storage));
  }

  // A ring without slots: push and pop both find nothing to do and go to sleep
  lemma EmptyRingSleeps(r: Sample) returns (s: Ring)
    ensures Reachable(s) && s.capacity == 0 && BothAsleep(s)
  {
    hide Reachable;
    PushSleeps(r);
    var c := Empty(0, []).(producer := PParked(r, Block));
    var c1 := c.(consumer := CStart(Block));
    StepIsReachable(c, TheConsumer, Pop(Block), c1);
    var c2 := c1.(consumer := CLoaded(Block, 0, false));
    StepIsReachable(c1, TheConsumer, Go, c2);
    var c3 := c2.(consumer := CEmpty(Block, 0, false));
    StepIsReachable(c2, TheConsumer, Go, c3);
    var c4 := c3.(consumer := CWaitLock(Block, false));
    StepIsReachable(c3, TheConsumer, Go, c4);
    var c5 := c4.(owner := ByConsumer, consumer := CWaitClosed(Block, false));
    StepIsReachable(c4, TheConsumer, Go, c5);
    var c6 := c5.(consumer := CWaitHead(Block, false));
    StepIsReachable(c5, TheConsumer, Go, c6);
    var c7 := c6.(consumer := CWaitTail(Block, false));
    StepIsReachable(c6, TheConsumer, Go, c7);
    var c8 := c7.(owner := Free, consumer := CParked(Block));
    StepIsReachable(c7, TheConsumer, Go, c8);
    s := c8;
  }

  lemma PushSleeps(r: Sample)
    ensures Reachable(Empty(0, []).(producer := PParked(r, Block)))
  {
    hide Reachable;
    var p := Empty(0, []);
    EmptyIsReachable(0, []);
    var p1 := p.(producer := PStart(r, Block));
    StepIsReachable(p, TheProducer, Push(r, Block), p1);
    var p2 := p1.(producer := PChecked(r, Block));
    StepIsReachable(p1, TheProducer, Go, p2);
    var p3 := p2.(producer := PLoaded(r, Block, 0));
    StepIsReachable(p2, TheProducer, Go, p3);
    var p4 := p3.(producer := PWaitLock(r, Block, false));
    StepIsReachable(p3, TheProducer, Go, p4);
    var p5 := p4.(owner := ByProducer, producer := PWaitClosed(r, Block, false));
    StepIsReachable(p4, TheProducer, Go, p5);
    var p6 := p5.(producer := PWaitFull(r, Block, false));
    StepIsReachable(p5, TheProducer, Go, p6);
    var p7 := p6.(producer := PWaitTail(r, Block, false, 0));
    StepIsReachable(p6, TheProducer, Go, p7);
    var p8 := p7.(owner := Free, producer := PParked(r, Block));
    StepIsReachable(p7, TheProducer, Go, p8);
  }

  // No thread can take its next operation
  predicate Stuck(s: Ring)
    requires SlotsExist(s)
  {
    forall thread :: Step(s, thread, Go).None?
  }

  // If nothing moves then nobody is inside a call except a sleeper with reason:
  // the mutex is free, a sleeping producer faces a full open ring, a sleeping
  // consumer an empty open one, and at most one of them sleeps
  lemma NoDeadlock(s: Ring)
    requires Reachable(s) && 0 < s.capacity
    requires SlotsExist(s) && Stuck(s)
    ensures s.owner == Free
    ensures s.producer.PIdle? || s.producer.PDone?
            || (s.producer.PParked? && s.tail - s.head == s.capacity && !s.closed)
    ensures s.consumer.CIdle? || s.consumer.CDone? || (s.consumer.CParked? && s.head == s.tail && !s.closed)
    ensures !(s.producer.PParked? && s.consumer.CParked?)
  {
    ReachableIsInv(s);
    assert Step(s, TheProducer, Go).None?;
    assert Step(s, TheConsumer, Go).None?;
    assert Step(s, TheCloser, Go).None?;
  }

  // ---------- The watermark ----------

  // The watermark never passes the capacity and, once the push that reached it
  // has recorded it, is never below any occupancy reached
  lemma WatermarkBrackets(s: Ring)
    requires Reachable(s)
    ensures s.tail - s.head <= s.peak
    ensures s.highWatermark <= s.capacity
    ensures !Publishing(s.producer) ==> s.peak <= s.highWatermark
  {
    ReachableIsInv(s);
  }

  lemma PeakIsLargest(s: Ring, thread: Thread, choice: Choice, t: Ring)
    requires Reachable(s)
    requires SlotsExist(s) && Step(s, thread, choice) == Some(t)
    ensures t.peak == Max(s.peak, t.tail - t.head)
    ensures s.highWatermark <= t.highWatermark
  {
    hide SlotReady, Output, LockHeld, Wakeups, ProducerStep, ConsumerStep, CloserStep;
    ReachableIsInv(s);
    StepEffect(s, thread, choice, t);
  }

  // ---------- Closing ----------

  // Closed with no push under way is final: nothing is pushed any more
  lemma SettledIsFinal(s: Ring, thread: Thread, choice: Choice, t: Ring)
    requires s.closed && !InFlight(s.producer)
    requires SlotsExist(s) && Step(s, thread, choice) == Some(t)
    ensures t.closed && !InFlight(t.producer) && t.pushed == s.pushed
  {
    hide ProducerStep, ConsumerStep, CloserStep;
    StepEffect(s, thread, choice, t);
  }

  // A pop that loaded tail after that point reports Closed only on a drained ring
  lemma ClosedMeansDrained(s: Ring)
    requires Reachable(s)
    requires s.consumer.CDone? && s.consumer.popStatus == PopClosed && s.consumer.wasSettled
    ensures s.closed && s.popped == s.pushed
  {
    ReachableIsInv(s);
  }

  // In general a pop reporting Closed has drained the ring exactly when no push
  // published between its load of tail and its load of closed_
  lemma ClosedDrainsExactly(s: Ring, choice: Choice, t: Ring)
    requires Reachable(s)
    requires s.consumer.CEmpty? && s.closed
    requires SlotsExist(s) && ConsumerStep(s, choice) == Some(t)
    ensures t.consumer.CDone? && t.consumer.popStatus == PopClosed
    ensures t.popped == t.pushed <==> s.tail == s.consumer.tail
  {
    ReachableIsInv(s);
  }

  // A pop of a one-slot ring has loaded tail before the last push and before close
  function TailLoadedEarly(r: Sample): Ring {
    Empty(1, [r]).(consumer := CEmpty(Timed, 0, false))
  }

  function ThenPushed(r: Sample): Ring {
    TailLoadedEarly(r).(tail := 1, highWatermark := 1, producer := PDone(Pushed), pushed := [r], peak := 1)
  }

  function ThenClosed(r: Sample): Ring {
    ThenPushed(r).(closed := true, closer := KDone)
  }

  lemma TailIsLoadedEarly(r: Sample)
    ensures Reachable(TailLoadedEarly(r))
  {
    hide Reachable;
    EmptyIsReachable(1, [r]);
    var s := Empty(1, [r]);
    var s1 := s.(consumer := CStart(Timed));
    StepIsReachable(s, TheConsumer, Pop(Timed), s1);
    var s2 := s1.(consumer := CLoaded(Timed, 0, false));
    StepIsReachable(s1, TheConsumer, Go, s2);
    var s3 := s2.(consumer := CEmpty(Timed, 0, false));
    StepIsReachable(s2, TheConsumer, Go, s3);
  }

  lemma LastPushCompletes(r: Sample)
    ensures Reachable(ThenPushed(r))
  {
    hide Reachable;
    TailIsLoadedEarly(r);
    var s := TailLoadedEarly(r);
    var s1 := s.(producer := PStart(r, Timed));
    StepIsReachable(s, TheProducer, Push(r, Timed), s1);
    var s2 := s1.(producer := PChecked(r, Timed));
    StepIsReachable(s1, TheProducer, Go, s2);
    var s3 := s2.(producer := PLoaded(r, Timed, 0));
    StepIsReachable(s2, TheProducer, Go, s3);
    assert s3.storage[0 := r] == [r];
    var s4 := s3.(producer := PWritten(r, 0));
    StepIsReachable(s3, TheProducer, Go, s4);
    var s5 := s4.(owner := ByProducer, producer := PLocked(r, 0));
    StepIsReachable(s4, TheProducer, Go, s5);
    var s6 := s5.(tail := 1, producer := PPublished(0), pushed := [r], peak := 1);
    assert s5.pushed + [r] == [r];
    StepIsReachable(s5, TheProducer, Go, s6);
    var s7 := s6.(owner := Free, producer := PUnlocked(0));
    StepIsReachable(s6, TheProducer, Go, s7);
    var s8 := s7.(producer := PMark(0, 0));
    StepIsReachable(s7, TheProducer, Go, s8);
    var s9 := s8.(highWatermark := 1, producer := PNotify);
    StepIsReachable(s8, TheProducer, Go, s9);
    var s10 := s9.(producer := PDone(Pushed));
    StepIsReachable(s9, TheProducer, Go, s10);
  }

  lemma ThenTheRingCloses(r: Sample)
    ensures Reachable(ThenClosed(r))
  {
    hide Reachable;
    LastPushCompletes(r);
    var s := ThenPushed(r);
    var s1 := s.(owner := ByCloser, closer := KLocked);
    StepIsReachable(s, TheCloser, Close, s1);
    var s2 := s1.(closed := true, closer := KStored);
    StepIsReachable(s1, TheCloser, Go, s2);
    var s3 := s2.(owner := Free, closer := KNotifyData);
    StepIsReachable(s2, TheCloser, Go, s3);
    var s4 := s3.(closer := KNotifySpace);
    StepIsReachable(s3, TheCloser, Go, s4);
    var s5 := s4.(closer := KDone);
    StepIsReachable(s4, TheCloser, Go, s5);
  }

  // The sample published between the two loads of a pop stays in the ring: the pop
  // reports Closed, nothing was popped, one sample was pushed
  lemma ClosedMayLeaveSample(r: Sample) returns (s: Ring)
    ensures Reachable(s) && s.capacity == 1
    ensures s.consumer == CDone(PopClosed, [], false)
    ensures s.pushed == [r] && s.popped == [] && s.producer == PDone(Pushed)
  {
    hide Reachable;
    ThenTheRingCloses(r);
    s := ThenClosed(r).(consumer := CDone(PopClosed, [], false));
    StepIsReachable(ThenClosed(r), TheConsumer, Go, s);
  }
}
