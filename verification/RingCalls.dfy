/**
 One call on the ring, from its first operation to its return, while the other
 threads keep moving: a push appends its sample exactly once if it reports Pushed
 and not at all otherwise; a pop takes exactly what it returns.
 */
module RingCalls {
  import opened Basics
  import opened LogFormat
  import opened RingProtocol
  import opened RingSafety
  import opened RingTheorems

  // before is what had been pushed when the call began.
  predicate PushCall(p: Producer, pushed: seq<Sample>, before: seq<Sample>, sample: Sample) {
    match p
    case PIdle => false
    case PDone(status) => pushed == (if status == Pushed then before + [sample] else before)
    case PPublished(_) => pushed == before + [sample]
    case PUnlocked(_) => pushed == before + [sample]
    case PMark(_, _) => pushed == before + [sample]
    case PNotify => pushed == before + [sample]
    case _ => pushed == before && p.record == sample
  }

  // before is what had been popped when the call began; a batch may return
  // nothing and at most limit samples, a pop returns one sample or none.
  predicate PopCall(c: Consumer, popped: seq<Sample>, before: seq<Sample>, batch: bool, limit: int) {
    match c
    case CIdle => false
    case CDone(status, output, _) =>
      && popped == before + output
      && (if batch then status == Popped && |output| <= limit else |output| == if status == Popped then 1 else 0)
    case CBatchStart(most) => batch && most <= limit && popped == before
    case CCopying(count, copied) => popped == before && CountFits(count, batch, limit)
    case CLocked(count, copied) => popped == before && |copied| == count && CountFits(count, batch, limit)
    case CPublished(copied) => popped == before + copied && CountFits(|copied|, batch, limit)
    case CNotify(copied) => popped == before + copied && CountFits(|copied|, batch, limit)
    case _ => popped == before && !batch
  }

  predicate CountFits(count: int, batch: bool, limit: int) {
    if batch then count <= limit else count == 1
  }

  lemma PushBegins(s: Ring, sample: Sample, mode: Mode, t: Ring)
    requires SlotsExist(s) && ProducerStep(s, Push(sample, mode)) == Some(t)
    requires s.producer.PIdle? || s.producer.PDone?
    ensures PushCall(t.producer, t.pushed, s.pushed, sample)
  {}

  lemma PushContinues(s: Ring, choice: Choice, t: Ring, before: seq<Sample>, sample: Sample)
    requires SlotsExist(s) && ProducerStep(s, choice) == Some(t)
    requires !s.producer.PDone?
    requires PushCall(s.producer, s.pushed, before, sample)
    ensures PushCall(t.producer, t.pushed, before, sample)
  {
    if !PushWaiting(s.producer) {
      TryPushContinues(s, choice, t, before, sample);
    }
  }

  lemma TryPushContinues(s: Ring, choice: Choice, t: Ring, before: seq<Sample>, sample: Sample)
    requires SlotsExist(s) && !PushWaiting(s.producer) && TryPushStep(s, choice) == Some(t)
    requires !s.producer.PDone?
    requires PushCall(s.producer, s.pushed, before, sample)
    ensures PushCall(t.producer, t.pushed, before, sample)
  {
    match s.producer
    case PStart(_, _) =>
    case PChecked(_, _) =>
    case PLoaded(_, _, _) =>
    case PWritten(_, _) =>
    case PLocked(_, _) =>
    case PPublished(_) =>
    case PUnlocked(_) =>
    case PMark(_, _) =>
    case PNotify =>
  }

  lemma PopBegins(s: Ring, call: Choice, t: Ring)
    requires SlotsExist(s) && ConsumerStep(s, call) == Some(t)
    requires s.consumer.CIdle? || s.consumer.CDone?
    ensures call.Pop? || call.PopBatch?
    ensures call.Pop? ==> t.consumer == CStart(call.popMode)
    ensures PopCall(t.consumer, t.popped, s.popped, call.PopBatch?, if call.PopBatch? then call.limit else 1)
  {}

  lemma PopContinues(s: Ring, choice: Choice, t: Ring, before: seq<Sample>, batch: bool, limit: int)
    requires SlotsExist(s) && ConsumerStep(s, choice) == Some(t)
    requires ConsumerView(s.consumer, s.head, s.tail, s.closed, InFlight(s.producer))
    requires !s.consumer.CDone?
    requires PopCall(s.consumer, s.popped, before, batch, limit)
    ensures PopCall(t.consumer, t.popped, before, batch, limit)
  {
    if !PopWaiting(s.consumer) {
      TryPopContinues(s, choice, t, before, batch, limit);
    }
  }

  lemma TryPopContinues(s: Ring, choice: Choice, t: Ring, before: seq<Sample>, batch: bool, limit: int)
    requires SlotsExist(s) && !PopWaiting(s.consumer) && TryPopStep(s, choice) == Some(t)
    requires ConsumerView(s.consumer, s.head, s.tail, s.closed, InFlight(s.producer))
    requires !s.consumer.CDone?
    requires PopCall(s.consumer, s.popped, before, batch, limit)
    ensures PopCall(t.consumer, t.popped, before, batch, limit)
  {
    match s.consumer
    case CStart(_) =>
    case CLoaded(_, _, _) =>
    case CEmpty(_, _, _) =>
    case CBatchStart(_) =>
    case CCopying(_, _) =>
    case CLocked(_, _) =>
    case CPublished(_) =>
    case CNotify(_) =>
  }

  // What the consumer's operations do to the producer, and the reverse: at most
  // they wake it.
  lemma PopLeavesProducer(s: Ring, choice: Choice, t: Ring)
    requires SlotsExist(s) && ConsumerStep(s, choice) == Some(t)
    ensures t.producer == s.producer
            || (s.producer.PParked? && t.producer == PWaitLock(s.producer.record, s.producer.mode, false))
  {}

  lemma PushLeavesConsumer(s: Ring, choice: Choice, t: Ring)
    requires SlotsExist(s) && ProducerStep(s, choice) == Some(t)
    ensures t.consumer == s.consumer
            || (s.consumer.CParked? && t.consumer == CWaitLock(s.consumer.mode, false))
  {}

  lemma CloseLeavesOthers(s: Ring, choice: Choice, t: Ring)
    requires CloserStep(s, choice) == Some(t)
    ensures t.producer == s.producer
            || (s.producer.PParked? && t.producer == PWaitLock(s.producer.record, s.producer.mode, false))
    ensures t.consumer == s.consumer
            || (s.consumer.CParked? && t.consumer == CWaitLock(s.consumer.mode, false))
  {}

  // seen is the tail that the consumer's pop loaded last.
  predicate Seen(c: Consumer, head: nat, seen: nat) {
    match c
    case CLoaded(_, t, _) => t == seen
    case CEmpty(_, t, _) => t == seen
    case CDone(PopClosed, _, _) => head == seen
    case _ => true
  }

  lemma SeenContinues(s: Ring, choice: Choice, t: Ring, seen: nat)
    requires SlotsExist(s) && ConsumerStep(s, choice) == Some(t)
    requires !s.consumer.CDone? && !s.consumer.CIdle?
    requires ConsumerView(s.consumer, s.head, s.tail, s.closed, InFlight(s.producer))
    requires Seen(s.consumer, s.head, seen)
    ensures Seen(t.consumer, t.head, if s.consumer.CStart? then s.tail else seen)
  {
    if !PopWaiting(s.consumer) {
      match s.consumer
      case CStart(_) =>
      case CLoaded(_, _, _) =>
      case CEmpty(_, _, _) =>
      case CBatchStart(_) =>
      case CCopying(_, _) =>
      case CLocked(_, _) =>
      case CPublished(_) =>
      case CNotify(_) =>
    }
  }

  // ---------- Whole calls ----------

  // A run in which the producer makes no move once its call has returned
  ghost predicate DuringPush(s: Ring, moves: seq<Move>, t: Ring)
    decreases |moves|
  {
    if moves == [] then s == t
    else
      && SlotsExist(s) && !(s.producer.PDone? && moves[0].thread == TheProducer)
      && Step(s, moves[0].thread, moves[0].choice).Some?
      && DuringPush(Step(s, moves[0].thread, moves[0].choice).value, moves[1..], t)
  }

  // The same for the consumer
  ghost predicate DuringPop(s: Ring, moves: seq<Move>, t: Ring)
    decreases |moves|
  {
    if moves == [] then s == t
    else
      && SlotsExist(s) && !(s.consumer.CDone? && moves[0].thread == TheConsumer)
      && Step(s, moves[0].thread, moves[0].choice).Some?
      && DuringPop(Step(s, moves[0].thread, moves[0].choice).value, moves[1..], t)
  }

  lemma StepDuringPush(s: Ring, move: Move, t: Ring, before: seq<Sample>, sample: Sample)
    requires SlotsExist(s) && Step(s, move.thread, move.choice) == Some(t)
    requires !(s.producer.PDone? && move.thread == TheProducer)
    requires PushCall(s.producer, s.pushed, before, sample)
    ensures PushCall(t.producer, t.pushed, before, sample)
  {
    hide ProducerStep, ConsumerStep, CloserStep, SlotsExist;
    match move.thread
    case TheProducer =>
      PushContinues(s, move.choice, t, before, sample);
    case TheConsumer =>
      PopLeavesProducer(s, move.choice, t);
      PopEffect(s, move.choice, t);
    case TheCloser =>
      CloseLeavesOthers(s, move.choice, t);
      CloseEffect(s, move.choice, t);
  }

  lemma StepDuringPop(s: Ring, move: Move, t: Ring, before: seq<Sample>, batch: bool, limit: int)
    requires SlotsExist(s) && Step(s, move.thread, move.choice) == Some(t)
    requires !(s.consumer.CDone? && move.thread == TheConsumer)
    requires ConsumerView(s.consumer, s.head, s.tail, s.closed, InFlight(s.producer))
    requires PopCall(s.consumer, s.popped, before, batch, limit)
    ensures PopCall(t.consumer, t.popped, before, batch, limit)
  {
    hide ProducerStep, ConsumerStep, CloserStep, SlotsExist, ConsumerView;
    match move.thread
    case TheProducer =>
      PushLeavesConsumer(s, move.choice, t);
      PushEffect(s, move.choice, t);
    case TheConsumer =>
      PopContinues(s, move.choice, t, before, batch, limit);
    case TheCloser =>
      CloseLeavesOthers(s, move.choice, t);
      CloseEffect(s, move.choice, t);
  }

  lemma {:induction false} ThroughoutPush(s: Ring, moves: seq<Move>, t: Ring, before: seq<Sample>, sample: Sample)
    requires PushCall(s.producer, s.pushed, before, sample)
    requires DuringPush(s, moves, t)
    ensures PushCall(t.producer, t.pushed, before, sample)
    decreases |moves|
  {
    hide Step, SlotsExist, PushCall;
    if moves != [] {
      var next := Step(s, moves[0].thread, moves[0].choice).value;
      StepDuringPush(s, moves[0], next, before, sample);
      ThroughoutPush(next, moves[1..], t, before, sample);
    }
  }

  lemma {:induction false} ThroughoutPop(s: Ring, moves: seq<Move>, t: Ring, before: seq<Sample>, batch: bool,
                                         limit: int)
    requires PopCall(s.consumer, s.popped, before, batch, limit)
    requires DuringPop(s, moves, t)
    requires Inv(s)
    ensures PopCall(t.consumer, t.popped, before, batch, limit) && Inv(t)
    decreases |moves|
  {
    hide Step, SlotsExist, PopCall, Cells, ProducerView, SlotReady, ConsumerView, Output, LockHeld, Marks, Wakeups;
    if moves != [] {
      var next := Step(s, moves[0].thread, moves[0].choice).value;
      StepDuringPop(s, moves[0], next, before, batch, limit);
      StepKeepsInv(s, moves[0].thread, moves[0].choice, next);
      ThroughoutPop(next, moves[1..], t, before, batch, limit);
    }
  }

  // From its first operation to its return, with the other threads making any moves
  // in between, a push appends its sample exactly once if it reports Pushed, and
  // nothing otherwise.
  lemma WholePush(s: Ring, sample: Sample, mode: Mode, begun: Ring, moves: seq<Move>, t: Ring)
    requires s.producer.PIdle? || s.producer.PDone?
    requires SlotsExist(s) && ProducerStep(s, Push(sample, mode)) == Some(begun)
    requires DuringPush(begun, moves, t) && t.producer.PDone?
    ensures t.pushed == if t.producer.pushStatus == Pushed then s.pushed + [sample] else s.pushed
  {
    hide ProducerStep, SlotsExist, DuringPush;
    PushBegins(s, sample, mode, begun);
    ThroughoutPush(begun, moves, t, s.pushed, sample);
  }

  // A pop releases exactly what it returns: one sample if it reports Popped and none
  // otherwise; a batch at most its limit.  They are the samples that were next.
  lemma WholePop(s: Ring, call: Choice, begun: Ring, moves: seq<Move>, t: Ring)
    requires s.consumer.CIdle? || s.consumer.CDone?
    requires SlotsExist(s) && ConsumerStep(s, call) == Some(begun)
    requires DuringPop(begun, moves, t) && t.consumer.CDone?
    requires Reachable(s)
    ensures call.Pop? || call.PopBatch?
    ensures t.popped == s.popped + t.consumer.output <= t.pushed
    ensures call.Pop? ==> |t.consumer.output| == if t.consumer.popStatus == Popped then 1 else 0
    ensures call.PopBatch? ==> t.consumer.popStatus == Popped && |t.consumer.output| <= call.limit
  {
    hide ConsumerStep, SlotsExist, DuringPop, Inv, Reachable;
    ReachableIsInv(s);
    StepKeepsInv(s, TheConsumer, call, begun);
    PopBegins(s, call, begun);
    ThroughoutPop(begun, moves, t, s.popped, call.PopBatch?, if call.PopBatch? then call.limit else 1);
    LiveIsUnpopped(t);
  }
}
