/**
 What the status of one call on the ring says, whatever the other threads do during
 the call: why a push was refused, why a pop came back empty, and what was counted.
 */
module RingOutcomes {
  import opened Basics
  import opened RingProtocol
  import opened RingSafety
  import opened RingTheorems
  import opened RingCalls

  // ---------- Moments of a run ----------

  // The ring is full at some moment of the run
  ghost predicate SometimeFull(s: Ring, moves: seq<Move>)
    decreases |moves|
  {
    || s.tail - s.head >= s.capacity
    || (moves != [] && SlotsExist(s) && Step(s, moves[0].thread, moves[0].choice).Some?
        && SometimeFull(Step(s, moves[0].thread, moves[0].choice).value, moves[1..]))
  }

  // The ring is empty at some moment of the run
  ghost predicate SometimeEmpty(s: Ring, moves: seq<Move>)
    decreases |moves|
  {
    || s.tail == s.head
    || (moves != [] && SlotsExist(s) && Step(s, moves[0].thread, moves[0].choice).Some?
        && SometimeEmpty(Step(s, moves[0].thread, moves[0].choice).value, moves[1..]))
  }

  // Full, or empty, at a moment when the sleeper's deadline has already passed
  ghost predicate FullAtDeadline(s: Ring, moves: seq<Move>)
    decreases |moves|
  {
    || (s.tail - s.head >= s.capacity && PushExpired(s.producer))
    || (moves != [] && SlotsExist(s) && Step(s, moves[0].thread, moves[0].choice).Some?
        && FullAtDeadline(Step(s, moves[0].thread, moves[0].choice).value, moves[1..]))
  }

  ghost predicate EmptyAtDeadline(s: Ring, moves: seq<Move>)
    decreases |moves|
  {
    || (s.tail == s.head && PopExpired(s.consumer))
    || (moves != [] && SlotsExist(s) && Step(s, moves[0].thread, moves[0].choice).Some?
        && EmptyAtDeadline(Step(s, moves[0].thread, moves[0].choice).value, moves[1..]))
  }

  // ---------- Pushes ----------

  // What the producer has seen makes it refuse the sample.
  predicate SeesFull(s: Ring) {
    match s.producer
    case PLoaded(_, _, h) => s.tail - h >= s.capacity
    case PWaitTail(_, _, _, h) => s.tail - h >= s.capacity
    case PDone(status) => status == PushTimeout
    case _ => false
  }

  // A sleeper's deadline has passed
  predicate PushExpired(p: Producer) {
    match p
    case PWaitLock(_, _, expired) => expired
    case PWaitClosed(_, _, expired) => expired
    case PWaitFull(_, _, expired) => expired
    case PWaitTail(_, _, expired, _) => expired
    case _ => false
  }

  // The same after the deadline, for a call that waits
  predicate SeesFullLate(s: Ring, mode: Mode) {
    match s.producer
    case PWaitTail(_, _, expired, h) => expired && s.tail - h >= s.capacity
    case PDone(status) => status == PushTimeout && mode != Try
    case _ => false
  }

  // A call in the given mode has counted only what it gave up
  predicate PushTally(p: Producer, mode: Mode, counted: int) {
    match p
    case PIdle => false
    case PStart(_, m) => m == mode && counted == 0
    case PChecked(_, m) => m == mode && counted == 0
    case PLoaded(_, m, _) => m == mode && counted == 0
    case PWaitLock(_, m, expired) => m == mode && counted == 0 && m != Try && (expired ==> m == Timed)
    case PWaitClosed(_, m, expired) => m == mode && counted == 0 && m != Try && (expired ==> m == Timed)
    case PWaitFull(_, m, expired) => m == mode && counted == 0 && m != Try && (expired ==> m == Timed)
    case PWaitTail(_, m, expired, _) => m == mode && counted == 0 && m != Try && (expired ==> m == Timed)
    case PParked(_, m) => m == mode && counted == 0 && m != Try
    case PDone(status) =>
      if status == PushTimeout then mode != Block && counted == (if mode == Timed then 1 else 0) else counted == 0
    case _ => counted == 0
  }

  // A push that began on a closed ring goes no further than the first check.
  predicate PushOnClosed(p: Producer, closed: bool, wasClosed: bool) {
    && (wasClosed ==> closed && (p.PStart? || p == PDone(PushClosed)))
    && (p == PDone(PushClosed) ==> closed)
  }

  lemma TryPushOutcome(s: Ring, choice: Choice, t: Ring, mode: Mode, counted: int, wasClosed: bool)
    requires SlotsExist(s) && !PushWaiting(s.producer) && TryPushStep(s, choice) == Some(t)
    requires !s.producer.PDone?
    requires PushTally(s.producer, mode, counted) && PushOnClosed(s.producer, s.closed, wasClosed)
    ensures PushTally(t.producer, mode, counted + t.dropped - s.dropped)
    ensures PushOnClosed(t.producer, t.closed, wasClosed)
    ensures SeesFull(t) ==> SeesFull(s) || s.tail - s.head >= s.capacity
    ensures !SeesFullLate(t, mode)
    ensures !PushExpired(t.producer)
  {
    match s.producer
    case PStart(_, _) =>
    case PChecked(_, _) =>
    case PLoaded(_, _, _) =>
    case PWritten(_, _) =>
    case PLocked(_, _) =>
    case PPublished(_) =>
    case PUnlocked(_) =>
    case PMark(_, _) =>
    case PNotify =>
  }

  lemma PushOutcomeStep(s: Ring, move: Move, t: Ring, mode: Mode, counted: int, wasClosed: bool)
    requires SlotsExist(s) && Step(s, move.thread, move.choice) == Some(t)
    requires !(s.producer.PDone? && move.thread == TheProducer)
    requires PushTally(s.producer, mode, counted) && PushOnClosed(s.producer, s.closed, wasClosed)
    ensures PushTally(t.producer, mode, counted + t.dropped - s.dropped)
    ensures PushOnClosed(t.producer, t.closed, wasClosed)
    ensures SeesFull(t) ==> SeesFull(s) || s.tail - s.head >= s.capacity
    ensures SeesFullLate(t, mode) ==>
              SeesFullLate(s, mode) || (s.tail - s.head >= s.capacity && PushExpired(s.producer))
    ensures PushExpired(t.producer) ==> PushExpired(s.producer) || move == Move(TheProducer, Expire)
    ensures t.producer == PDone(PushTimeout) ==>
              s.producer == PDone(PushTimeout) || mode == Try || PushExpired(s.producer)
  {
    match move.thread
    case TheProducer =>
      if !PushWaiting(s.producer) {
        TryPushOutcome(s, move.choice, t, mode, counted, wasClosed);
      }
    case TheConsumer => PopLeavesPush(s, move.choice, t);
    case TheCloser =>
      CloseLeavesOthers(s, move.choice, t);
      CloseEffect(s, move.choice, t);
  }

  lemma PopLeavesPush(s: Ring, choice: Choice, t: Ring)
    requires SlotsExist(s) && ConsumerStep(s, choice) == Some(t)
    ensures t.dropped == s.dropped && t.closed == s.closed && t.tail == s.tail && t.capacity == s.capacity
    ensures t.producer == s.producer
            || (s.producer.PParked? && t.producer == PWaitLock(s.producer.record, s.producer.mode, false))
  {
    hide ConsumerStep;
    PopLeavesProducer(s, choice, t);
    PopEffect(s, choice, t);
    PopDropsNothing(s, choice, t);
  }

  lemma PopDropsNothing(s: Ring, choice: Choice, t: Ring)
    requires SlotsExist(s) && ConsumerStep(s, choice) == Some(t)
    ensures t.dropped == s.dropped
  {}

  lemma {:induction false} ThroughoutPushOutcome(s: Ring, moves: seq<Move>, t: Ring, mode: Mode, counted: int,
                                                 wasClosed: bool)
    requires DuringPush(s, moves, t)
    requires PushTally(s.producer, mode, counted) && PushOnClosed(s.producer, s.closed, wasClosed)
    ensures PushTally(t.producer, mode, counted + t.dropped - s.dropped)
    ensures PushOnClosed(t.producer, t.closed, wasClosed)
    ensures SeesFull(t) ==> SeesFull(s) || SometimeFull(s, moves)
    ensures SeesFullLate(t, mode) ==> SeesFullLate(s, mode) || FullAtDeadline(s, moves)
    ensures t.producer == PDone(PushTimeout) ==>
              || s.producer == PDone(PushTimeout) || mode == Try
              || PushExpired(s.producer) || Move(TheProducer, Expire) in moves
    decreases |moves|
  {
    hide Step, SlotsExist, PushTally, PushOnClosed, SeesFull, SeesFullLate, PushExpired;
    if moves != [] {
      var next := Step(s, moves[0].thread, moves[0].choice).value;
      PushOutcomeStep(s, moves[0], next, mode, counted, wasClosed);
      ThroughoutPushOutcome(next, moves[1..], t, mode, counted + next.dropped - s.dropped, wasClosed);
    }
  }

  // Why a push ends as it does, with the other threads making any moves in between.
  // Closed means that the ring is closed, and is what every push on a closed ring
  // reports.  Timeout means that the ring was full at some moment of the call; it is
  // never reported by a blocking push, and by a timed one only if the ring was full
  // when its deadline had already passed.  Only such a timed push counts its sample as dropped.
  lemma PushOutcome(s: Ring, sample: Sample, mode: Mode, begun: Ring, moves: seq<Move>, t: Ring)
    requires s.producer.PIdle? || s.producer.PDone?
    requires SlotsExist(s) && ProducerStep(s, Push(sample, mode)) == Some(begun)
    requires DuringPush(begun, moves, t) && t.producer.PDone?
    ensures t.producer.pushStatus == PushClosed ==> t.closed
    ensures s.closed ==> t.producer.pushStatus == PushClosed
    ensures t.producer.pushStatus == PushTimeout ==> SometimeFull(begun, moves) && mode != Block
    ensures t.producer.pushStatus == PushTimeout && mode == Timed ==>
              Move(TheProducer, Expire) in moves && FullAtDeadline(begun, moves)
    ensures t.dropped == s.dropped + if t.producer.pushStatus == PushTimeout && mode == Timed then 1 else 0
  {
    hide SlotsExist, DuringPush, SometimeFull, FullAtDeadline;
    ThroughoutPushOutcome(begun, moves, t, mode, 0, s.closed);
  }

  // ---------- Pops ----------

  // What the consumer has seen makes it report that there is nothing.
  predicate SeesEmpty(s: Ring) {
    match s.consumer
    case CLoaded(_, tail, _) => s.head == tail
    case CEmpty(_, _, _) => true
    case CDone(status, _, _) => status != Popped
    case _ => false
  }

  predicate SeesEmptyLate(c: Consumer, mode: Mode) {
    c.CDone? && c.popStatus == PopTimeout && mode != Try
  }

  predicate PopExpired(c: Consumer) {
    match c
    case CWaitLock(_, expired) => expired
    case CWaitClosed(_, expired) => expired
    case CWaitHead(_, expired) => expired
    case CWaitTail(_, expired) => expired
    case _ => false
  }

  // The mode of a pop; a batch has none.
  predicate PopMode(c: Consumer, mode: Mode) {
    match c
    case CIdle => false
    case CStart(m) => m == mode
    case CLoaded(m, _, _) => m == mode
    case CEmpty(m, _, _) => m == mode
    case CWaitLock(m, expired) => m == mode && m != Try && (expired ==> m == Timed)
    case CWaitClosed(m, expired) => m == mode && m != Try && (expired ==> m == Timed)
    case CWaitHead(m, expired) => m == mode && m != Try && (expired ==> m == Timed)
    case CWaitTail(m, expired) => m == mode && m != Try && (expired ==> m == Timed)
    case CParked(m) => m == mode && m != Try
    case CDone(status, _, _) => status == PopTimeout ==> mode != Block
    case CBatchStart(_) => false
    case _ => true
  }

  // A pop that began on a closed ring never waits.
  predicate PopOnClosed(c: Consumer, closed: bool, wasClosed: bool) {
    && (wasClosed ==> closed && !PopWaiting(c) && (c.CDone? ==> c.popStatus != PopTimeout))
    && (c.CDone? && c.popStatus == PopClosed ==> closed)
  }

  lemma TryPopOutcome(s: Ring, choice: Choice, t: Ring, mode: Mode, wasClosed: bool)
    requires SlotsExist(s) && !PopWaiting(s.consumer) && TryPopStep(s, choice) == Some(t)
    requires !s.consumer.CDone?
    requires PopMode(s.consumer, mode) && PopOnClosed(s.consumer, s.closed, wasClosed)
    ensures PopMode(t.consumer, mode) && PopOnClosed(t.consumer, t.closed, wasClosed)
    ensures SeesEmpty(t) ==> SeesEmpty(s) || s.tail == s.head
    ensures !PopExpired(t.consumer)
    ensures t.consumer.CDone? && t.consumer.popStatus == PopTimeout ==> mode == Try
  {
    match s.consumer
    case CStart(_) =>
    case CLoaded(_, _, _) =>
    case CEmpty(_, _, _) =>
    case CCopying(_, _) =>
    case CLocked(_, _) =>
    case CPublished(_) =>
    case CNotify(_) =>
  }

  lemma PopOutcomeStep(s: Ring, move: Move, t: Ring, mode: Mode, wasClosed: bool)
    requires SlotsExist(s) && Step(s, move.thread, move.choice) == Some(t)
    requires !(s.consumer.CDone? && move.thread == TheConsumer)
    requires PopMode(s.consumer, mode) && PopOnClosed(s.consumer, s.closed, wasClosed)
    ensures PopMode(t.consumer, mode) && PopOnClosed(t.consumer, t.closed, wasClosed)
    ensures SeesEmpty(t) ==> SeesEmpty(s) || s.tail == s.head
    ensures SeesEmptyLate(t.consumer, mode) ==>
              SeesEmptyLate(s.consumer, mode) || (s.tail == s.head && PopExpired(s.consumer))
    ensures PopExpired(t.consumer) ==> PopExpired(s.consumer) || move == Move(TheConsumer, Expire)
    ensures t.consumer.CDone? && t.consumer.popStatus == PopTimeout ==>
              (s.consumer.CDone? && s.consumer.popStatus == PopTimeout) || mode == Try || PopExpired(s.consumer)
  {
    match move.thread
    case TheConsumer =>
      if !PopWaiting(s.consumer) {
        TryPopOutcome(s, move.choice, t, mode, wasClosed);
      }
    case TheProducer => PushLeavesPop(s, move.choice, t);
    case TheCloser =>
      CloseLeavesOthers(s, move.choice, t);
      CloseEffect(s, move.choice, t);
  }

  lemma PushLeavesPop(s: Ring, choice: Choice, t: Ring)
    requires SlotsExist(s) && ProducerStep(s, choice) == Some(t)
    ensures t.closed == s.closed && t.head == s.head
    ensures t.consumer == s.consumer
            || (s.consumer.CParked? && t.consumer == CWaitLock(s.consumer.mode, false))
  {
    hide ProducerStep;
    PushLeavesConsumer(s, choice, t);
    PushEffect(s, choice, t);
  }

  lemma {:induction false} ThroughoutPopOutcome(s: Ring, moves: seq<Move>, t: Ring, mode: Mode, wasClosed: bool)
    requires DuringPop(s, moves, t)
    requires PopMode(s.consumer, mode) && PopOnClosed(s.consumer, s.closed, wasClosed)
    ensures PopMode(t.consumer, mode) && PopOnClosed(t.consumer, t.closed, wasClosed)
    ensures SeesEmpty(t) ==> SeesEmpty(s) || SometimeEmpty(s, moves)
    ensures SeesEmptyLate(t.consumer, mode) ==> SeesEmptyLate(s.consumer, mode) || EmptyAtDeadline(s, moves)
    ensures t.consumer.CDone? && t.consumer.popStatus == PopTimeout ==>
              || (s.consumer.CDone? && s.consumer.popStatus == PopTimeout) || mode == Try
              || PopExpired(s.consumer) || Move(TheConsumer, Expire) in moves
    decreases |moves|
  {
    hide Step, SlotsExist, PopMode, PopOnClosed, SeesEmpty, SeesEmptyLate, PopExpired;
    if moves != [] {
      var next := Step(s, moves[0].thread, moves[0].choice).value;
      PopOutcomeStep(s, moves[0], next, mode, wasClosed);
      ThroughoutPopOutcome(next, moves[1..], t, mode, wasClosed);
    }
  }

  // Why a pop ends as it does.  Timeout and Closed mean that the ring was empty at
  // some moment of the call.  Closed means that the ring is closed.  Timeout is never
  // reported by a blocking pop or by a pop that began on a closed ring, and by a timed
  // one only if the ring was empty when its deadline had already passed.
  lemma PopOutcome(s: Ring, mode: Mode, begun: Ring, moves: seq<Move>, t: Ring)
    requires s.consumer.CIdle? || s.consumer.CDone?
    requires SlotsExist(s) && ConsumerStep(s, Pop(mode)) == Some(begun)
    requires DuringPop(begun, moves, t) && t.consumer.CDone?
    ensures t.consumer.popStatus != Popped ==> SometimeEmpty(begun, moves)
    ensures t.consumer.popStatus == PopClosed ==> t.closed
    ensures t.consumer.popStatus == PopTimeout ==> mode != Block && !s.closed
    ensures t.consumer.popStatus == PopTimeout && mode == Timed ==>
              Move(TheConsumer, Expire) in moves && EmptyAtDeadline(begun, moves)
  {
    hide SlotsExist, DuringPop, SometimeEmpty, EmptyAtDeadline;
    ThroughoutPopOutcome(begun, moves, t, mode, s.closed);
  }
}
