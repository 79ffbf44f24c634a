/**
 The single-producer single-consumer ring as three threads that interleave at
 every load, store, lock operation, notification and slot copy: a producer, a
 consumer and a thread that closes the ring.  Steps are sequentially consistent.
 */
module RingProtocol {
  import opened Basics
  import opened LogFormat

  type Sample = FlightRecord

  datatype Owner = Free | ByProducer | ByConsumer | ByCloser

  // try_push and try_pop; push_blocking and pop_blocking; the timed variants
  datatype Mode = Try | Block | Timed

  datatype PushStatus = Pushed | PushTimeout | PushClosed

  datatype PopStatus = Popped | PopTimeout | PopClosed

  // Where the producer is.  head is its snapshot of the consumer's cursor.
  datatype Producer =
    | PIdle
    | PStart(record: Sample, mode: Mode)                        // before loading closed_
    | PChecked(record: Sample, mode: Mode)                      // before loading the cursors
    | PLoaded(record: Sample, mode: Mode, head: nat)            // before the full check
    | PWritten(record: Sample, head: nat)                       // the slot is written
    | PLocked(record: Sample, head: nat)                        // holds the wait mutex
    | PPublished(head: nat)                                     // tail is stored
    | PUnlocked(head: nat)                                      // before loading the watermark
    | PMark(head: nat, previous: int)                           // before the compare-exchange
    | PNotify                                                   // before notify_one
    | PWaitLock(record: Sample, mode: Mode, expired: bool)      // before locking to wait
    | PWaitClosed(record: Sample, mode: Mode, expired: bool)    // evaluates closed()
    | PWaitFull(record: Sample, mode: Mode, expired: bool)      // evaluates full(): head first
    | PWaitTail(record: Sample, mode: Mode, expired: bool, head: nat)
    | PParked(record: Sample, mode: Mode)                       // sleeps on space_available_
    | PDone(pushStatus: PushStatus)

  // Where the consumer is.  tail is its snapshot of the producer's cursor;
  // settled records that at that load the ring was closed and no push was under
  // way.
  datatype Consumer =
    | CIdle
    | CStart(mode: Mode)
    | CLoaded(mode: Mode, tail: nat, settled: bool)
    | CEmpty(mode: Mode, tail: nat, settled: bool)              // before loading closed_
    | CBatchStart(limit: nat)
    | CCopying(count: int, copied: seq<Sample>)
    | CLocked(count: int, copied: seq<Sample>)
    | CPublished(copied: seq<Sample>)
    | CNotify(copied: seq<Sample>)
    | CWaitLock(mode: Mode, expired: bool)
    | CWaitClosed(mode: Mode, expired: bool)
    | CWaitHead(mode: Mode, expired: bool)
    | CWaitTail(mode: Mode, expired: bool)
    | CParked(mode: Mode)                                       // sleeps on data_available_
    | CDone(popStatus: PopStatus, output: seq<Sample>, wasSettled: bool)

  datatype Closer = KIdle | KLocked | KStored | KNotifyData | KNotifySpace | KDone

  datatype Ring = Ring(
    capacity: nat, storage: seq<Sample>, head: nat, tail: nat, closed: bool, highWatermark: int,
    owner: Owner, producer: Producer, consumer: Consumer, closer: Closer,
    pushed: seq<Sample>,  // every sample published, in order
    popped: seq<Sample>,  // every sample released by the consumer, in order
    peak: int,            // the largest occupancy reached
    dropped: nat)         // timed pushes that gave up

  function Empty(capacity: nat, storage: seq<Sample>): Ring {
    Ring(capacity, storage, 0, 0, false, 0, Free, PIdle, CIdle, KIdle, [], [], 0, 0)
  }

  // What the scheduler and the environment decide
  datatype Choice =
    | Go                                  // the thread's next operation
    | Push(record: Sample, pushMode: Mode)
    | Pop(popMode: Mode)
    | PopBatch(limit: nat)
    | Spurious                            // a weak exchange fails, or a sleeper wakes for no reason
    | Expire                              // a sleeper's deadline passes
    | Close

  // A push that has seen the ring open and has not yet published
  predicate InFlight(p: Producer) {
    p.PChecked? || p.PLoaded? || p.PWritten? || p.PLocked?
  }

  // notify_one on data_available_, and on space_available_
  function WakeConsumer(s: Ring): Ring {
    if s.consumer.CParked? then s.(consumer := CWaitLock(s.consumer.mode, false)) else s
  }

  function WakeProducer(s: Ring): Ring {
    if s.producer.PParked? then s.(producer := PWaitLock(s.producer.record, s.producer.mode, false)) else s
  }

  // The slot the producer writes and the slots the consumer copies are in the
  // storage, and cursors only grow
  predicate SlotsExist(s: Ring) {
    && |s.storage| == s.capacity
    && (s.producer.PLoaded? && s.tail - s.producer.head < s.capacity ==> s.capacity > 0)
    && (s.consumer.CCopying? && |s.consumer.copied| < s.consumer.count ==> s.capacity > 0)
    && (s.consumer.CLocked? ==> s.consumer.count >= 0)
  }

  // Between a refused push and the next attempt
  predicate PushWaiting(p: Producer) {
    p.PWaitLock? || p.PWaitClosed? || p.PWaitFull? || p.PWaitTail? || p.PParked?
  }

  predicate PopWaiting(c: Consumer) {
    c.CWaitLock? || c.CWaitClosed? || c.CWaitHead? || c.CWaitTail? || c.CParked?
  }

  // One operation of the producer; None if it cannot be taken
  function ProducerStep(s: Ring, choice: Choice): Option<Ring>
    requires SlotsExist(s)
  {
    if PushWaiting(s.producer) then PushWaitStep(s, choice) else TryPushStep(s, choice)
  }

  // try_push, and the caller's choice between calls
  function TryPushStep(s: Ring, choice: Choice): Option<Ring>
    requires SlotsExist(s) && !PushWaiting(s.producer)
  {
    match s.producer
    case PIdle =>
      if choice.Push? then Some(s.(producer := PStart(choice.record, choice.pushMode))) else None
    case PDone(_) =>
      if choice.Push? then Some(s.(producer := PStart(choice.record, choice.pushMode))) else None
    case PStart(r, m) =>
      Some(s.(producer := if s.closed then PDone(PushClosed) else PChecked(r, m)))
    case PChecked(r, m) =>
      Some(s.(producer := PLoaded(r, m, s.head)))
    case PLoaded(r, m, h) =>
      if s.tail - h >= s.capacity then
        Some(s.(producer := if m == Try then PDone(PushTimeout) else PWaitLock(r, m, false)))
      else
        Some(s.(storage := s.storage[s.tail % s.capacity := r], producer := PWritten(r, h)))
    case PWritten(r, h) =>
      if s.owner == Free then Some(s.(owner := ByProducer, producer := PLocked(r, h))) else None
    case PLocked(r, h) =>
      Some(s.(tail := s.tail + 1, producer := PPublished(h), pushed := s.pushed + [r],
              peak := Max(s.peak, s.tail + 1 - s.head)))
    case PPublished(h) =>
      Some(s.(owner := Free, producer := PUnlocked(h)))
    case PUnlocked(h) =>
      Some(s.(producer := PMark(h, s.highWatermark)))
    case PMark(h, previous) =>
      var size := s.tail - h;
      if previous >= size then Some(s.(producer := PNotify))
      else if choice == Spurious || s.highWatermark != previous then
        Some(s.(producer := PMark(h, s.highWatermark)))
      else Some(s.(highWatermark := size, producer := PNotify))
    case PNotify =>
      Some(WakeConsumer(s).(producer := PDone(Pushed)))
  }

  // The waits of push_blocking and push_wait_for, with the mutex and the
  // predicate spelled out
  function PushWaitStep(s: Ring, choice: Choice): Option<Ring>
    requires PushWaiting(s.producer)
  {
    match s.producer
    case PWaitLock(r, m, expired) =>
      if s.owner == Free then Some(s.(owner := ByProducer, producer := PWaitClosed(r, m, expired))) else None
    case PWaitClosed(r, m, expired) =>
      if s.closed then Some(s.(owner := Free, producer := PStart(r, m)))
      else Some(s.(producer := PWaitFull(r, m, expired)))
    case PWaitFull(r, m, expired) =>
      Some(s.(producer := PWaitTail(r, m, expired, s.head)))
    case PWaitTail(r, m, expired, h) =>
      if s.tail - h < s.capacity then Some(s.(owner := Free, producer := PStart(r, m)))
      else if expired then
        Some(s.(owner := Free, producer := PDone(PushTimeout), dropped := s.dropped + 1))
      else Some(s.(owner := Free, producer := PParked(r, m)))
    case PParked(r, m) =>
      if choice == Spurious then Some(s.(producer := PWaitLock(r, m, false)))
      else if choice == Expire && m == Timed then Some(s.(producer := PWaitLock(r, m, true)))
      else None
  }

  // One operation of the consumer; None if it cannot be taken
  function ConsumerStep(s: Ring, choice: Choice): Option<Ring>
    requires SlotsExist(s)
  {
    if PopWaiting(s.consumer) then PopWaitStep(s, choice) else TryPopStep(s, choice)
  }

  // try_pop_status and try_pop_batch, and the caller's choice between calls
  function TryPopStep(s: Ring, choice: Choice): Option<Ring>
    requires SlotsExist(s) && !PopWaiting(s.consumer)
  {
    match s.consumer
    case CIdle => ConsumerStart(s, choice)
    case CDone(_, _, _) => ConsumerStart(s, choice)
    case CStart(m) =>
      Some(s.(consumer := CLoaded(m, s.tail, s.closed && !InFlight(s.producer))))
    case CLoaded(m, t, settled) =>
      if s.head == t then Some(s.(consumer := CEmpty(m, t, settled)))
      else Some(s.(consumer := CCopying(1, [])))
    case CEmpty(m, t, settled) =>
      if s.closed then Some(s.(consumer := CDone(PopClosed, [], settled)))
      else if m == Try then Some(s.(consumer := CDone(PopTimeout, [], settled)))
      else Some(s.(consumer := CWaitLock(m, false)))
    case CBatchStart(limit) =>
      var count := Min(limit, s.tail - s.head);
      Some(s.(consumer := if count == 0 then CDone(Popped, [], false) else CCopying(count, [])))
    case CCopying(count, copied) =>
      if |copied| < count then
        Some(s.(consumer := CCopying(count, copied + [s.storage[(s.head + |copied|) % s.capacity]])))
      else if s.owner == Free then Some(s.(owner := ByConsumer, consumer := CLocked(count, copied)))
      else None
    case CLocked(count, copied) =>
      Some(s.(head := s.head + count, popped := s.popped + copied, consumer := CPublished(copied)))
    case CPublished(copied) =>
      Some(s.(owner := Free, consumer := CNotify(copied)))
    case CNotify(copied) =>
      Some(WakeProducer(s).(consumer := CDone(Popped, copied, false)))
  }

  // The waits of pop_blocking and pop_wait_for
  function PopWaitStep(s: Ring, choice: Choice): Option<Ring>
    requires PopWaiting(s.consumer)
  {
    match s.consumer
    case CWaitLock(m, expired) =>
      if s.owner == Free then Some(s.(owner := ByConsumer, consumer := CWaitClosed(m, expired))) else None
    case CWaitClosed(m, expired) =>
      if s.closed then Some(s.(owner := Free, consumer := CStart(m)))
      else Some(s.(consumer := CWaitHead(m, expired)))
    case CWaitHead(m, expired) =>
      Some(s.(consumer := CWaitTail(m, expired)))
    case CWaitTail(m, expired) =>
      if s.head != s.tail then Some(s.(owner := Free, consumer := CStart(m)))
      else if expired then Some(s.(owner := Free, consumer := CDone(PopTimeout, [], false)))
      else Some(s.(owner := Free, consumer := CParked(m)))
    case CParked(m) =>
      if choice == Spurious then Some(s.(consumer := CWaitLock(m, false)))
      else if choice == Expire && m == Timed then Some(s.(consumer := CWaitLock(m, true)))
      else None
  }

  function ConsumerStart(s: Ring, choice: Choice): Option<Ring> {
    match choice
    case Pop(m) => Some(s.(consumer := CStart(m)))
    case PopBatch(limit) => Some(s.(consumer := if limit == 0 then CDone(Popped, [], false) else CBatchStart(limit)))
    case _ => None
  }

  function CloserStep(s: Ring, choice: Choice): Option<Ring> {
    match s.closer
    case KIdle =>
      if choice == Close && s.owner == Free then Some(s.(owner := ByCloser, closer := KLocked)) else None
    case KLocked => Some(s.(closed := true, closer := KStored))
    case KStored => Some(s.(owner := Free, closer := KNotifyData))
    case KNotifyData => Some(WakeConsumer(s).(closer := KNotifySpace))
    case KNotifySpace => Some(WakeProducer(s).(closer := KDone))
    case KDone =>
      if choice == Close && s.owner == Free then Some(s.(owner := ByCloser, closer := KLocked)) else None
  }

  datatype Thread = TheProducer | TheConsumer | TheCloser

  function Step(s: Ring, thread: Thread, choice: Choice): Option<Ring>
    requires SlotsExist(s)
  {
    match thread
    case TheProducer => ProducerStep(s, choice)
    case TheConsumer => ConsumerStep(s, choice)
    case TheCloser => CloserStep(s, choice)
  }
}
