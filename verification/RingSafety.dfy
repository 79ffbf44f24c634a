/**
 The invariant of the ring under every interleaving of its threads, and that each
 operation of each thread keeps it.
 */
module RingSafety {
  import opened Basics
  import opened LogFormat
  import opened RingProtocol

  // ---------- The invariant ----------

  // The slots from head to tail hold the samples pushed and not yet popped
  ghost predicate Cells(capacity: nat, storage: seq<Sample>, head: nat, tail: nat, pushed: seq<Sample>,
                        popped: seq<Sample>) {
    && |storage| == capacity
    && head <= tail <= head + capacity
    && |pushed| == tail
    && |popped| == head
    && popped <= pushed
    && (forall i :: head <= i < tail ==> storage[i % capacity] == pushed[i])
  }

  // A push between publishing its cursor and raising the watermark
  predicate Publishing(p: Producer) { p.PPublished? || p.PUnlocked? || p.PMark? }

  // A push between publishing its cursor and notifying
  predicate Announcing(p: Producer) { Publishing(p) || p.PNotify? }

  // A pop between publishing its cursor and notifying
  predicate Releasing(c: Consumer) { c.CPublished? || c.CNotify? }

  // A close whose notifications have not reached the consumer, or the producer
  predicate ClosingData(k: Closer) { k.KStored? || k.KNotifyData? }

  predicate ClosingSpace(k: Closer) { k.KStored? || k.KNotifyData? || k.KNotifySpace? }

  // The producer's snapshot of head is never ahead of the consumer
  ghost predicate ProducerView(p: Producer, capacity: nat, head: nat, tail: nat, closed: bool, highWatermark: int) {
    match p
    case PLoaded(_, _, h) => h <= head
    case PWritten(r, h) => h <= head && tail - h < capacity
    case PLocked(r, h) => h <= head && tail - h < capacity
    case PPublished(h) => h <= head && tail - h <= capacity
    case PUnlocked(h) => h <= head && tail - h <= capacity
    case PMark(h, previous) => h <= head && tail - h <= capacity && previous == highWatermark
    case PWaitFull(_, _, _) => !closed
    case PWaitTail(_, _, _, h) => h == head && !closed
    case PDone(PushClosed) => closed
    case _ => true
  }

  // The slot after tail holds the record about to be published
  ghost predicate SlotReady(p: Producer, capacity: nat, storage: seq<Sample>, tail: nat) {
    p.PWritten? || p.PLocked? ==>
      0 < capacity == |storage| && storage[tail % capacity] == p.record
  }

  // The consumer's snapshot of tail is never ahead of the producer; settled says
  // that the ring is closed and no push that saw it open is still to publish
  ghost predicate ConsumerView(c: Consumer, head: nat, tail: nat, closed: bool, inFlight: bool) {
    match c
    case CLoaded(_, t, settled) => head <= t <= tail && (settled ==> closed && !inFlight && t == tail)
    case CEmpty(_, t, settled) => t == head && (settled ==> closed && !inFlight && t == tail)
    case CCopying(count, copied) => |copied| <= count <= tail - head && 1 <= count
    case CLocked(count, copied) => |copied| == count <= tail - head && 1 <= count
    case CWaitHead(_, _) => !closed
    case CWaitTail(_, _) => !closed
    case CDone(PopClosed, _, settled) => closed && (settled ==> !inFlight && head == tail)
    case _ => true
  }

  // What the consumer has copied is what comes next in the queue; what it has
  // returned is what it popped last
  ghost predicate Output(c: Consumer, pushed: seq<Sample>, popped: seq<Sample>) {
    match c
    case CCopying(_, copied) => popped + copied <= pushed
    case CLocked(_, copied) => popped + copied <= pushed
    case CPublished(copied) => EndsWith(popped, copied)
    case CNotify(copied) => EndsWith(popped, copied)
    case CDone(_, output, _) => EndsWith(popped, output)
    case _ => true
  }

  predicate EndsWith(all: seq<Sample>, last: seq<Sample>) {
    last == [] || (|last| <= |all| && all[|all| - |last|..] == last)
  }

  ghost predicate LockHeld(owner: Owner, p: Producer, c: Consumer, k: Closer, closed: bool) {
    && (owner == ByProducer <==> p.PLocked? || p.PPublished? || p.PWaitClosed? || p.PWaitFull? || p.PWaitTail?)
    && (owner == ByConsumer <==> c.CLocked? || c.CPublished? || c.CWaitClosed? || c.CWaitHead? || c.CWaitTail?)
    && (owner == ByCloser <==> k.KLocked? || k.KStored?)
    && (k.KStored? || k.KNotifyData? || k.KNotifySpace? || k.KDone? ==> closed)
  }

  ghost predicate Marks(p: Producer, capacity: nat, head: nat, tail: nat, highWatermark: int, peak: int) {
    && 0 <= highWatermark <= capacity
    && tail - head <= peak <= capacity
    && peak <= (if Publishing(p) then Max(highWatermark, tail - p.head) else highWatermark)
  }

  // A sleeper has reason to sleep unless its wake-up is already on the way
  ghost predicate Wakeups(p: Producer, c: Consumer, k: Closer, capacity: nat, head: nat, tail: nat, closed: bool) {
    && (c.CParked? ==> (head == tail && !closed) || Announcing(p) || ClosingData(k))
    && (p.PParked? ==> (tail - head >= capacity && !closed) || Releasing(c) || ClosingSpace(k))
  }

  ghost predicate Inv(s: Ring) {
    && Cells(s.capacity, s.storage, s.head, s.tail, s.pushed, s.popped)
    && ProducerView(s.producer, s.capacity, s.head, s.tail, s.closed, s.highWatermark)
    && SlotReady(s.producer, s.capacity, s.storage, s.tail)
    && ConsumerView(s.consumer, s.head, s.tail, s.closed, InFlight(s.producer))
    && Output(s.consumer, s.pushed, s.popped)
    && LockHeld(s.owner, s.producer, s.consumer, s.closer, s.closed)
    && Marks(s.producer, s.capacity, s.head, s.tail, s.highWatermark, s.peak)
    && Wakeups(s.producer, s.consumer, s.closer, s.capacity, s.head, s.tail, s.closed)
  }

  // ---------- Slots ----------

  lemma MultipleIsFar(q: int, capacity: int)
    requires 0 < capacity
    ensures capacity * q <= 0 || capacity * q >= capacity
  {}

  // Fewer than capacity apart, two cursors name different slots
  lemma {:induction false} SlotsDiffer(i: int, j: int, capacity: int)
    requires i < j < i + capacity
    ensures i % capacity != j % capacity
  {
    if i % capacity == j % capacity {
      MultipleIsFar(j / capacity - i / capacity, capacity);
    }
  }

  lemma InvMeansSlotsExist(s: Ring)
    requires Inv(s)
    ensures SlotsExist(s)
  {}

  // ---------- Every step keeps the invariant ----------

  lemma StartHolds(capacity: nat, storage: seq<Sample>)
    requires |storage| == capacity
    ensures Inv(Empty(capacity, storage))
  {}

  // Writing the slot after tail disturbs no live slot
  lemma WriteKeepsCells(capacity: nat, storage: seq<Sample>, head: nat, tail: nat,
                        pushed: seq<Sample>, popped: seq<Sample>, r: Sample)
    requires tail - head < capacity
    requires Cells(capacity, storage, head, tail, pushed, popped)
    ensures Cells(capacity, storage[tail % capacity := r], head, tail, pushed, popped)
  {
    forall i | head <= i < tail
      ensures storage[tail % capacity := r][i % capacity] == pushed[i]
    {
      SlotsDiffer(i, tail, capacity);
    }
  }

  // A copied slot is the next sample of the queue
  lemma CopyKeepsOutput(capacity: nat, storage: seq<Sample>, head: nat, tail: nat,
                        pushed: seq<Sample>, popped: seq<Sample>, copied: seq<Sample>)
    requires |copied| < tail - head
    requires Cells(capacity, storage, head, tail, pushed, popped)
    requires popped + copied <= pushed
    ensures 0 < capacity && popped + (copied + [storage[(head + |copied|) % capacity]]) <= pushed
  {
    assert storage[(head + |copied|) % capacity] == pushed[head + |copied|];
  }

  lemma CellsBounds(capacity: nat, storage: seq<Sample>, head: nat, tail: nat, pushed: seq<Sample>, popped: seq<Sample>)
    requires Cells(capacity, storage, head, tail, pushed, popped)
    ensures |storage| == capacity && head <= tail <= head + capacity
    ensures |pushed| == tail && |popped| == head
    ensures popped + [] <= pushed
  {}

  lemma PublishKeepsCells(capacity: nat, storage: seq<Sample>, head: nat, tail: nat,
                          pushed: seq<Sample>, popped: seq<Sample>, r: Sample)
    requires head <= tail < head + capacity && capacity == |storage| && storage[tail % capacity] == r
    requires Cells(capacity, storage, head, tail, pushed, popped)
    ensures Cells(capacity, storage, head, tail + 1, pushed + [r], popped)
  {}

  // Releasing the copied slots moves them from the queue to the popped samples
  lemma ReleaseKeepsCells(capacity: nat, storage: seq<Sample>, head: nat, tail: nat,
                          pushed: seq<Sample>, popped: seq<Sample>, copied: seq<Sample>)
    requires |copied| <= tail - head && popped + copied <= pushed
    requires Cells(capacity, storage, head, tail, pushed, popped)
    ensures Cells(capacity, storage, head + |copied|, tail, pushed, popped + copied)
    ensures EndsWith(popped + copied, copied)
  {}

  lemma PushKeepsQueue(s: Ring, choice: Choice, t: Ring)
    requires Inv(s)
    requires SlotsExist(s) && !PushWaiting(s.producer) && TryPushStep(s, choice) == Some(t)
    ensures Cells(t.capacity, t.storage, t.head, t.tail, t.pushed, t.popped)
    ensures SlotReady(t.producer, t.capacity, t.storage, t.tail)
    ensures Output(t.consumer, t.pushed, t.popped)
  {
    hide LockHeld, Marks, Wakeups, ConsumerView, Cells;
    CellsBounds(s.capacity, s.storage, s.head, s.tail, s.pushed, s.popped);
    match s.producer
    case PLoaded(r, _, h) =>
      if s.tail - h < s.capacity {
        WriteKeepsCells(s.capacity, s.storage, s.head, s.tail, s.pushed, s.popped, r);
      }
    case PLocked(r, h) =>
      PublishKeepsCells(s.capacity, s.storage, s.head, s.tail, s.pushed, s.popped, r);
    case _ =>
  }

  lemma PushKeepsControl(s: Ring, choice: Choice, t: Ring)
    requires Inv(s)
    requires SlotsExist(s) && !PushWaiting(s.producer) && TryPushStep(s, choice) == Some(t)
    ensures ProducerView(t.producer, t.capacity, t.head, t.tail, t.closed, t.highWatermark)
    ensures ConsumerView(t.consumer, t.head, t.tail, t.closed, InFlight(t.producer))
    ensures LockHeld(t.owner, t.producer, t.consumer, t.closer, t.closed)
  {
    hide Output, SlotReady, Cells, Marks, Wakeups;
    match s.producer
    case PIdle =>
    case PStart(_, _) =>
    case PChecked(_, _) =>
    case PLoaded(_, _, _) =>
    case PWritten(_, _) =>
    case PLocked(_, _) =>
    case PPublished(_) =>
    case PUnlocked(_) =>
    case PMark(_, _) =>
    case PNotify =>
    case PDone(_) =>
  }

  lemma PushKeepsSleep(s: Ring, choice: Choice, t: Ring)
    requires Inv(s)
    requires SlotsExist(s) && !PushWaiting(s.producer) && TryPushStep(s, choice) == Some(t)
    ensures Marks(t.producer, t.capacity, t.head, t.tail, t.highWatermark, t.peak)
    ensures Wakeups(t.producer, t.consumer, t.closer, t.capacity, t.head, t.tail, t.closed)
  {
    hide Output, SlotReady, ConsumerView, Cells;
    CellsBounds(s.capacity, s.storage, s.head, s.tail, s.pushed, s.popped);
  }

  lemma PushWaitKeeps(s: Ring, choice: Choice, t: Ring)
    requires Inv(s)
    requires PushWaiting(s.producer) && PushWaitStep(s, choice) == Some(t)
    ensures Cells(t.capacity, t.storage, t.head, t.tail, t.pushed, t.popped)
    ensures SlotReady(t.producer, t.capacity, t.storage, t.tail)
    ensures Output(t.consumer, t.pushed, t.popped)
    ensures ProducerView(t.producer, t.capacity, t.head, t.tail, t.closed, t.highWatermark)
    ensures ConsumerView(t.consumer, t.head, t.tail, t.closed, InFlight(t.producer))
    ensures LockHeld(t.owner, t.producer, t.consumer, t.closer, t.closed)
    ensures Marks(t.producer, t.capacity, t.head, t.tail, t.highWatermark, t.peak)
    ensures Wakeups(t.producer, t.consumer, t.closer, t.capacity, t.head, t.tail, t.closed)
  {
    hide Cells, Output;
  }

  lemma PopKeepsQueue(s: Ring, choice: Choice, t: Ring)
    requires Inv(s)
    requires SlotsExist(s) && !PopWaiting(s.consumer) && TryPopStep(s, choice) == Some(t)
    ensures Cells(t.capacity, t.storage, t.head, t.tail, t.pushed, t.popped)
    ensures SlotReady(t.producer, t.capacity, t.storage, t.tail)
    ensures Output(t.consumer, t.pushed, t.popped)
  {
    hide LockHeld, Marks, Wakeups, ProducerView, Cells;
    CellsBounds(s.capacity, s.storage, s.head, s.tail, s.pushed, s.popped);
    match s.consumer
    case CCopying(count, copied) =>
      if |copied| < count {
        CopyKeepsOutput(s.capacity, s.storage, s.head, s.tail, s.pushed, s.popped, copied);
      }
    case CLocked(count, copied) =>
      ReleaseKeepsCells(s.capacity, s.storage, s.head, s.tail, s.pushed, s.popped, copied);
    case CIdle =>
    case CStart(_) =>
    case CLoaded(_, _, _) =>
    case CEmpty(_, _, _) =>
    case CBatchStart(_) =>
    case CPublished(_) =>
    case CNotify(_) =>
    case CDone(_, _, _) =>
  }

  lemma PopKeepsControl(s: Ring, choice: Choice, t: Ring)
    requires Inv(s)
    requires SlotsExist(s) && !PopWaiting(s.consumer) && TryPopStep(s, choice) == Some(t)
    ensures ProducerView(t.producer, t.capacity, t.head, t.tail, t.closed, t.highWatermark)
    ensures ConsumerView(t.consumer, t.head, t.tail, t.closed, InFlight(t.producer))
    ensures LockHeld(t.owner, t.producer, t.consumer, t.closer, t.closed)
  {
    hide Output, SlotReady, Marks, Wakeups, Cells;
    CellsBounds(s.capacity, s.storage, s.head, s.tail, s.pushed, s.popped);
    match s.consumer
    case CIdle =>
    case CStart(_) =>
    case CLoaded(_, _, _) =>
    case CEmpty(_, _, _) =>
    case CBatchStart(_) =>
    case CCopying(_, _) =>
    case CLocked(_, _) =>
    case CPublished(_) =>
    case CNotify(_) =>
    case CDone(_, _, _) =>
  }

  lemma PopKeepsSleep(s: Ring, choice: Choice, t: Ring)
    requires Inv(s)
    requires SlotsExist(s) && !PopWaiting(s.consumer) && TryPopStep(s, choice) == Some(t)
    ensures Marks(t.producer, t.capacity, t.head, t.tail, t.highWatermark, t.peak)
    ensures Wakeups(t.producer, t.consumer, t.closer, t.capacity, t.head, t.tail, t.closed)
  {
    hide Output, SlotReady, Cells, ProducerView;
    CellsBounds(s.capacity, s.storage, s.head, s.tail, s.pushed, s.popped);
    match s.consumer
    case CIdle =>
    case CStart(_) =>
    case CLoaded(_, _, _) =>
    case CEmpty(_, _, _) =>
    case CBatchStart(_) =>
    case CCopying(_, _) =>
    case CLocked(_, _) =>
    case CPublished(_) =>
    case CNotify(_) =>
    case CDone(_, _, _) =>
  }

  lemma PopWaitKeeps(s: Ring, choice: Choice, t: Ring)
    requires Inv(s)
    requires PopWaiting(s.consumer) && PopWaitStep(s, choice) == Some(t)
    ensures Cells(t.capacity, t.storage, t.head, t.tail, t.pushed, t.popped)
    ensures SlotReady(t.producer, t.capacity, t.storage, t.tail)
    ensures Output(t.consumer, t.pushed, t.popped)
    ensures ProducerView(t.producer, t.capacity, t.head, t.tail, t.closed, t.highWatermark)
    ensures ConsumerView(t.consumer, t.head, t.tail, t.closed, InFlight(t.producer))
    ensures LockHeld(t.owner, t.producer, t.consumer, t.closer, t.closed)
    ensures Marks(t.producer, t.capacity, t.head, t.tail, t.highWatermark, t.peak)
    ensures Wakeups(t.producer, t.consumer, t.closer, t.capacity, t.head, t.tail, t.closed)
  {
    hide Cells;
  }

  lemma CloseKeeps(s: Ring, choice: Choice, t: Ring)
    requires Inv(s)
    requires CloserStep(s, choice) == Some(t)
    ensures Cells(t.capacity, t.storage, t.head, t.tail, t.pushed, t.popped)
    ensures SlotReady(t.producer, t.capacity, t.storage, t.tail)
    ensures Output(t.consumer, t.pushed, t.popped)
    ensures ProducerView(t.producer, t.capacity, t.head, t.tail, t.closed, t.highWatermark)
    ensures ConsumerView(t.consumer, t.head, t.tail, t.closed, InFlight(t.producer))
    ensures LockHeld(t.owner, t.producer, t.consumer, t.closer, t.closed)
    ensures Marks(t.producer, t.capacity, t.head, t.tail, t.highWatermark, t.peak)
    ensures Wakeups(t.producer, t.consumer, t.closer, t.capacity, t.head, t.tail, t.closed)
  {
    hide Cells;
    match s.closer
    case KIdle =>
    case KLocked =>
    case KStored =>
    case KNotifyData =>
    case KNotifySpace =>
    case KDone =>
  }

  lemma StepKeepsInv(s: Ring, thread: Thread, choice: Choice, t: Ring)
    requires Inv(s)
    requires SlotsExist(s) && Step(s, thread, choice) == Some(t)
    ensures Inv(t)
  {
    hide Cells, ProducerView, SlotReady, ConsumerView, Output, LockHeld, Marks, Wakeups;
    hide TryPushStep, PushWaitStep, TryPopStep, PopWaitStep, CloserStep, SlotsExist;
    match thread
    case TheProducer =>
      if PushWaiting(s.producer) {
        PushWaitKeeps(s, choice, t);
      } else {
        PushKeepsQueue(s, choice, t);
        PushKeepsControl(s, choice, t);
        PushKeepsSleep(s, choice, t);
      }
    case TheConsumer =>
      if PopWaiting(s.consumer) {
        PopWaitKeeps(s, choice, t);
      } else {
        PopKeepsQueue(s, choice, t);
        PopKeepsControl(s, choice, t);
        PopKeepsSleep(s, choice, t);
      }
    case TheCloser =>
      CloseKeeps(s, choice, t);
  }
}
