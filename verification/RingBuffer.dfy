/**
 The blocking ring buffer, as a state machine over atomic steps.

 Any number of producer and consumer threads run `push` and `pop`; each end is
 guarded by its lock (with one thread per end the lock is never contended, which
 is the lock-free configuration).  A step is one line of the source that touches
 shared state.  The counters are the 32-bit ones of the source and wrap.
 */
module RingBuffer {
  import opened Arith
  import opened Basics

  /** Unsigned 32-bit arithmetic. */
  function Wrap(n: int): (w: nat)
    ensures w < 0x1_0000_0000
  {
    n % 0x1_0000_0000
  }

  /** A ring slot: a message, or storage that is uninitialised or half written. */
  datatype Slot<+M> = Torn | Holds(message: M)

  datatype ProducerPc<+M> =
    | PIdle
    | PTestFull(m: M)
    | PWait(m: M)
    | PAsleep(m: M)
    | PBeginWrite(m: M)
    | PEndWrite(m: M)
    | PTestEmpty(m: M)
    | PIncrement(m: M, wasEmpty: bool)
    | PUnlock(wasEmpty: bool)
    | PNotify(wasEmpty: bool)

  datatype ConsumerPc<+M> =
    | CIdle
    | CTestEmpty
    | CWait
    | CAsleep
    | CRead
    | CTestFull(r: Slot<M>)
    | CIncrement(r: Slot<M>, wasFull: bool)
    | CUnlock(wasFull: bool)
    | CNotify(wasFull: bool)

  /** `pushed` and `popped` record the messages in the order of the counter increments. */
  datatype State<+M> = State(
    size: nat,
    ring: seq<Slot<M>>,
    producer: nat,
    consumer: nat,
    pushLock: Option<nat>,
    popLock: Option<nat>,
    producers: seq<ProducerPc<M>>,
    consumers: seq<ConsumerPc<M>>,
    pushed: seq<M>,
    popped: seq<Slot<M>>)

  /** `Call*` starts an operation on an idle thread; `Advance*` takes its next step. */
  datatype Action<+M> =
    | CallPush(t: nat, m: M)
    | AdvanceProducer(t: nat)
    | CallPop(t: nat)
    | AdvanceConsumer(t: nat)

  /** Whether the emptiness (fullness) test and the counter increment are one step. */
  datatype Mode = Separate | Fused

  /** The two static assertions on `BufferSize`. */
  ghost predicate ValidSize(size: nat) {
    size < 0xffff_ffff / 2 && exists k: nat :: size == Pow2(k)
  }

  // ---------------------------------------------------------------- operations

  predicate IsFull<M>(s: State<M>) {
    Wrap(s.producer - s.consumer) == s.size
  }

  predicate IsEmpty<M>(s: State<M>) {
    s.producer == s.consumer
  }

  predicate Shaped<M>(s: State<M>) {
    s.size > 0 && |s.ring| == s.size
  }

  function CounterToIndex(counter: nat, size: nat): nat
    requires size > 0
  {
    counter % size
  }

  function WakeConsumers<M>(cs: seq<ConsumerPc<M>>): (r: seq<ConsumerPc<M>>)
    ensures |r| == |cs|
    ensures forall i :: 0 <= i < |cs| ==> r[i] == if cs[i].CAsleep? then CTestEmpty else cs[i]
  {
    seq(|cs|, i requires 0 <= i < |cs| => if cs[i].CAsleep? then CTestEmpty else cs[i])
  }

  function WakeProducers<M>(ps: seq<ProducerPc<M>>): (r: seq<ProducerPc<M>>)
    ensures |r| == |ps|
    ensures forall i :: 0 <= i < |ps| ==> r[i] == if ps[i].PAsleep? then PTestFull(ps[i].m) else ps[i]
  {
    seq(|ps|, i requires 0 <= i < |ps| => if ps[i].PAsleep? then PTestFull(ps[i].m) else ps[i])
  }

  /** One producer step; `None` when the thread has nothing to do or is blocked. */
  function ProducerNext<M>(mode: Mode, s: State<M>, t: nat): Option<State<M>>
    requires Shaped(s)
  {
    if t >= |s.producers| then None else
    match s.producers[t]
    case PIdle => None
    case PTestFull(m) =>
      Some(s.(producers := s.producers[t := if IsFull(s) then PWait(m) else PBeginWrite(m)]))
    case PWait(m) =>
      // Compare-and-sleep on the consumer word.
      var expected := Wrap(s.producer - s.size);
      Some(s.(producers := s.producers[t := if s.consumer == expected then PAsleep(m) else PTestFull(m)]))
    case PAsleep(m) => None
    case PBeginWrite(m) =>
      Some(s.(ring := s.ring[CounterToIndex(s.producer, s.size) := Torn], producers := s.producers[t := PEndWrite(m)]))
    case PEndWrite(m) =>
      Some(s.(ring := s.ring[CounterToIndex(s.producer, s.size) := Holds(m)],
              producers := s.producers[t := PTestEmpty(m)]))
    case PTestEmpty(m) =>
      if mode == Separate then
        Some(s.(producers := s.producers[t := PIncrement(m, IsEmpty(s))]))
      else
        Some(s.(producers := s.producers[t := PUnlock(IsEmpty(s))],
                producer := Wrap(s.producer + 1), pushed := s.pushed + [m]))
    case PIncrement(m, wasEmpty) =>
      Some(s.(producers := s.producers[t := PUnlock(wasEmpty)],
              producer := Wrap(s.producer + 1), pushed := s.pushed + [m]))
    case PUnlock(wasEmpty) =>
      Some(s.(pushLock := None, producers := s.producers[t := PNotify(wasEmpty)]))
    case PNotify(wasEmpty) =>
      Some(s.(producers := s.producers[t := PIdle],
              consumers := if wasEmpty then WakeConsumers(s.consumers) else s.consumers))
  }

  /** One consumer step; the mirror image of `ProducerNext`. */
  function ConsumerNext<M>(mode: Mode, s: State<M>, t: nat): Option<State<M>>
    requires Shaped(s)
  {
    if t >= |s.consumers| then None else
    match s.consumers[t]
    case CIdle => None
    case CTestEmpty =>
      Some(s.(consumers := s.consumers[t := if IsEmpty(s) then CWait else CRead]))
    case CWait =>
      // Compare-and-sleep on the producer word.
      Some(s.(consumers := s.consumers[t := if s.producer == s.consumer then CAsleep else CTestEmpty]))
    case CAsleep => None
    case CRead =>
      Some(s.(consumers := s.consumers[t := CTestFull(s.ring[CounterToIndex(s.consumer, s.size)])]))
    case CTestFull(r) =>
      if mode == Separate then
        Some(s.(consumers := s.consumers[t := CIncrement(r, IsFull(s))]))
      else
        Some(s.(consumers := s.consumers[t := CUnlock(IsFull(s))],
                consumer := Wrap(s.consumer + 1), popped := s.popped + [r]))
    case CIncrement(r, wasFull) =>
      Some(s.(consumers := s.consumers[t := CUnlock(wasFull)],
              consumer := Wrap(s.consumer + 1), popped := s.popped + [r]))
    case CUnlock(wasFull) =>
      Some(s.(popLock := None, consumers := s.consumers[t := CNotify(wasFull)]))
    case CNotify(wasFull) =>
      Some(s.(consumers := s.consumers[t := CIdle],
              producers := if wasFull then WakeProducers(s.producers) else s.producers))
  }

  function Next<M>(mode: Mode, s: State<M>, a: Action<M>): Option<State<M>>
    requires Shaped(s)
  {
    match a
    case CallPush(t, m) =>
      if t < |s.producers| && s.producers[t].PIdle? && s.pushLock.None? then
        Some(s.(pushLock := Some(t), producers := s.producers[t := PTestFull(m)]))
      else None
    case AdvanceProducer(t) => ProducerNext(mode, s, t)
    case CallPop(t) =>
      if t < |s.consumers| && s.consumers[t].CIdle? && s.popLock.None? then
        Some(s.(popLock := Some(t), consumers := s.consumers[t := CTestEmpty]))
      else None
    case AdvanceConsumer(t) => ConsumerNext(mode, s, t)
  }

  lemma NextKeepsShape<M>(mode: Mode, s: State<M>, a: Action<M>)
    requires Shaped(s)
    ensures Next(mode, s, a).Some? ==>
              var s' := Next(mode, s, a).value;
              s'.size == s.size && |s'.ring| == s.size
              && |s'.producers| == |s.producers| && |s'.consumers| == |s.consumers|
  {}

  function Init<M>(size: nat, producers: nat, consumers: nat): State<M> {
    State(size, seq(size, _ => Torn), 0, 0, None, None,
          seq(producers, _ => PIdle), seq(consumers, _ => CIdle), [], [])
  }

  /** The state after a schedule; `None` when some action of it is not enabled. */
  function Run<M>(mode: Mode, s: State<M>, schedule: seq<Action<M>>): Option<State<M>>
    requires Shaped(s)
    decreases |schedule|
  {
    if schedule == [] then Some(s) else
    var r := Next(mode, s, schedule[0]);
    if r.None? then None else
    NextKeepsShape(mode, s, schedule[0]);
    Run(mode, r.value, schedule[1..])
  }

  // ---------------------------------------------------------------- FIFO safety

  predicate InPush<M>(pc: ProducerPc<M>) {
    !pc.PIdle? && !pc.PNotify?
  }

  predicate InPop<M>(pc: ConsumerPc<M>) {
    !pc.CIdle? && !pc.CNotify?
  }

  /** The counters are the number of messages pushed and popped, modulo the word size. */
  ghost predicate Counters<M>(s: State<M>) {
    && |s.ring| == s.size
    && ValidSize(s.size)
    && 0 <= |s.pushed| - |s.popped| <= s.size
    && s.producer == Wrap(|s.pushed|)
    && s.consumer == Wrap(|s.popped|)
  }

  /** Message number `k` while it is in the ring sits, whole, in slot `k % size`. */
  ghost predicate Slots<M>(s: State<M>)
    requires Shaped(s)
  {
    forall k :: |s.popped| <= k < |s.pushed| ==> s.ring[CounterToIndex(k, s.size)] == Holds(s.pushed[k])
  }

  ghost predicate Delivered<M>(s: State<M>) {
    && |s.popped| <= |s.pushed|
    && forall k :: 0 <= k < |s.popped| ==> s.popped[k] == Holds(s.pushed[k])
  }

  ghost predicate ProducerOk<M>(s: State<M>, pc: ProducerPc<M>)
    requires Shaped(s)
  {
    match pc
    case PBeginWrite(_) => |s.pushed| - |s.popped| < s.size
    case PEndWrite(_) => |s.pushed| - |s.popped| < s.size
    case PTestEmpty(m) =>
      |s.pushed| - |s.popped| < s.size && s.ring[CounterToIndex(|s.pushed|, s.size)] == Holds(m)
    case PIncrement(m, wasEmpty) =>
      && |s.pushed| - |s.popped| < s.size && s.ring[CounterToIndex(|s.pushed|, s.size)] == Holds(m)
      && (|s.pushed| == |s.popped| && !wasEmpty ==> s.size > 1)
    case _ => true
  }

  ghost predicate ConsumerOk<M>(s: State<M>, pc: ConsumerPc<M>) {
    match pc
    case CRead => |s.popped| < |s.pushed|
    case CTestFull(r) => |s.popped| < |s.pushed| && r == Holds(s.pushed[|s.popped|])
    case CIncrement(r, wasFull) =>
      && |s.popped| < |s.pushed| && r == Holds(s.pushed[|s.popped|])
      && (|s.pushed| - |s.popped| == s.size && !wasFull ==> s.size > 1)
    case _ => true
  }

  ghost predicate Locked<M>(s: State<M>) {
    && (forall t :: 0 <= t < |s.producers| ==> (InPush(s.producers[t]) <==> s.pushLock == Some(t)))
    && (forall t :: 0 <= t < |s.consumers| ==> (InPop(s.consumers[t]) <==> s.popLock == Some(t)))
    && (s.pushLock.Some? ==> s.pushLock.value < |s.producers|)
    && (s.popLock.Some? ==> s.popLock.value < |s.consumers|)
  }

  ghost predicate Threads<M>(s: State<M>)
    requires Shaped(s)
  {
    && Locked(s)
    && (forall t :: 0 <= t < |s.producers| ==> ProducerOk(s, s.producers[t]))
    && (forall t :: 0 <= t < |s.consumers| ==> ConsumerOk(s, s.consumers[t]))
  }

  ghost predicate Safe<M>(s: State<M>) {
    && Counters(s)
    && s.size > 0
    && Slots(s)
    && Delivered(s)
    && Threads(s)
  }

  lemma SizeDividesRange(size: nat) returns (c: nat)
    requires ValidSize(size)
    ensures size > 0 && 0x1_0000_0000 == c * size
  {
    var k: nat :| size == Pow2(k);
    Pow2DividesWord(k, 32);
    c := Pow2(32 - k);
  }

  /** A power-of-two size divides the counter range, so wrapping does not move the slots. */
  lemma WrapKeepsIndex(n: nat, size: nat)
    requires ValidSize(size)
    ensures size > 0 && Wrap(n) % size == n % size
  {
    var c := SizeDividesRange(size);
    ModOfMod(n, 0x1_0000_0000, c, size);
  }

  lemma WrapKeepsDistance(np: nat, nc: nat)
    requires 0 <= np - nc < 0x1_0000_0000
    ensures Wrap(Wrap(np) - Wrap(nc)) == np - nc
    ensures Wrap(np) == Wrap(nc) <==> np == nc
  {}

  lemma WrapTestsFull(np: nat, nc: nat, size: nat)
    requires 0 <= np - nc <= size < 0x8000_0000
    ensures Wrap(nc) == Wrap(Wrap(np) - size) <==> np - nc == size
  {}

  /** In a safe state the source's tests are the tests on the number of messages. */
  lemma TestsAreExact<M>(s: State<M>)
    requires Counters(s)
    ensures s.size > 0
    ensures IsFull(s) <==> |s.pushed| - |s.popped| == s.size
    ensures IsEmpty(s) <==> |s.pushed| == |s.popped|
    ensures s.consumer == Wrap(s.producer - s.size) <==> |s.pushed| - |s.popped| == s.size
    ensures CounterToIndex(s.producer, s.size) == CounterToIndex(|s.pushed|, s.size)
    ensures CounterToIndex(s.consumer, s.size) == CounterToIndex(|s.popped|, s.size)
  {
    WrapKeepsDistance(|s.pushed|, |s.popped|);
    WrapTestsFull(|s.pushed|, |s.popped|, s.size);
    WrapKeepsIndex(|s.pushed|, s.size);
    WrapKeepsIndex(|s.popped|, s.size);
  }

  // A producer that only moves to another program point.
  lemma ProducerMoves<M>(s: State<M>, t: nat, pc: ProducerPc<M>)
    requires Safe(s) && t < |s.producers|
    requires InPush(s.producers[t]) <==> InPush(pc)
    requires ProducerOk(s, pc)
    ensures Safe(s.(producers := s.producers[t := pc]))
  {}

  lemma ConsumerMoves<M>(s: State<M>, t: nat, pc: ConsumerPc<M>)
    requires Safe(s) && t < |s.consumers|
    requires InPop(s.consumers[t]) <==> InPop(pc)
    requires ConsumerOk(s, pc)
    ensures Safe(s.(consumers := s.consumers[t := pc]))
  {}

  // Writing the free slot leaves every message in the ring alone.
  lemma WriteIsSafe<M>(s: State<M>, t: nat, v: Slot<M>, pc: ProducerPc<M>)
    requires Safe(s) && t < |s.producers| && InPush(s.producers[t]) && InPush(pc)
    requires |s.pushed| - |s.popped| < s.size
    requires pc.PEndWrite? || (pc.PTestEmpty? && v == Holds(pc.m))
    ensures Safe(s.(ring := s.ring[CounterToIndex(|s.pushed|, s.size) := v], producers := s.producers[t := pc]))
  {
    var s' := s.(ring := s.ring[CounterToIndex(|s.pushed|, s.size) := v], producers := s.producers[t := pc]);
    forall k | |s.popped| <= k < |s.pushed|
      ensures s'.ring[CounterToIndex(k, s.size)] == Holds(s.pushed[k])
    {
      ModsDiffer(k, |s.pushed|, s.size);
    }
  }

  function Pushed<M>(s: State<M>, t: nat, m: M, wasEmpty: bool): State<M>
    requires t < |s.producers|
  {
    s.(producers := s.producers[t := PUnlock(wasEmpty)],
       producer := Wrap(s.producer + 1), pushed := s.pushed + [m])
  }

  function Popped<M>(s: State<M>, t: nat, r: Slot<M>, wasFull: bool): State<M>
    requires t < |s.consumers|
  {
    s.(consumers := s.consumers[t := CUnlock(wasFull)],
       consumer := Wrap(s.consumer + 1), popped := s.popped + [r])
  }

  lemma PushKeepsThreads<M>(s: State<M>, t: nat, m: M, wasEmpty: bool)
    requires Safe(s) && t < |s.producers| && InPush(s.producers[t])
    requires |s.pushed| - |s.popped| < s.size
    ensures Threads(Pushed(s, t, m, wasEmpty))
  {
    var s' := Pushed(s, t, m, wasEmpty);
    forall c | 0 <= c < |s'.consumers| ensures ConsumerOk(s', s'.consumers[c]) {
      assert ConsumerOk(s, s.consumers[c]);
    }
    forall p | 0 <= p < |s'.producers| ensures ProducerOk(s', s'.producers[p]) {
      assert p != t ==> !InPush(s.producers[p]);
    }
  }

  lemma WrapNext(n: nat)
    ensures Wrap(Wrap(n) + 1) == Wrap(n + 1)
  {}

  lemma PushKeepsCounters<M>(s: State<M>, t: nat, m: M, wasEmpty: bool)
    requires Counters(s) && t < |s.producers| && |s.pushed| - |s.popped| < s.size
    ensures Counters(Pushed(s, t, m, wasEmpty))
  {
    WrapNext(|s.pushed|);
  }

  lemma PushKeepsSlots<M>(s: State<M>, t: nat, m: M, wasEmpty: bool)
    requires Shaped(s) && t < |s.producers|
    requires Slots(s) && s.ring[CounterToIndex(|s.pushed|, s.size)] == Holds(m)
    ensures Slots(Pushed(s, t, m, wasEmpty))
  {}

  lemma PopKeepsCounters<M>(s: State<M>, t: nat, r: Slot<M>, wasFull: bool)
    requires Counters(s) && t < |s.consumers| && |s.popped| < |s.pushed|
    ensures Counters(Popped(s, t, r, wasFull))
  {
    WrapNext(|s.popped|);
  }

  lemma PushIsSafe<M>(s: State<M>, t: nat, m: M, wasEmpty: bool)
    requires Safe(s) && t < |s.producers| && InPush(s.producers[t])
    requires |s.pushed| - |s.popped| < s.size && s.ring[CounterToIndex(|s.pushed|, s.size)] == Holds(m)
    ensures Safe(Pushed(s, t, m, wasEmpty))
  {
    PushKeepsThreads(s, t, m, wasEmpty);
    PushKeepsCounters(s, t, m, wasEmpty);
    PushKeepsSlots(s, t, m, wasEmpty);
  }

  lemma PopKeepsThreads<M>(s: State<M>, t: nat, r: Slot<M>, wasFull: bool)
    requires Safe(s) && t < |s.consumers| && InPop(s.consumers[t])
    requires |s.popped| < |s.pushed|
    ensures Threads(Popped(s, t, r, wasFull))
  {
    var s' := Popped(s, t, r, wasFull);
    forall c | 0 <= c < |s'.consumers| ensures ConsumerOk(s', s'.consumers[c]) {
      assert c != t ==> !InPop(s.consumers[c]);
    }
    forall p | 0 <= p < |s'.producers| ensures ProducerOk(s', s'.producers[p]) {
      assert ProducerOk(s, s.producers[p]);
    }
  }

  lemma PopIsSafe<M>(s: State<M>, t: nat, wasFull: bool)
    requires Safe(s) && t < |s.consumers| && InPop(s.consumers[t])
    requires |s.popped| < |s.pushed|
    ensures Safe(Popped(s, t, Holds(s.pushed[|s.popped|]), wasFull))
  {
    PopKeepsThreads(s, t, Holds(s.pushed[|s.popped|]), wasFull);
    PopKeepsCounters(s, t, Holds(s.pushed[|s.popped|]), wasFull);
  }

  lemma ReleaseIsSafe<M>(s: State<M>, t: nat, wasEmpty: bool)
    requires Safe(s) && t < |s.producers| && s.producers[t] == PUnlock(wasEmpty)
    ensures Safe(s.(pushLock := None, producers := s.producers[t := PNotify(wasEmpty)]))
  {}

  lemma NotifyIsSafe<M>(s: State<M>, t: nat)
    requires Safe(s) && t < |s.producers| && s.producers[t].PNotify?
    ensures Safe(s.(producers := s.producers[t := PIdle], consumers := WakeConsumers(s.consumers)))
    ensures Safe(s.(producers := s.producers[t := PIdle]))
  {
    var s' := s.(consumers := WakeConsumers(s.consumers));
    assert Safe(s');
    ProducerMoves(s', t, PIdle);
    ProducerMoves(s, t, PIdle);
  }

  lemma FillingIsSafe<M>(mode: Mode, s: State<M>, t: nat)
    requires Safe(s) && ProducerNext(mode, s, t).Some?
    requires s.producers[t].PTestFull? || s.producers[t].PWait?
             || s.producers[t].PBeginWrite? || s.producers[t].PEndWrite?
    ensures Safe(ProducerNext(mode, s, t).value)
  {
    TestsAreExact(s);
    match s.producers[t]
    case PTestFull(m) => ProducerMoves(s, t, if IsFull(s) then PWait(m) else PBeginWrite(m));
    case PWait(m) => ProducerMoves(s, t, if s.consumer == Wrap(s.producer - s.size) then PAsleep(m) else PTestFull(m));
    case PBeginWrite(m) => WriteIsSafe(s, t, Torn, PEndWrite(m));
    case PEndWrite(m) => WriteIsSafe(s, t, Holds(m), PTestEmpty(m));
  }

  lemma AnnouncingIsSafe<M>(mode: Mode, s: State<M>, t: nat)
    requires Safe(s) && ProducerNext(mode, s, t).Some?
    requires s.producers[t].PUnlock? || s.producers[t].PNotify?
    ensures Safe(ProducerNext(mode, s, t).value)
  {
    match s.producers[t]
    case PUnlock(wasEmpty) => ReleaseIsSafe(s, t, wasEmpty);
    case PNotify(wasEmpty) => NotifyIsSafe(s, t);
  }

  lemma ProducerStepIsSafe<M>(mode: Mode, s: State<M>, t: nat)
    requires Safe(s) && ProducerNext(mode, s, t).Some?
    ensures Safe(ProducerNext(mode, s, t).value)
  {
    TestsAreExact(s);
    match s.producers[t]
    case PTestEmpty(m) =>
      if mode == Separate { ProducerMoves(s, t, PIncrement(m, IsEmpty(s))); }
      else { PushIsSafe(s, t, m, IsEmpty(s)); }
    case PIncrement(m, wasEmpty) => PushIsSafe(s, t, m, wasEmpty);
    case PUnlock(_) => AnnouncingIsSafe(mode, s, t);
    case PNotify(_) => AnnouncingIsSafe(mode, s, t);
    case _ => FillingIsSafe(mode, s, t);
  }

  lemma PopReleaseIsSafe<M>(s: State<M>, t: nat, wasFull: bool)
    requires Safe(s) && t < |s.consumers| && s.consumers[t] == CUnlock(wasFull)
    ensures Safe(s.(popLock := None, consumers := s.consumers[t := CNotify(wasFull)]))
  {}

  lemma PopNotifyIsSafe<M>(s: State<M>, t: nat)
    requires Safe(s) && t < |s.consumers| && s.consumers[t].CNotify?
    ensures Safe(s.(consumers := s.consumers[t := CIdle], producers := WakeProducers(s.producers)))
    ensures Safe(s.(consumers := s.consumers[t := CIdle]))
  {
    var s' := s.(producers := WakeProducers(s.producers));
    assert Safe(s');
    ConsumerMoves(s', t, CIdle);
    ConsumerMoves(s, t, CIdle);
  }

  lemma ConsumerStepIsSafe<M>(mode: Mode, s: State<M>, t: nat)
    requires Safe(s) && ConsumerNext(mode, s, t).Some?
    ensures Safe(ConsumerNext(mode, s, t).value)
  {
    TestsAreExact(s);
    match s.consumers[t]
    case CTestEmpty => ConsumerMoves(s, t, if IsEmpty(s) then CWait else CRead);
    case CWait => ConsumerMoves(s, t, if s.producer == s.consumer then CAsleep else CTestEmpty);
    case CRead => ConsumerMoves(s, t, CTestFull(s.ring[CounterToIndex(s.consumer, s.size)]));
    case CTestFull(r) =>
      if mode == Separate { ConsumerMoves(s, t, CIncrement(r, IsFull(s))); }
      else { PopIsSafe(s, t, IsFull(s)); }
    case CIncrement(r, wasFull) => PopIsSafe(s, t, wasFull);
    case CUnlock(wasFull) => PopReleaseIsSafe(s, t, wasFull);
    case CNotify(wasFull) => PopNotifyIsSafe(s, t);
  }

  lemma StepIsSafe<M>(mode: Mode, s: State<M>, a: Action<M>)
    requires Safe(s) && Next(mode, s, a).Some?
    ensures Safe(Next(mode, s, a).value)
  {
    match a
    case CallPush(t, m) =>
    case AdvanceProducer(t) => ProducerStepIsSafe(mode, s, t);
    case CallPop(t) =>
    case AdvanceConsumer(t) => ConsumerStepIsSafe(mode, s, t);
  }

  lemma {:induction false} RunIsSafe<M>(mode: Mode, s: State<M>, schedule: seq<Action<M>>)
    requires Safe(s) && Run(mode, s, schedule).Some?
    ensures Safe(Run(mode, s, schedule).value)
    decreases |schedule|
  {
    if schedule != [] {
      StepIsSafe(mode, s, schedule[0]);
      RunIsSafe(mode, Next(mode, s, schedule[0]).value, schedule[1..]);
    }
  }

  // ---------------------------------------------------------------- wake-ups

  /** Some producer has made the ring non-empty and has not issued its wake yet. */
  ghost predicate ProducerOwesWake<M>(s: State<M>) {
    exists t :: 0 <= t < |s.producers| && Owing(s.producers[t])
  }

  predicate Owing<M>(pc: ProducerPc<M>) {
    pc == PUnlock(true) || pc == PNotify(true)
  }

  ghost predicate ConsumerOwesWake<M>(s: State<M>) {
    exists t :: 0 <= t < |s.consumers| && OwingPop(s.consumers[t])
  }

  predicate OwingPop<M>(pc: ConsumerPc<M>) {
    pc == CUnlock(true) || pc == CNotify(true)
  }

  ghost predicate ConsumerSleeps<M>(s: State<M>) {
    exists t :: 0 <= t < |s.consumers| && s.consumers[t].CAsleep?
  }

  ghost predicate ProducerSleeps<M>(s: State<M>) {
    exists t :: 0 <= t < |s.producers| && s.producers[t].PAsleep?
  }

  /** No sleeper is forgotten: it has nothing to do, or its wake is still to come. */
  ghost predicate ConsumersCovered<M>(s: State<M>) {
    ConsumerSleeps(s) ==> |s.pushed| == |s.popped| || ProducerOwesWake(s)
  }

  ghost predicate ProducersCovered<M>(s: State<M>) {
    ProducerSleeps(s) ==> |s.pushed| - |s.popped| == s.size || ConsumerOwesWake(s)
  }

  ghost predicate Covered<M>(s: State<M>) {
    ConsumersCovered(s) && ProducersCovered(s)
  }

  /** A producer about to increment an empty ring on the strength of an outdated test. */
  ghost predicate StalePush<M>(s: State<M>, a: Action<M>) {
    && a.AdvanceProducer? && a.t < |s.producers|
    && s.producers[a.t].PIncrement? && !s.producers[a.t].wasEmpty
    && |s.pushed| == |s.popped|
    && ConsumerSleeps(s) && !ProducerOwesWake(s)
  }

  ghost predicate StalePop<M>(s: State<M>, a: Action<M>) {
    && a.AdvanceConsumer? && a.t < |s.consumers|
    && s.consumers[a.t].CIncrement? && !s.consumers[a.t].wasFull
    && |s.pushed| - |s.popped| == s.size
    && ProducerSleeps(s) && !ConsumerOwesWake(s)
  }

  // Facts about one entry of a thread table and the predicates above.
  lemma OwesAfter<M>(s: State<M>, s': State<M>, t: nat)
    requires t < |s.producers| == |s'.producers|
    requires forall i :: 0 <= i < |s.producers| && i != t ==> s'.producers[i] == s.producers[i]
    ensures Owing(s'.producers[t]) ==> ProducerOwesWake(s')
    ensures !Owing(s.producers[t]) && ProducerOwesWake(s) ==> ProducerOwesWake(s')
    ensures !Owing(s'.producers[t]) && ProducerOwesWake(s') ==> ProducerOwesWake(s)
    ensures !s'.producers[t].PAsleep? && ProducerSleeps(s') ==> ProducerSleeps(s)
    ensures !s.producers[t].PAsleep? && ProducerSleeps(s) ==> ProducerSleeps(s')
  {}

  lemma OwesAfterPop<M>(s: State<M>, s': State<M>, t: nat)
    requires t < |s.consumers| == |s'.consumers|
    requires forall i :: 0 <= i < |s.consumers| && i != t ==> s'.consumers[i] == s.consumers[i]
    ensures OwingPop(s'.consumers[t]) ==> ConsumerOwesWake(s')
    ensures !OwingPop(s.consumers[t]) && ConsumerOwesWake(s) ==> ConsumerOwesWake(s')
    ensures !OwingPop(s'.consumers[t]) && ConsumerOwesWake(s') ==> ConsumerOwesWake(s)
    ensures !s'.consumers[t].CAsleep? && ConsumerSleeps(s') ==> ConsumerSleeps(s)
    ensures !s.consumers[t].CAsleep? && ConsumerSleeps(s) ==> ConsumerSleeps(s')
  {}

  lemma ProducerStepCovers<M>(mode: Mode, s: State<M>, t: nat)
    requires Safe(s) && Covered(s) && ProducerNext(mode, s, t).Some?
    ensures Covered(ProducerNext(mode, s, t).value) <==> !StalePush(s, AdvanceProducer(t))
  {
    TestsAreExact(s);
    var s' := ProducerNext(mode, s, t).value;
    if !s.producers[t].PNotify? {
      OwesAfter(s, s', t);
    } else if !s.producers[t].wasEmpty {
      OwesAfter(s, s', t);
    }
  }

  lemma ConsumerStepCovers<M>(mode: Mode, s: State<M>, t: nat)
    requires Safe(s) && Covered(s) && ConsumerNext(mode, s, t).Some?
    ensures Covered(ConsumerNext(mode, s, t).value) <==> !StalePop(s, AdvanceConsumer(t))
  {
    TestsAreExact(s);
    var s' := ConsumerNext(mode, s, t).value;
    if !s.consumers[t].CNotify? {
      OwesAfterPop(s, s', t);
    } else if !s.consumers[t].wasFull {
      OwesAfterPop(s, s', t);
    }
  }

  /** A step loses a wake-up exactly when it is an increment on an outdated test. */
  lemma StepLosesWakeIffStale<M>(mode: Mode, s: State<M>, a: Action<M>)
    requires Safe(s) && Covered(s) && Next(mode, s, a).Some?
    ensures Covered(Next(mode, s, a).value) <==> !StalePush(s, a) && !StalePop(s, a)
  {
    match a
    case CallPush(t, m) => OwesAfter(s, Next(mode, s, a).value, t);
    case AdvanceProducer(t) => ProducerStepCovers(mode, s, t);
    case CallPop(t) => OwesAfterPop(s, Next(mode, s, a).value, t);
    case AdvanceConsumer(t) => ConsumerStepCovers(mode, s, t);
  }

  /** No thread sits between its test and its increment. */
  ghost predicate NoOpenTest<M>(s: State<M>) {
    && (forall t :: 0 <= t < |s.producers| ==> !s.producers[t].PIncrement?)
    && (forall t :: 0 <= t < |s.consumers| ==> !s.consumers[t].CIncrement?)
  }

  /** What every reachable state satisfies when no test can be outdated. */
  ghost predicate Sound<M>(mode: Mode, s: State<M>) {
    Safe(s) && Covered(s) && ((mode == Fused && NoOpenTest(s)) || s.size == 1)
  }

  lemma NothingStale<M>(mode: Mode, s: State<M>, a: Action<M>)
    requires Sound(mode, s)
    ensures !StalePush(s, a) && !StalePop(s, a)
  {}

  lemma FusedLeavesNoOpenTest<M>(s: State<M>, a: Action<M>)
    requires Shaped(s) && NoOpenTest(s) && Next(Fused, s, a).Some?
    ensures NoOpenTest(Next(Fused, s, a).value)
  {}

  lemma StepIsSound<M>(mode: Mode, s: State<M>, a: Action<M>)
    requires Sound(mode, s) && Next(mode, s, a).Some?
    ensures Sound(mode, Next(mode, s, a).value)
  {
    StepIsSafe(mode, s, a);
    StepLosesWakeIffStale(mode, s, a);
    NothingStale(mode, s, a);
    NextKeepsShape(mode, s, a);
    if s.size != 1 { FusedLeavesNoOpenTest(s, a); }
  }

  lemma {:induction false} RunIsSound<M>(mode: Mode, s: State<M>, schedule: seq<Action<M>>)
    requires Sound(mode, s) && Run(mode, s, schedule).Some?
    ensures Sound(mode, Run(mode, s, schedule).value)
    decreases |schedule|
  {
    if schedule != [] {
      StepIsSound(mode, s, schedule[0]);
      RunIsSound(mode, Next(mode, s, schedule[0]).value, schedule[1..]);
    }
  }

  lemma InitIsSafe<M>(size: nat, producers: nat, consumers: nat)
    requires ValidSize(size)
    ensures Safe(Init<M>(size, producers, consumers))
    ensures Covered(Init<M>(size, producers, consumers)) && NoOpenTest(Init<M>(size, producers, consumers))
  {
    assert size > 0;
  }

  ghost predicate Reachable<M(!new)>(mode: Mode, s0: State<M>, s: State<M>)
    requires Shaped(s0)
  {
    exists schedule: seq<Action<M>> :: Run(mode, s0, schedule) == Some(s)
  }

  // ---------------------------------------------------------------- main results

  /**
   FIFO safety, with every test and increment a step of its own: on every schedule,
   across any number of counter wraps, what was popped is a whole-message prefix of what
   was pushed, occupancy is within the buffer, and a slot being written is not occupied.
   */
  lemma FifoSafety<M(!new)>(mode: Mode, size: nat, producers: nat, consumers: nat, s: State<M>)
    requires ValidSize(size)
    requires size > 0 && Reachable(mode, Init(size, producers, consumers), s)
    ensures |s.popped| <= |s.pushed| <= |s.popped| + size
    ensures forall k :: 0 <= k < |s.popped| ==> s.popped[k] == Holds(s.pushed[k])
    ensures forall t, k :: 0 <= t < |s.producers| && |s.popped| <= k < |s.pushed|
                           && (s.producers[t].PBeginWrite? || s.producers[t].PEndWrite?)
                           ==> CounterToIndex(s.producer, size) != CounterToIndex(k, size)
    ensures forall t, u :: 0 <= t < u < |s.producers| ==> !(InPush(s.producers[t]) && InPush(s.producers[u]))
    ensures forall t, u :: 0 <= t < u < |s.consumers| ==> !(InPop(s.consumers[t]) && InPop(s.consumers[u]))
  {
    var schedule: seq<Action<M>> :| Run(mode, Init(size, producers, consumers), schedule) == Some(s);
    InitIsSafe<M>(size, producers, consumers);
    RunIsSafe(mode, Init(size, producers, consumers), schedule);
    RunKeepsSize(mode, Init(size, producers, consumers), schedule);
    TestsAreExact(s);
    forall t, k | 0 <= t < |s.producers| && |s.popped| <= k < |s.pushed|
                  && (s.producers[t].PBeginWrite? || s.producers[t].PEndWrite?)
      ensures CounterToIndex(s.producer, size) != CounterToIndex(k, size)
    {
      assert ProducerOk(s, s.producers[t]);
      ModsDiffer(k, |s.pushed|, size);
    }
  }

  lemma {:induction false} RunKeepsSize<M>(mode: Mode, s: State<M>, schedule: seq<Action<M>>)
    requires Shaped(s) && Run(mode, s, schedule).Some?
    ensures var s' := Run(mode, s, schedule).value;
            s'.size == s.size && |s'.producers| == |s.producers| && |s'.consumers| == |s.consumers|
    decreases |schedule|
  {
    if schedule != [] {
      NextKeepsShape(mode, s, schedule[0]);
      RunKeepsSize(mode, Next(mode, s, schedule[0]).value, schedule[1..]);
    }
  }

  lemma BothAsleep<M>(s: State<M>)
    requires Safe(s) && Covered(s) && ConsumerSleeps(s) && ProducerSleeps(s)
    ensures ProducerOwesWake(s) || ConsumerOwesWake(s)
    ensures |s.producers| > 1 || |s.consumers| > 1
  {}

  /**
   The wake-up guarantee when test and increment are one step: a sleeper has nothing to
   do or its wake is on the way, so with one thread per end the two never sleep at once.
   */
  lemma FusedNeverLosesWake<M(!new)>(size: nat, producers: nat, consumers: nat, s: State<M>)
    requires ValidSize(size)
    requires size > 0 && Reachable(Fused, Init(size, producers, consumers), s)
    ensures Covered(s)
    ensures ConsumerSleeps(s) && ProducerSleeps(s) ==> ProducerOwesWake(s) || ConsumerOwesWake(s)
    ensures producers <= 1 && consumers <= 1 ==> !(ConsumerSleeps(s) && ProducerSleeps(s))
  {
    var schedule: seq<Action<M>> :| Run(Fused, Init(size, producers, consumers), schedule) == Some(s);
    InitIsSafe<M>(size, producers, consumers);
    RunIsSound(Fused, Init(size, producers, consumers), schedule);
    RunKeepsSize(Fused, Init(size, producers, consumers), schedule);
    if ConsumerSleeps(s) && ProducerSleeps(s) { BothAsleep(s); }
  }

  // ---------------------------------------------------------------- losing a wake-up

  lemma {:induction false} RunAppend<M>(mode: Mode, s: State<M>, schedule: seq<Action<M>>, a: Action<M>)
    requires Shaped(s) && Run(mode, s, schedule).Some?
    requires Run(mode, s, schedule).value.size > 0
    requires |Run(mode, s, schedule).value.ring| == Run(mode, s, schedule).value.size
    ensures Run(mode, s, schedule + [a]) == Next(mode, Run(mode, s, schedule).value, a)
    decreases |schedule|
  {
    var more := schedule + [a];
    if schedule == [] {
      assert more[1..] == [];
    } else {
      NextKeepsShape(mode, s, schedule[0]);
      assert more[1..] == schedule[1..] + [a];
      RunAppend(mode, Next(mode, s, schedule[0]).value, schedule[1..], a);
    }
  }

  lemma Extend<M(!new)>(mode: Mode, s0: State<M>, s: State<M>, a: Action<M>) returns (s': State<M>)
    requires Shaped(s0) && Reachable(mode, s0, s)
    requires Shaped(s) && Next(mode, s, a).Some?
    ensures s' == Next(mode, s, a).value && Reachable(mode, s0, s')
    ensures s'.size == s.size && |s'.ring| == s'.size
  {
    var schedule: seq<Action<M>> :| Run(mode, s0, schedule) == Some(s);
    RunAppend(mode, s0, schedule, a);
    NextKeepsShape(mode, s, a);
    s' := Next(mode, s, a).value;
    assert Run(mode, s0, schedule + [a]) == Some(s');
  }

  /** Thread 0 of each end at the given points, every other thread idle, `n` messages in the ring. */
  ghost predicate Pair<M>(s: State<M>, p: ProducerPc<M>, c: ConsumerPc<M>, n: nat) {
    && Safe(s)
    && |s.producers| > 0 && |s.consumers| > 0 && s.producers[0] == p && s.consumers[0] == c
    && (forall t :: 0 < t < |s.producers| ==> s.producers[t].PIdle?)
    && (forall t :: 0 < t < |s.consumers| ==> s.consumers[t].CIdle?)
    && |s.pushed| == |s.popped| + n
  }

  /** Where a producer goes with `n` messages in the ring, when it may move. */
  function After<M>(p: ProducerPc<M>, n: nat, size: nat): ProducerPc<M> {
    match p
    case PTestFull(m) => if n == size then PWait(m) else PBeginWrite(m)
    case PWait(m) => if n == size then PAsleep(m) else PTestFull(m)
    case PBeginWrite(m) => PEndWrite(m)
    case PEndWrite(m) => PTestEmpty(m)
    case PTestEmpty(m) => PIncrement(m, n == 0)
    case PIncrement(m, wasEmpty) => PUnlock(wasEmpty)
    case PUnlock(wasEmpty) => PNotify(wasEmpty)
    case _ => PIdle
  }

  function AfterPop<M>(c: ConsumerPc<M>, r: Slot<M>, n: nat, size: nat): ConsumerPc<M> {
    match c
    case CTestEmpty => if n == 0 then CWait else CRead
    case CWait => if n == 0 then CAsleep else CTestEmpty
    case CRead => CTestFull(r)
    case CTestFull(v) => CIncrement(v, n == size)
    case CIncrement(v, wasFull) => CUnlock(wasFull)
    case CUnlock(wasFull) => CNotify(wasFull)
    case _ => CIdle
  }

  lemma PairAfterProducer<M>(s: State<M>, p: ProducerPc<M>, c: ConsumerPc<M>, n: nat)
    requires Pair(s, p, c, n)
    requires !p.PIdle? && !p.PAsleep? && (p == PNotify(true) ==> !c.CAsleep?)
    ensures var r := Next(Separate, s, AdvanceProducer(0));
            r.Some? && Pair(r.value, After(p, n, s.size), c, if p.PIncrement? then n + 1 else n)
  {
    TestsAreExact(s);
    ProducerStepIsSafe(Separate, s, 0);
  }

  lemma PairAfterConsumer<M>(s: State<M>, p: ProducerPc<M>, c: ConsumerPc<M>, n: nat) returns (v: Slot<M>)
    requires Pair(s, p, c, n)
    requires !c.CIdle? && !c.CAsleep? && (c == CNotify(true) ==> !p.PAsleep?)
    ensures c.CIncrement? ==> n > 0
    ensures var r := Next(Separate, s, AdvanceConsumer(0));
            r.Some? && Pair(r.value, p, AfterPop(c, v, n, s.size), if c.CIncrement? then n - 1 else n)
  {
    TestsAreExact(s);
    assert ConsumerOk(s, c);
    v := s.ring[CounterToIndex(s.consumer, s.size)];
    ConsumerStepIsSafe(Separate, s, 0);
  }

  lemma ProducerMove<M(!new)>(s0: State<M>, s: State<M>, p: ProducerPc<M>, c: ConsumerPc<M>, n: nat)
      returns (s': State<M>)
    requires Shaped(s0) && Reachable(Separate, s0, s) && Pair(s, p, c, n)
    requires !p.PIdle? && !p.PAsleep? && (p == PNotify(true) ==> !c.CAsleep?)
    ensures Reachable(Separate, s0, s') && s'.size == s.size
    ensures Pair(s', After(p, n, s.size), c, if p.PIncrement? then n + 1 else n)
  {
    PairAfterProducer(s, p, c, n);
    s' := Extend(Separate, s0, s, AdvanceProducer(0));
  }

  lemma ConsumerMove<M(!new)>(s0: State<M>, s: State<M>, p: ProducerPc<M>, c: ConsumerPc<M>, n: nat)
      returns (s': State<M>, r: Slot<M>)
    requires Shaped(s0) && Reachable(Separate, s0, s) && Pair(s, p, c, n)
    requires !c.CIdle? && !c.CAsleep? && (c == CNotify(true) ==> !p.PAsleep?)
    ensures Reachable(Separate, s0, s') && s'.size == s.size
    ensures (c.CIncrement? ==> n > 0) && Pair(s', p, AfterPop(c, r, n, s.size), if c.CIncrement? then n - 1 else n)
  {
    r := PairAfterConsumer(s, p, c, n);
    s' := Extend(Separate, s0, s, AdvanceConsumer(0));
  }

  lemma StartPush<M(!new)>(s0: State<M>, s: State<M>, m: M, c: ConsumerPc<M>, n: nat) returns (s': State<M>)
    requires Shaped(s0) && Reachable(Separate, s0, s) && Pair(s, PIdle, c, n)
    ensures Reachable(Separate, s0, s') && s'.size == s.size && Pair(s', PTestFull(m), c, n)
  {
    s' := Extend(Separate, s0, s, CallPush(0, m));
    StepIsSafe(Separate, s, CallPush(0, m));
  }

  lemma StartPop<M(!new)>(s0: State<M>, s: State<M>, p: ProducerPc<M>, n: nat) returns (s': State<M>)
    requires Shaped(s0) && Reachable(Separate, s0, s) && Pair(s, p, CIdle, n)
    ensures Reachable(Separate, s0, s') && s'.size == s.size && Pair(s', p, CTestEmpty, n)
  {
    s' := Extend(Separate, s0, s, CallPop(0));
    StepIsSafe(Separate, s, CallPop(0));
  }

  /** A push up to its increment. */
  lemma PushToIncrement<M(!new)>(s0: State<M>, s: State<M>, m: M, c: ConsumerPc<M>, n: nat) returns (s': State<M>)
    requires Shaped(s0) && Reachable(Separate, s0, s) && Pair(s, PIdle, c, n) && n < s.size
    ensures Reachable(Separate, s0, s') && s'.size == s.size && Pair(s', PIncrement(m, n == 0), c, n)
  {
    s' := StartPush(s0, s, m, c, n);
    s' := ProducerMove(s0, s', PTestFull(m), c, n);
    s' := ProducerMove(s0, s', PBeginWrite(m), c, n);
    s' := ProducerMove(s0, s', PEndWrite(m), c, n);
    s' := ProducerMove(s0, s', PTestEmpty(m), c, n);
  }

  /** The rest of that push, when it wakes nobody that sleeps. */
  lemma PushFromIncrement<M(!new)>(s0: State<M>, s: State<M>, m: M, w: bool, c: ConsumerPc<M>, n: nat)
      returns (s': State<M>)
    requires Shaped(s0) && Reachable(Separate, s0, s) && Pair(s, PIncrement(m, w), c, n)
    requires w ==> !c.CAsleep?
    ensures Reachable(Separate, s0, s') && s'.size == s.size && Pair(s', PIdle, c, n + 1)
  {
    s' := ProducerMove(s0, s, PIncrement(m, w), c, n);
    s' := ProducerMove(s0, s', PUnlock(w), c, n + 1);
    s' := ProducerMove(s0, s', PNotify(w), c, n + 1);
  }

  /** A pop up to its increment. */
  lemma PopToIncrement<M(!new)>(s0: State<M>, s: State<M>, p: ProducerPc<M>, n: nat)
      returns (s': State<M>, r: Slot<M>)
    requires Shaped(s0) && Reachable(Separate, s0, s) && Pair(s, p, CIdle, n) && n > 0
    ensures Reachable(Separate, s0, s') && s'.size == s.size && Pair(s', p, CIncrement(r, n == s.size), n)
  {
    var u;
    s' := StartPop(s0, s, p, n);
    s', u := ConsumerMove(s0, s', p, CTestEmpty, n);
    s', r := ConsumerMove(s0, s', p, CRead, n);
    s', u := ConsumerMove(s0, s', p, CTestFull(r), n);
  }

  lemma PopOne<M(!new)>(s0: State<M>, s: State<M>, p: ProducerPc<M>, n: nat) returns (s': State<M>)
    requires Shaped(s0) && Reachable(Separate, s0, s) && Pair(s, p, CIdle, n) && n > 0 && !p.PAsleep?
    ensures Reachable(Separate, s0, s') && s'.size == s.size && Pair(s', p, CIdle, n - 1)
  {
    var r, u;
    s', r := PopToIncrement(s0, s, p, n);
    s', u := ConsumerMove(s0, s', p, CIncrement(r, n == s.size), n);
    s', u := ConsumerMove(s0, s', p, CUnlock(n == s.size), n - 1);
    s', u := ConsumerMove(s0, s', p, CNotify(n == s.size), n - 1);
  }

  lemma PopSleeps<M(!new)>(s0: State<M>, s: State<M>, p: ProducerPc<M>) returns (s': State<M>)
    requires Shaped(s0) && Reachable(Separate, s0, s) && Pair(s, p, CIdle, 0)
    ensures Reachable(Separate, s0, s') && s'.size == s.size && Pair(s', p, CAsleep, 0)
  {
    var u;
    s' := StartPop(s0, s, p, 0);
    s', u := ConsumerMove(s0, s', p, CTestEmpty, 0);
    s', u := ConsumerMove(s0, s', p, CWait, 0);
  }

  /** The producer tests a ring of one message; the consumer drains it and falls asleep. */
  lemma SleepBehindTest<M(!new)>(size: nat, producers: nat, consumers: nat, m: M) returns (s: State<M>)
    requires ValidSize(size) && size > 1 && producers > 0 && consumers > 0
    ensures Reachable(Separate, Init<M>(size, producers, consumers), s) && s.size == size
    ensures Pair(s, PIncrement(m, false), CAsleep, 0)
  {
    var s0: State<M> := Init(size, producers, consumers);
    InitIsSafe<M>(size, producers, consumers);
    assert Run(Separate, s0, []) == Some(s0);
    s := PushToIncrement(s0, s0, m, CIdle, 0);
    s := PushFromIncrement(s0, s, m, true, CIdle, 0);
    s := PushToIncrement(s0, s, m, CIdle, 1);
    s := PopOne(s0, s, PIncrement(m, false), 1);
    s := PopSleeps(s0, s, PIncrement(m, false));
  }

  /**
   With separate steps the wake-up guarantee of the header comment holds on every schedule
   exactly for one-message buffers: with two or more slots a schedule leaves a consumer
   asleep beside a message nobody will announce.
   */
  lemma SeparateKeepsWakeIffOneSlot<M(!new)>(size: nat, producers: nat, consumers: nat, m: M)
    requires ValidSize(size) && producers > 0 && consumers > 0
    ensures size > 0
    ensures (forall s: State<M> :: Reachable(Separate, Init(size, producers, consumers), s) ==> Covered(s))
            <==> size == 1
  {
    InitIsSafe<M>(size, producers, consumers);
    var s0: State<M> := Init(size, producers, consumers);
    if size == 1 {
      forall s: State<M> | Reachable(Separate, s0, s) ensures Covered(s) {
        var schedule: seq<Action<M>> :| Run(Separate, s0, schedule) == Some(s);
        RunIsSound(Separate, s0, schedule);
      }
    } else {
      var s := SleepBehindTest(size, producers, consumers, m);
      s := ProducerMove(s0, s, PIncrement(m, false), CAsleep, 0);
      LostWake(s);
    }
  }

  lemma LostWake<M>(s: State<M>)
    requires Pair(s, PUnlock(false), CAsleep, 1)
    ensures !Covered(s)
  {
    assert s.consumers[0].CAsleep?;
  }

  lemma {:induction false} FillAndSleep<M(!new)>(s0: State<M>, s: State<M>, m: M, n: nat) returns (s': State<M>)
    requires Shaped(s0) && Reachable(Separate, s0, s) && Pair(s, PIdle, CAsleep, n) && 0 < n <= s.size
    ensures Reachable(Separate, s0, s') && Pair(s', PAsleep(m), CAsleep, s.size)
    decreases s.size - n
  {
    if n < s.size {
      s' := PushToIncrement(s0, s, m, CAsleep, n);
      s' := PushFromIncrement(s0, s', m, false, CAsleep, n);
      s' := FillAndSleep(s0, s', m, n + 1);
    } else {
      s' := StartPush(s0, s, m, CAsleep, n);
      s' := ProducerMove(s0, s', PTestFull(m), CAsleep, n);
      s' := ProducerMove(s0, s', PWait(m), CAsleep, n);
    }
  }

  /** The lost wake-up ends in a deadlock: both ends asleep, everyone else idle, the ring full. */
  lemma SeparateCanDeadlock<M(!new)>(size: nat, producers: nat, consumers: nat, m: M) returns (s: State<M>)
    requires ValidSize(size) && size > 1 && producers > 0 && consumers > 0
    ensures Reachable(Separate, Init<M>(size, producers, consumers), s)
    ensures Pair(s, PAsleep(m), CAsleep, size)
    ensures forall a: Action<M> :: Next(Separate, s, a).None?
  {
    var s0: State<M> := Init(size, producers, consumers);
    InitIsSafe<M>(size, producers, consumers);
    s := SleepBehindTest(size, producers, consumers, m);
    s := PushFromIncrement(s0, s, m, false, CAsleep, 0);
    s := FillAndSleep(s0, s, m, 1);
    forall a: Action<M> ensures Next(Separate, s, a).None? { AsleepForGood(s, m, size, a); }
  }

  /** With both ends asleep and both locks held no thread can take a step. */
  lemma AsleepForGood<M>(s: State<M>, m: M, n: nat, a: Action<M>)
    requires Pair(s, PAsleep(m), CAsleep, n)
    ensures Next(Separate, s, a).None?
  {}

  /** Fusing the test with the increment only removes schedules: it is two steps taken in a row. */
  lemma FusedStepIsTwoSteps<M>(s: State<M>, t: nat)
    requires Shaped(s) && t < |s.producers| && s.producers[t].PTestEmpty?
    ensures var mid := Next(Separate, s, AdvanceProducer(t));
            && mid.Some? && Shaped(mid.value)
            && Next(Separate, mid.value, AdvanceProducer(t)) == Next(Fused, s, AdvanceProducer(t))
  {
    var mid := Next(Separate, s, AdvanceProducer(t)).value;
    assert mid.producers[t := PUnlock(IsEmpty(s))] == s.producers[t := PUnlock(IsEmpty(s))];
  }

  lemma FusedPopIsTwoSteps<M>(s: State<M>, t: nat)
    requires Shaped(s) && t < |s.consumers| && s.consumers[t].CTestFull?
    ensures var mid := Next(Separate, s, AdvanceConsumer(t));
            && mid.Some? && Shaped(mid.value)
            && Next(Separate, mid.value, AdvanceConsumer(t)) == Next(Fused, s, AdvanceConsumer(t))
  {
    var mid := Next(Separate, s, AdvanceConsumer(t)).value;
    assert mid.consumers[t := CUnlock(IsFull(s))] == s.consumers[t := CUnlock(IsFull(s))];
  }

  // ---------------------------------------------------------------- the object itself

  /** The buffer with its storage updated in place, one atomic step per call. */
  class Ring<M> {
    const size: nat
    const ring: array<Slot<M>>
    var producer: nat
    var consumer: nat
    var pushLock: Option<nat>
    var popLock: Option<nat>
    var producers: seq<ProducerPc<M>>
    var consumers: seq<ConsumerPc<M>>
    ghost var pushed: seq<M>
    ghost var popped: seq<Slot<M>>

    ghost function View(): State<M>
      reads this, ring
    {
      State(size, ring[..], producer, consumer, pushLock, popLock, producers, consumers, pushed, popped)
    }

    constructor (bufferSize: nat, producerThreads: nat, consumerThreads: nat)
      requires ValidSize(bufferSize)
      ensures fresh(ring) && View() == Init(bufferSize, producerThreads, consumerThreads)
    {
      size := bufferSize;
      ring := new Slot<M>[bufferSize](_ => Torn);
      producer, consumer := 0, 0;
      pushLock, popLock := None, None;
      producers := seq(producerThreads, _ => PIdle);
      consumers := seq(consumerThreads, _ => CIdle);
      pushed, popped := [], [];
      new;
      assert ring[..] == seq(bufferSize, _ => Torn);
    }

    /** Thread `t` calls `push` and takes the lock, unless it is busy or the lock is held. */
    method CallPush(mode: Mode, t: nat, m: M) returns (moved: bool)
      requires size > 0 && ring.Length == size
      modifies this`pushLock, this`producers
      ensures moved == Next(mode, old(View()), Action.CallPush(t, m)).Some?
      ensures View() == if moved then Next(mode, old(View()), Action.CallPush(t, m)).value else old(View())
    {
      moved := t < |producers| && producers[t].PIdle? && pushLock.None?;
      if moved {
        pushLock := Some(t);
        producers := producers[t := PTestFull(m)];
      }
    }

    /** Thread `t` calls `pop` and takes the lock, unless it is busy or the lock is held. */
    method CallPop(mode: Mode, t: nat) returns (moved: bool)
      requires size > 0 && ring.Length == size
      modifies this`popLock, this`consumers
      ensures moved == Next(mode, old(View()), Action.CallPop(t)).Some?
      ensures View() == if moved then Next(mode, old(View()), Action.CallPop(t)).value else old(View())
    {
      moved := t < |consumers| && consumers[t].CIdle? && popLock.None?;
      if moved {
        popLock := Some(t);
        consumers := consumers[t := CTestEmpty];
      }
    }

    /** The next atomic step of `push` on thread `t`. */
    method StepProducer(mode: Mode, t: nat) returns (moved: bool)
      requires size > 0 && ring.Length == size
      modifies this, ring
      ensures moved == ProducerNext(mode, old(View()), t).Some?
      ensures View() == if moved then ProducerNext(mode, old(View()), t).value else old(View())
    {
      if t >= |producers| { return false; }
      moved := true;
      match producers[t]
      case PIdle => moved := false;
      case PTestFull(m) =>
        var full := Wrap(producer - consumer) == size;
        producers := producers[t := if full then PWait(m) else PBeginWrite(m)];
      case PWait(m) =>
        var expected := Wrap(producer - size);
        producers := producers[t := if consumer == expected then PAsleep(m) else PTestFull(m)];
      case PAsleep(m) => moved := false;
      case PBeginWrite(m) =>
        ring[CounterToIndex(producer, size)] := Torn;
        producers := producers[t := PEndWrite(m)];
      case PEndWrite(m) =>
        ring[CounterToIndex(producer, size)] := Holds(m);
        producers := producers[t := PTestEmpty(m)];
      case PTestEmpty(m) =>
        var wasEmpty := producer == consumer;
        if mode == Separate {
          producers := producers[t := PIncrement(m, wasEmpty)];
        } else {
          producers := producers[t := PUnlock(wasEmpty)];
          producer, pushed := Wrap(producer + 1), pushed + [m];
        }
      case PIncrement(m, wasEmpty) =>
        producers := producers[t := PUnlock(wasEmpty)];
        producer, pushed := Wrap(producer + 1), pushed + [m];
      case PUnlock(wasEmpty) =>
        pushLock := None;
        producers := producers[t := PNotify(wasEmpty)];
      case PNotify(wasEmpty) =>
        producers := producers[t := PIdle];
        if wasEmpty { consumers := WakeConsumers(consumers); }
    }

    /** The next atomic step of `pop` on thread `t`. */
    method StepConsumer(mode: Mode, t: nat) returns (moved: bool)
      requires size > 0 && ring.Length == size
      modifies this
      ensures moved == ConsumerNext(mode, old(View()), t).Some?
      ensures View() == if moved then ConsumerNext(mode, old(View()), t).value else old(View())
    {
      if t >= |consumers| { return false; }
      moved := true;
      match consumers[t]
      case CIdle => moved := false;
      case CTestEmpty => consumers := consumers[t := if producer == consumer then CWait else CRead];
      case CWait => consumers := consumers[t := if producer == consumer then CAsleep else CTestEmpty];
      case CAsleep => moved := false;
      case CRead => consumers := consumers[t := CTestFull(ring[CounterToIndex(consumer, size)])];
      case CTestFull(r) =>
        var wasFull := Wrap(producer - consumer) == size;
        if mode == Separate {
          consumers := consumers[t := CIncrement(r, wasFull)];
        } else {
          consumers := consumers[t := CUnlock(wasFull)];
          consumer, popped := Wrap(consumer + 1), popped + [r];
        }
      case CIncrement(r, wasFull) =>
        consumers := consumers[t := CUnlock(wasFull)];
        consumer, popped := Wrap(consumer + 1), popped + [r];
      case CUnlock(wasFull) =>
        popLock := None;
        consumers := consumers[t := CNotify(wasFull)];
      case CNotify(wasFull) =>
        consumers := consumers[t := CIdle];
        if wasFull { producers := WakeProducers(producers); }
    }
  }
}
