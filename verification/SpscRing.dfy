/** The lock-free single-producer single-consumer ring (userspace_simulation/src/shm.rs), as a
    machine whose steps are the separate loads, slot accesses and stores of push, pop and len.
    Steps of the two sides interleave freely under sequential consistency. Every trace of the
    machine is a trace of an atomic bounded queue. */
module SpscRing {
  import opened Words

  /** Where the producer is inside push (or inside len, which the dispatcher calls). */
  datatype Producer<T> =
    | ProducerIdle
    | TailLoaded(desc: T, t: U32)
    | RoomChecked(desc: T, t: U32)
    | SlotWritten(desc: T, t: U32)
    | LenTail(t: U32)

  /** Where the consumer is inside pop (or inside len). */
  datatype Consumer<T> =
    | ConsumerIdle
    | HeadLoaded(h: U32)
    | DataSeen(h: U32)
    | SlotRead(h: U32, v: T)
    | OwnLenTail(t: U32)

  datatype Ring<T> = Ring(slots: seq<T>, tail: U32, head: U32, producer: Producer<T>, consumer: Consumer<T>)

  datatype Access<T> =
    | PushLoadTail(desc: T) | PushLoadHead | PushWriteSlot | PushStoreTail
    | PopLoadHead | PopLoadTail | PopReadSlot | PopStoreHead
    | LenLoadTail | LenLoadHead
    | OwnLenLoadTail | OwnLenLoadHead

  /** What an access completes: nothing yet, or an operation with its result. */
  datatype Event<T> =
    | Internal
    | Accepted(v: T)
    | Rejected(v: T)
    | Popped(v: T)
    | FoundEmpty
    | LenReturned(n: nat)
    | LenSampled
    | OwnLenReturned(n: nat)

  const QUEUE_CAP := 512

  /** The index width and the capacity: the capacity divides 2^32 and is smaller. */
  ghost predicate ValidCapacity(cap: nat) {
    0 < cap < TWO_TO_THE_32 && TWO_TO_THE_32 % cap == 0
  }

  function WrappingAdd(a: U32, b: U32): U32 { (a + b) % TWO_TO_THE_32 }

  function WrappingSub(a: U32, b: U32): U32 { (a - b) % TWO_TO_THE_32 }

  /** Which access each side's control point allows. */
  predicate Enabled<T>(r: Ring<T>, a: Access<T>) {
    match a
    case PushLoadTail(_) => r.producer.ProducerIdle?
    case PushLoadHead => r.producer.TailLoaded?
    case PushWriteSlot => r.producer.RoomChecked?
    case PushStoreTail => r.producer.SlotWritten?
    case LenLoadTail => r.producer.ProducerIdle?
    case LenLoadHead => r.producer.LenTail?
    case PopLoadHead => r.consumer.ConsumerIdle?
    case PopLoadTail => r.consumer.HeadLoaded?
    case PopReadSlot => r.consumer.DataSeen?
    case PopStoreHead => r.consumer.SlotRead?
    case OwnLenLoadTail => r.consumer.ConsumerIdle?
    case OwnLenLoadHead => r.consumer.OwnLenTail?
  }

  /** One memory access. */
  function RingStep<T>(r: Ring<T>, a: Access<T>): (Ring<T>, Event<T>)
    requires |r.slots| > 0 && Enabled(r, a)
  {
    var cap := |r.slots|;
    match a
    case PushLoadTail(d) => (r.(producer := TailLoaded(d, r.tail)), Internal)
    case PushLoadHead =>
      var TailLoaded(d, t) := r.producer;
      if WrappingSub(t, r.head) >= cap
      then (r.(producer := ProducerIdle), Rejected(d))
      else (r.(producer := RoomChecked(d, t)), Internal)
    case PushWriteSlot =>
      var RoomChecked(d, t) := r.producer;
      (r.(slots := r.slots[t % cap := d], producer := SlotWritten(d, t)), Internal)
    case PushStoreTail =>
      var SlotWritten(d, t) := r.producer;
      (r.(tail := WrappingAdd(t, 1), producer := ProducerIdle), Accepted(d))
    case PopLoadHead => (r.(consumer := HeadLoaded(r.head)), Internal)
    case PopLoadTail =>
      var h := r.consumer.h;
      if h == r.tail
      then (r.(consumer := ConsumerIdle), FoundEmpty)
      else (r.(consumer := DataSeen(h)), Internal)
    case PopReadSlot =>
      var h := r.consumer.h;
      (r.(consumer := SlotRead(h, r.slots[h % cap])), Internal)
    case PopStoreHead =>
      var SlotRead(h, v) := r.consumer;
      (r.(head := WrappingAdd(h, 1), consumer := ConsumerIdle), Popped(v))
    case LenLoadTail => (r.(producer := LenTail(r.tail)), Internal)
    case LenLoadHead =>
      (r.(producer := ProducerIdle), LenReturned(WrappingSub(r.producer.t, r.head)))
    case OwnLenLoadTail => (r.(consumer := OwnLenTail(r.tail)), LenSampled)
    case OwnLenLoadHead =>
      (r.(consumer := ConsumerIdle), OwnLenReturned(WrappingSub(r.consumer.t, r.head)))
  }

  function EmptyRing<T>(slots: seq<T>): Ring<T> {
    Ring(slots, 0, 0, ProducerIdle, ConsumerIdle)
  }

  // ---- the atomic queue the ring implements ----

  /** Everything ever accepted and everything ever popped, in order, and the length at the
      consumer's last own-length sample. */
  datatype Fifo<T> = Fifo(accepted: seq<T>, popped: seq<T>, sample: int)

  function Length<T>(f: Fifo<T>): int { |f.accepted| - |f.popped| }

  /** When an atomic queue of the given capacity may complete an operation this way. */
  predicate Allows<T(==)>(f: Fifo<T>, cap: nat, e: Event<T>) {
    match e
    case Internal => true
    case Accepted(v) => Length(f) < cap
    case Rejected(v) => Length(f) == cap
    case Popped(v) => |f.popped| < |f.accepted| && v == f.accepted[|f.popped|]
    case FoundEmpty => Length(f) == 0
    case LenReturned(n) => n == Length(f)
    case LenSampled => true
    case OwnLenReturned(n) => n == f.sample
  }

  function After<T>(f: Fifo<T>, e: Event<T>): Fifo<T> {
    match e
    case Accepted(v) => f.(accepted := f.accepted + [v])
    case Popped(v) => f.(popped := f.popped + [v])
    case LenSampled => f.(sample := Length(f))
    case _ => f
  }

  function EmptyFifo<T>(): Fifo<T> { Fifo([], [], 0) }

  /** The atomic queue performs the whole event sequence. */
  predicate Performs<T(==)>(f: Fifo<T>, cap: nat, events: seq<Event<T>>)
    decreases |events|
  {
    events == [] || (Allows(f, cap, events[0]) && Performs(After(f, events[0]), cap, events[1..]))
  }

  // ---- runs of the ring ----

  predicate Runs<T>(r: Ring<T>, accesses: seq<Access<T>>)
    requires |r.slots| > 0
    decreases |accesses|
  {
    accesses == [] || (Enabled(r, accesses[0]) && Runs(RingStep(r, accesses[0]).0, accesses[1..]))
  }

  function Final<T>(r: Ring<T>, accesses: seq<Access<T>>): Ring<T>
    requires |r.slots| > 0 && Runs(r, accesses)
    decreases |accesses|
  {
    if accesses == [] then r else Final(RingStep(r, accesses[0]).0, accesses[1..])
  }

  function Trace<T>(r: Ring<T>, accesses: seq<Access<T>>): seq<Event<T>>
    requires |r.slots| > 0 && Runs(r, accesses)
    decreases |accesses|
  {
    if accesses == [] then [] else [RingStep(r, accesses[0]).1] + Trace(RingStep(r, accesses[0]).0, accesses[1..])
  }

  function AcceptedIn<T>(events: seq<Event<T>>): seq<T> {
    if events == [] then []
    else (if events[0].Accepted? then [events[0].v] else []) + AcceptedIn(events[1..])
  }

  function PoppedIn<T>(events: seq<Event<T>>): seq<T> {
    if events == [] then []
    else (if events[0].Popped? then [events[0].v] else []) + PoppedIn(events[1..])
  }

  // ---- the coupling invariant ----

  /** The ring stands for the queue: the indices are the unbounded counts modulo 2^32, the live
      slots hold the unpopped values, and each side's loaded values are still current. */
  ghost predicate Stands<T(!new)>(r: Ring<T>, f: Fifo<T>) {
    var cap, T, H := |r.slots|, |f.accepted|, |f.popped|;
    && ValidCapacity(cap)
    && H <= T <= H + cap
    && f.popped == f.accepted[..H]
    && r.tail == T % TWO_TO_THE_32
    && r.head == H % TWO_TO_THE_32
    && (forall k :: H <= k < T ==> r.slots[k % cap] == f.accepted[k])
    && ProducerCurrent(r, f)
    && ConsumerCurrent(r, f)
  }

  ghost predicate ProducerCurrent<T(!new)>(r: Ring<T>, f: Fifo<T>)
    requires |r.slots| > 0
  {
    match r.producer
    case ProducerIdle => true
    case TailLoaded(_, t) => t == r.tail
    case RoomChecked(_, t) => t == r.tail && Length(f) < |r.slots|
    case SlotWritten(d, t) => t == r.tail && Length(f) < |r.slots| && r.slots[|f.accepted| % |r.slots|] == d
    case LenTail(t) => t == r.tail
  }

  ghost predicate ConsumerCurrent<T(!new)>(r: Ring<T>, f: Fifo<T>) {
    match r.consumer
    case ConsumerIdle => true
    case HeadLoaded(h) => h == r.head
    case DataSeen(h) => h == r.head && |f.popped| < |f.accepted|
    case SlotRead(h, v) => h == r.head && |f.popped| < |f.accepted| && v == f.accepted[|f.popped|]
    case OwnLenTail(t) => 0 <= f.sample <= |r.slots| && t == (|f.popped| + f.sample) % TWO_TO_THE_32
  }

  lemma EmptyStands<T(!new)>(slots: seq<T>)
    requires ValidCapacity(|slots|)
    ensures Stands(EmptyRing(slots), EmptyFifo())
  {
  }

  /** Reducing the unbounded index modulo 2^32 first does not move its slot. */
  lemma SlotOfIndex(k: nat, cap: nat)
    requires ValidCapacity(cap)
    ensures (k % TWO_TO_THE_32) % cap == k % cap
  {
    ModOfMod(k, TWO_TO_THE_32, cap);
  }

  /** The wrapped difference of two counts less than 2^32 apart is their difference. */
  lemma WrappedDistance(a: nat, b: nat)
    requires 0 <= a - b < TWO_TO_THE_32
    ensures WrappingSub(a % TWO_TO_THE_32, b % TWO_TO_THE_32) == a - b
  {
    var M := TWO_TO_THE_32;
    var p, q := a / M, b / M;
    assert a % M - b % M == (a - b) + (q - p) * M;
    ModAddMultiple(a - b, q - p, M);
  }

  lemma WrappedSuccessor(a: nat)
    ensures WrappingAdd(a % TWO_TO_THE_32, 1) == (a + 1) % TWO_TO_THE_32
  {
    var M := TWO_TO_THE_32;
    ModAddMultiple(a % M + 1, a / M, M);
  }

  /** Distinct live indices have distinct slots. */
  lemma SlotsDistinct(i: nat, j: nat, cap: nat)
    requires i < j < i + cap
    ensures i % cap != j % cap
  {
    if i % cap == j % cap { ModInjective(j, i, cap); }
  }

  /** Every access the machine can make, at any interleaving and after any number of index
      wrap-arounds, is one the atomic queue allows, and the coupling survives it. */
  lemma StepRefines<T(!new)>(r: Ring<T>, f: Fifo<T>, a: Access<T>)
    requires Stands(r, f) && Enabled(r, a)
    ensures Allows(f, |r.slots|, RingStep(r, a).1)
    ensures Stands(RingStep(r, a).0, After(f, RingStep(r, a).1)) && |RingStep(r, a).0.slots| == |r.slots| > 0
  {
    if ByProducer(a) {
      ProducerStepRefines(r, f, a);
    } else {
      ConsumerStepRefines(r, f, a);
    }
  }

  predicate ByProducer<T>(a: Access<T>) {
    a.PushLoadTail? || a.PushLoadHead? || a.PushWriteSlot? || a.PushStoreTail? || a.LenLoadTail? || a.LenLoadHead?
  }

  lemma ProducerStepRefines<T(!new)>(r: Ring<T>, f: Fifo<T>, a: Access<T>)
    requires Stands(r, f) && Enabled(r, a) && ByProducer(a)
    ensures Allows(f, |r.slots|, RingStep(r, a).1)
    ensures Stands(RingStep(r, a).0, After(f, RingStep(r, a).1)) && |RingStep(r, a).0.slots| == |r.slots|
  {
    var T, H := |f.accepted|, |f.popped|;
    match a
    case PushLoadTail(_) =>
    case PushLoadHead => WrappedDistance(T, H);
    case PushWriteSlot => WriteKeepsLiveSlots(r, f);
    case PushStoreTail =>
      WrappedSuccessor(T);
      assert f.popped == After(f, RingStep(r, a).1).accepted[..H];
    case LenLoadTail =>
    case LenLoadHead => WrappedDistance(T, H);
  }

  lemma ConsumerStepRefines<T(!new)>(r: Ring<T>, f: Fifo<T>, a: Access<T>)
    requires Stands(r, f) && Enabled(r, a) && !ByProducer(a)
    ensures Allows(f, |r.slots|, RingStep(r, a).1)
    ensures Stands(RingStep(r, a).0, After(f, RingStep(r, a).1)) && |RingStep(r, a).0.slots| == |r.slots|
  {
    hide RingStep, Stands, Allows, After;
    match a
    case PopLoadHead => ConsumerFirstLoadRefines(r, f, a);
    case PopLoadTail => PopCheckRefines(r, f);
    case PopReadSlot => PopReadRefines(r, f);
    case PopStoreHead => PopStoreRefines(r, f);
    case OwnLenLoadTail => ConsumerFirstLoadRefines(r, f, a);
    case OwnLenLoadHead => OwnLenRefines(r, f);
  }

  lemma ConsumerFirstLoadRefines<T(!new)>(r: Ring<T>, f: Fifo<T>, a: Access<T>)
    requires Stands(r, f) && r.consumer.ConsumerIdle? && (a.PopLoadHead? || a.OwnLenLoadTail?)
    ensures Allows(f, |r.slots|, RingStep(r, a).1)
    ensures Stands(RingStep(r, a).0, After(f, RingStep(r, a).1)) && |RingStep(r, a).0.slots| == |r.slots|
  {
  }

  lemma PopCheckRefines<T(!new)>(r: Ring<T>, f: Fifo<T>)
    requires Stands(r, f) && r.consumer.HeadLoaded?
    ensures var (r', e) := RingStep(r, PopLoadTail);
            Allows(f, |r.slots|, e) && Stands(r', After(f, e)) && |r'.slots| == |r.slots|
  {
    WrappedDistance(|f.accepted|, |f.popped|);
  }

  lemma OwnLenRefines<T(!new)>(r: Ring<T>, f: Fifo<T>)
    requires Stands(r, f) && r.consumer.OwnLenTail?
    ensures var (r', e) := RingStep(r, OwnLenLoadHead);
            Allows(f, |r.slots|, e) && Stands(r', After(f, e)) && |r'.slots| == |r.slots|
  {
    WrappedDistance(|f.popped| + f.sample, |f.popped|);
  }

  lemma PopReadRefines<T(!new)>(r: Ring<T>, f: Fifo<T>)
    requires Stands(r, f) && r.consumer.DataSeen?
    ensures var (r', e) := RingStep(r, PopReadSlot);
            Allows(f, |r.slots|, e) && Stands(r', After(f, e)) && |r'.slots| == |r.slots|
  {
    SlotOfIndex(|f.popped|, |r.slots|);
  }

  lemma PopStoreRefines<T(!new)>(r: Ring<T>, f: Fifo<T>)
    requires Stands(r, f) && r.consumer.SlotRead?
    ensures var (r', e) := RingStep(r, PopStoreHead);
            Allows(f, |r.slots|, e) && Stands(r', After(f, e)) && |r'.slots| == |r.slots|
  {
    var H := |f.popped|;
    WrappedSuccessor(H);
    assert After(f, RingStep(r, PopStoreHead).1).popped == f.accepted[..H + 1];
  }

  lemma WriteKeepsLiveSlots<T(!new)>(r: Ring<T>, f: Fifo<T>)
    requires Stands(r, f) && r.producer.RoomChecked?
    ensures Stands(RingStep(r, PushWriteSlot).0, f)
  {
    var cap, T, H := |r.slots|, |f.accepted|, |f.popped|;
    SlotOfIndex(T, cap);
    forall k | H <= k < T ensures k % cap != T % cap { SlotsDistinct(k, T, cap); }
  }

  /** No slot is written while it is read: whenever both sides stand before their slot access,
      the slots differ. */
  lemma NoSlotRace<T(!new)>(r: Ring<T>, f: Fifo<T>)
    requires Stands(r, f) && r.producer.RoomChecked? && r.consumer.DataSeen?
    ensures r.producer.t % |r.slots| != r.consumer.h % |r.slots|
  {
    SlotOfIndex(|f.accepted|, |r.slots|);
    SlotOfIndex(|f.popped|, |r.slots|);
    SlotsDistinct(|f.popped|, |f.accepted|, |r.slots|);
  }

  lemma NothingHappened<T(!new)>(f: Fifo<T>)
    ensures f.accepted + AcceptedIn([]) == f.accepted && f.popped + PoppedIn([]) == f.popped
  {
  }

  lemma HistoryGrows<T(!new)>(f: Fifo<T>, e: Event<T>, rest: seq<Event<T>>)
    ensures After(f, e).accepted + AcceptedIn(rest) == f.accepted + AcceptedIn([e] + rest)
    ensures After(f, e).popped + PoppedIn(rest) == f.popped + PoppedIn([e] + rest)
  {
    assert ([e] + rest)[1..] == rest;
    var a, p := AcceptedIn(rest), PoppedIn(rest);
    if e.Accepted? {
      assert (f.accepted + [e.v]) + a == f.accepted + ([e.v] + a);
    } else {
      assert AcceptedIn([e] + rest) == a;
    }
    if e.Popped? {
      assert (f.popped + [e.v]) + p == f.popped + ([e.v] + p);
    } else {
      assert PoppedIn([e] + rest) == p;
    }
  }

  lemma {:induction false} RunRefines<T(!new)>(r: Ring<T>, f: Fifo<T>, accesses: seq<Access<T>>) returns (f': Fifo<T>)
    requires Stands(r, f) && |r.slots| > 0 && Runs(r, accesses)
    ensures Performs(f, |r.slots|, Trace(r, accesses))
    ensures Stands(Final(r, accesses), f') && |Final(r, accesses).slots| == |r.slots|
    ensures f'.accepted == f.accepted + AcceptedIn(Trace(r, accesses))
    ensures f'.popped == f.popped + PoppedIn(Trace(r, accesses))
    decreases |accesses|
  {
    hide RingStep, Stands, Allows, Enabled, After, AcceptedIn, PoppedIn;
    if accesses == [] {
      f' := f;
      NothingHappened(f);
    } else {
      var (r1, e) := RingStep(r, accesses[0]);
      StepRefines(r, f, accesses[0]);
      f' := RunRefines(r1, After(f, e), accesses[1..]);
      var rest := Trace(r1, accesses[1..]);
      assert ([e] + rest)[1..] == rest;
      HistoryGrows(f, e, rest);
    }
  }

  /** The refinement theorem: from an empty ring, whatever accesses the two sides interleave,
      the completed operations are a history of an atomic queue of that capacity; the popped
      values are a prefix of the accepted ones, at most the capacity behind; and at the end no
      slot is being written while it is read. */
  lemma RingRefinesFifo<T(!new)>(slots: seq<T>, accesses: seq<Access<T>>)
    requires ValidCapacity(|slots|) && Runs(EmptyRing(slots), accesses)
    ensures var trace, r := Trace(EmptyRing(slots), accesses), Final(EmptyRing(slots), accesses);
            && Performs(EmptyFifo(), |slots|, trace)
            && PoppedIn(trace) <= AcceptedIn(trace)
            && |AcceptedIn(trace)| <= |PoppedIn(trace)| + |slots|
            && |r.slots| == |slots|
            && (r.producer.RoomChecked? && r.consumer.DataSeen? ==>
                  r.producer.t % |slots| != r.consumer.h % |slots|)
  {
    hide RingStep, Allows, Enabled;
    EmptyStands(slots);
    var f := RunRefines(EmptyRing(slots), EmptyFifo(), accesses);
    var trace := Trace(EmptyRing(slots), accesses);
    assert EmptyFifo<T>().accepted + AcceptedIn(trace) == AcceptedIn(trace);
    assert EmptyFifo<T>().popped + PoppedIn(trace) == PoppedIn(trace);
    var r := Final(EmptyRing(slots), accesses);
    if r.producer.RoomChecked? && r.consumer.DataSeen? { NoSlotRace(r, f); }
  }

  /** Both kinds of len() call return a value in 0..cap; the producer's is the queue length at
      its second load, the consumer's the length at its first. */
  lemma LenIsALength<T(!new)>(r: Ring<T>, f: Fifo<T>)
    requires Stands(r, f)
    ensures r.producer.LenTail? ==>
              RingStep(r, LenLoadHead).1 == LenReturned(Length(f)) && 0 <= Length(f) <= |r.slots|
    ensures r.consumer.OwnLenTail? ==>
              f.sample >= 0 && RingStep(r, OwnLenLoadHead).1 == OwnLenReturned(f.sample) && f.sample <= |r.slots|
    ensures r.consumer.ConsumerIdle? ==> After(f, RingStep(r, OwnLenLoadTail).1).sample == Length(f)
  {
    if r.producer.LenTail? { StepRefines(r, f, LenLoadHead); }
    if r.consumer.OwnLenTail? { StepRefines(r, f, OwnLenLoadHead); }
  }

  /** Why the capacity must divide the index range: slot addressing survives wrap-around for
      every index exactly when it does. */
  lemma AddressingIffDivides(cap: nat)
    requires cap > 0
    ensures (forall k: nat :: (k % TWO_TO_THE_32) % cap == k % cap) <==> TWO_TO_THE_32 % cap == 0
  {
    if TWO_TO_THE_32 % cap == 0 {
      forall k: nat ensures (k % TWO_TO_THE_32) % cap == k % cap {
        ModOfMod(k, TWO_TO_THE_32, cap);
      }
    } else {
      var k: nat := TWO_TO_THE_32;
      assert k % TWO_TO_THE_32 == 0;
      DivUnique(0, cap, 0, 0);
    }
  }
}
