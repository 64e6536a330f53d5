/** The accept queue as the object it is: two wrapping indices and an array of slots, updated in
    place by push and pop (userspace_simulation/src/shm.rs). Run without interference, each
    method is the machine of SpscRing taking its accesses one after the other. */
module ConnQueues {
  import opened Words
  import opened SpscRing
  import opened Simulation

  class ConnQueue {
    var tail: U32
    var head: U32
    const slots: array<ConnDesc>

    ghost predicate Valid()
      reads this, slots
    {
      ValidCapacity(slots.Length) && WrappingSub(tail, head) <= slots.Length
    }

    /** The queued connections, oldest first. */
    ghost function Contents(): (s: seq<ConnDesc>)
      requires Valid()
      reads this, slots
      ensures |s| == WrappingSub(tail, head)
    {
      Live(slots[..], head, WrappingSub(tail, head))
    }

    /** The shared memory of this queue, with both sides between calls. */
    ghost function Memory(): Ring<ConnDesc>
      reads this, slots
    {
      Ring(slots[..], tail, head, ProducerIdle, ConsumerIdle)
    }

    constructor (cap: nat)
      requires ValidCapacity(cap)
      ensures Valid() && fresh(slots) && slots.Length == cap && Contents() == []
    {
      tail, head := 0, 0;
      slots := new ConnDesc[cap](_ => ZERO_DESC);
    }

    method Push(desc: ConnDesc) returns (ok: bool)
      requires Valid()
      modifies this`tail, slots
      ensures Valid() && head == old(head)
      ensures ok <==> |old(Contents())| < slots.Length
      ensures Contents() == if ok then old(Contents()) + [desc] else old(Contents())
      ensures (Memory(), ok) == PushAlone(old(Memory()), desc)
    {
      var t := tail;
      var h := head;
      if WrappingSub(t, h) >= slots.Length {
        return false;
      }
      ghost var before := slots[..];
      slots[t % slots.Length] := desc;
      tail := WrappingAdd(t, 1);
      ok := true;
      assert slots[..] == before[t % slots.Length := desc];
      LiveAfterWrite(before, h, t, desc);
    }

    method Pop() returns (desc: Option<ConnDesc>)
      requires Valid()
      modifies this`head
      ensures Valid() && tail == old(tail) && slots[..] == old(slots[..])
      ensures old(Contents()) == [] ==> desc == None && Contents() == []
      ensures old(Contents()) != [] ==> desc == Some(old(Contents())[0]) && Contents() == old(Contents())[1..]
      ensures (Memory(), desc) == PopAlone(old(Memory()))
    {
      var h := head;
      var t := tail;
      EqualIndices(t, h);
      if h == t {
        return None;
      }
      var d := slots[h % slots.Length];
      head := WrappingAdd(h, 1);
      desc := Some(d);
      LiveAfterPop(slots[..], h, t);
    }

    method Len() returns (n: nat)
      requires Valid()
      ensures n == |Contents()| <= slots.Length
    {
      var t := tail;
      var h := head;
      n := WrappingSub(t, h);
    }

    method IsEmpty() returns (empty: bool)
      requires Valid()
      ensures empty <==> Contents() == []
    {
      var n := Len();
      empty := n == 0;
    }
  }

  /** The n live slots from `head` on. */
  ghost function Live(slots: seq<ConnDesc>, head: U32, n: nat): (s: seq<ConnDesc>)
    requires |slots| > 0
    ensures |s| == n
  {
    seq(n, i requires i >= 0 => slots[WrappingAdd(head, i % TWO_TO_THE_32) % |slots|])
  }

  /** Push by itself: its accesses with nothing in between. */
  ghost function PushAlone(r: Ring<ConnDesc>, d: ConnDesc): (Ring<ConnDesc>, bool)
    requires |r.slots| > 0 && r.producer.ProducerIdle?
  {
    var (r1, _) := RingStep(r, PushLoadTail(d));
    var (r2, e2) := RingStep(r1, PushLoadHead);
    if e2.Rejected? then (r2, false)
    else
      var (r3, _) := RingStep(r2, PushWriteSlot);
      (RingStep(r3, PushStoreTail).0, true)
  }

  /** Pop by itself. */
  ghost function PopAlone(r: Ring<ConnDesc>): (Ring<ConnDesc>, Option<ConnDesc>)
    requires |r.slots| > 0 && r.consumer.ConsumerIdle?
  {
    var (r1, _) := RingStep(r, PopLoadHead);
    var (r2, e2) := RingStep(r1, PopLoadTail);
    if e2.FoundEmpty? then (r2, None)
    else
      var (r3, _) := RingStep(r2, PopReadSlot);
      (RingStep(r3, PopStoreHead).0, Some(r3.consumer.v))
  }

  // ---- slot arithmetic ----

  /** The slot of the i-th live entry, with no wrapping in sight. */
  lemma LiveSlot(head: U32, i: nat, cap: nat)
    requires ValidCapacity(cap) && i < TWO_TO_THE_32
    ensures WrappingAdd(head, i % TWO_TO_THE_32) % cap == (head + i) % cap
  {
    DivUnique(i, TWO_TO_THE_32, 0, i);
    SlotOfIndex(head + i, cap);
  }

  lemma EqualIndices(t: U32, h: U32)
    ensures WrappingSub(t, h) == 0 <==> t == h
    ensures WrappingAdd(h, WrappingSub(t, h)) == t
  {
    var n := WrappingSub(t, h);
    assert t - h == ((t - h) / TWO_TO_THE_32) * TWO_TO_THE_32 + n;
    if t >= h {
      DivUnique(t - h, TWO_TO_THE_32, 0, t - h);
      DivUnique(h + n, TWO_TO_THE_32, 0, t);
    } else {
      DivUnique(t - h, TWO_TO_THE_32, -1, t - h + TWO_TO_THE_32);
      DivUnique(h + n, TWO_TO_THE_32, 1, t);
    }
  }

  lemma DistanceSteps(t: U32, h: U32, n: nat)
    requires n == WrappingSub(t, h) && n + 1 < TWO_TO_THE_32
    ensures WrappingSub(WrappingAdd(t, 1), h) == n + 1
    ensures n > 0 ==> WrappingSub(t, WrappingAdd(h, 1)) == n - 1
  {
    var M := TWO_TO_THE_32;
    var a := (t - h) / M;
    assert t - h == a * M + n;
    var x, y := WrappingAdd(t, 1), WrappingAdd(h, 1);
    assert x == t + 1 - ((t + 1) / M) * M;
    assert y == h + 1 - ((h + 1) / M) * M;
    DivUnique(x - h, M, a - (t + 1) / M, n + 1);
    if n > 0 { DivUnique(t - y, M, a + (h + 1) / M, n - 1); }
  }

  lemma LiveAfterWrite(slots: seq<ConnDesc>, h: U32, t: U32, desc: ConnDesc)
    requires ValidCapacity(|slots|) && WrappingSub(t, h) < |slots|
    ensures WrappingSub(WrappingAdd(t, 1), h) == WrappingSub(t, h) + 1
    ensures Live(slots[t % |slots| := desc], h, WrappingSub(t, h) + 1) == Live(slots, h, WrappingSub(t, h)) + [desc]
  {
    var n, cap := WrappingSub(t, h), |slots|;
    EqualIndices(t, h);
    DistanceSteps(t, h, n);
    LiveSlot(h, n, cap);
    DivUnique(n, TWO_TO_THE_32, 0, n);
    forall i | 0 <= i < n ensures WrappingAdd(h, i % TWO_TO_THE_32) % cap != t % cap {
      LiveSlot(h, i, cap);
      SlotsDistinct(h + i, h + n, cap);
    }
  }

  lemma LiveAfterPop(slots: seq<ConnDesc>, h: U32, t: U32)
    requires ValidCapacity(|slots|) && 0 < WrappingSub(t, h) <= |slots|
    ensures WrappingSub(t, WrappingAdd(h, 1)) == WrappingSub(t, h) - 1
    ensures var s := Live(slots, h, WrappingSub(t, h));
            s[0] == slots[h % |slots|] && Live(slots, WrappingAdd(h, 1), WrappingSub(t, h) - 1) == s[1..]
  {
    var n, cap, h' := WrappingSub(t, h), |slots|, WrappingAdd(h, 1);
    DistanceSteps(t, h, n);
    LiveSlot(h, 0, cap);
    forall i | 0 <= i < n - 1
      ensures WrappingAdd(h', i % TWO_TO_THE_32) % cap == WrappingAdd(h, (i + 1) % TWO_TO_THE_32) % cap
    {
      LiveSlot(h', i, cap);
      LiveSlot(h, i + 1, cap);
      SuccessorSlot(h, i, cap);
    }
  }

  lemma SuccessorSlot(h: U32, i: nat, cap: nat)
    requires ValidCapacity(cap)
    ensures (WrappingAdd(h, 1) + i) % cap == (h + (i + 1)) % cap
  {
    var M := TWO_TO_THE_32;
    var k, q := M / cap, (h + 1) / M;
    assert M == k * cap;
    assert WrappingAdd(h, 1) + i == (h + 1 + i) + (-q * k) * cap by {
      assert q * M == q * (k * cap) == (q * k) * cap;
    }
    ModAddMultiple(h + 1 + i, -q * k, cap);
  }
}
