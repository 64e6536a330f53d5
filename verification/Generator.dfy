/** The generator as the sequential program it is (userspace_simulation/src/generator.rs), together
    with the LIFO choice it makes over the queues (dispatcher.rs). What the workers do meanwhile is
    the business of Simulation; here the queues change only by the generator's pushes. */
module Generators {
  import opened Words
  import opened SpscRing
  import opened Simulation
  import opened ConnQueues
  import opened SystemInvariant
  import opened Guarantees
  import Dispatcher
  import HashStream

  /** What each loop turn reads from outside: the bitmap, the workers' pending counts, the clock
      and the sampled cost. */
  datatype Turn = Turn(msel: U64, pending: seq<int>, arrivalNs: int, serviceUs: nat)

  class Generator {
    const queues: seq<ConnQueue>
    const cap: nat
    var generated: nat
    var dropped: nat
    var dispatched: seq<nat>
    var drops: seq<nat>
    var shutdown: bool
    ghost var fate: seq<Fate>

    ghost predicate Valid()
      reads this, queues, set q <- queues :: q.slots
    {
      && 0 < |queues| <= 64 && |drops| == |dispatched| == |queues|
      && (forall i :: 0 <= i < |queues| ==> queues[i].Valid() && queues[i].slots.Length == cap)
      && (forall i, j :: 0 <= i < j < |queues| ==> queues[i] != queues[j] && queues[i].slots != queues[j].slots)
    }

    /** The accounts agree with what became of every connection so far. */
    ghost predicate Accounted()
      reads this, queues, set q <- queues :: q.slots
      requires Valid()
    {
      && |fate| == generated
      && dropped == DropsIn(fate)
      && (forall w :: 0 <= w < |queues| ==> queues[w].Contents() == QueuedFor(fate, w))
      && (forall w :: 0 <= w < |queues| ==> drops[w] == DropsFor(fate, w))
      && (forall w :: 0 <= w < |queues| ==> dispatched[w] == DispatchedTo(fate, w))
    }

    constructor (queues: seq<ConnQueue>, cap: nat)
      requires 0 < |queues| <= 64
      requires forall i :: 0 <= i < |queues| ==>
                 queues[i].Valid() && queues[i].slots.Length == cap && queues[i].Contents() == []
      requires forall i, j :: 0 <= i < j < |queues| ==> queues[i] != queues[j] && queues[i].slots != queues[j].slots
      ensures Valid() && Accounted() && this.queues == queues && this.cap == cap
      ensures generated == dropped == 0 && !shutdown
    {
      this.queues := queues;
      this.cap := cap;
      generated, dropped, shutdown := 0, 0, false;
      dispatched := seq(|queues|, _ => 0);
      drops := seq(|queues|, _ => 0);
      fate := [];
    }

    /** The epoll-exclusive stand-in: the last-registered idle worker, or else the shortest
        backlog, ties to the later worker. */
    method DispatchLifo(pending: seq<int>) returns (target: nat)
      requires Valid() && |pending| == |queues|
      ensures target < |queues| && LifoPick(Lengths(), pending, target)
    {
      hide Live;
      var i := |queues|;
      while i > 0
        invariant i <= |queues|
        invariant forall j: nat :: i <= j < |queues| ==> !Idle(Lengths(), pending, j)
      {
        i := i - 1;
        var empty := queues[i].IsEmpty();
        if empty && pending[i] == 0 {
          return i;
        }
      }
      target := 0;
      var best := queues[0].Len();
      i := 1;
      while i < |queues|
        invariant 1 <= i <= |queues| && target < i && best == |queues[target].Contents()|
        invariant forall j :: 0 <= j < i ==> best <= |queues[j].Contents()| && (j > target ==> best < |queues[j].Contents()|)
      {
        var n := queues[i].Len();
        if n <= best {
          target, best := i, n;
        }
        i := i + 1;
      }
    }

    ghost function Lengths(): (s: seq<nat>)
      reads this, queues, set q <- queues :: q.slots
      requires Valid()
      ensures |s| == |queues| && forall i :: 0 <= i < |queues| ==> s[i] == |queues[i].Contents()|
    {
      seq(|queues|, (i: int) requires 0 <= i < |queues| && Valid() reads this, queues, set q <- queues :: q.slots =>
        |queues[i].Contents()|)
    }

    method Dispatch(policy: Policy, hash: U64, turn: Turn) returns (target: nat)
      requires Valid() && |turn.pending| == |queues|
      ensures target < |queues| && PickedBy(policy, hash, turn, Lengths(), target)
    {
      Dispatcher.DispatchInRange(turn.msel, hash, |queues|);
      match policy
      case Hermes => target := Dispatcher.DispatchHermes(turn.msel, hash, |queues|);
      case ReuseportHash => target := Dispatcher.ReuseportHash(hash, |queues|);
      case Lifo => target := DispatchLifo(turn.pending);
    }

    /** Push one connection at its target, or count it as dropped there. */
    method Offer(target: nat, desc: ConnDesc)
      requires Valid() && Accounted() && target < |queues|
      modifies this`generated, this`dropped, this`dispatched, this`drops, this`fate
      modifies queues[target], queues[target].slots
      ensures Valid() && Accounted()
      ensures generated == old(generated) + 1
      ensures fate == old(fate) + [if |old(queues[target].Contents())| < cap then Queued(desc, target) else Dropped(desc, target)]
    {
      hide QueuedFor, DropsFor, DropsIn, DispatchedTo, Live, PushAlone;
      dispatched := dispatched[target := dispatched[target] + 1];
      var q := queues[target];
      label before:
      var ok := q.Push(desc);
      if !ok {
        drops := drops[target := drops[target] + 1];
        dropped := dropped + 1;
      }
      generated := generated + 1;
      ghost var f := if ok then Queued(desc, target) else Dropped(desc, target);
      forall w | 0 <= w < |queues|
        ensures queues[w].Valid() && queues[w].slots.Length == cap
        ensures queues[w].Contents() == QueuedFor(old(fate) + [f], w)
        ensures drops[w] == DropsFor(old(fate) + [f], w) && dispatched[w] == DispatchedTo(old(fate) + [f], w)
      {
        FateGrows(old(fate), f, w);
        if w != target {
          assert queues[w] != q && queues[w].slots != q.slots;
          assert queues[w].Contents() == old@before(queues[w].Contents());
        }
      }
      FateGrows(old(fate), f, 0);
      fate := fate + [f];
    }

    /** One turn of the loop: hash the next id, choose a worker, push. */
    method GenerateOne(policy: Policy, seed: U64, lifetimeMs: nat, turn: Turn)
      requires Valid() && Accounted() && |turn.pending| == |queues|
      modifies this`generated, this`dropped, this`dispatched, this`drops, this`fate
      modifies queues, set q <- queues :: q.slots
      ensures Valid() && Accounted()
      ensures generated == old(generated) + 1
      ensures |fate| == |old(fate)| + 1 && fate[..|old(fate)|] == old(fate)
      ensures TurnIs(old(fate), fate[|old(fate)|], policy, seed, lifetimeMs, turn, |queues|, cap)
    {
      hide HashStream.ConnHash, IsShortest, PickedBy, QueuedFor, DropsFor, DropsIn, DispatchedTo;
      var hash := HashStream.ConnHash(generated % TWO_TO_THE_64, seed);
      var target := Dispatch(policy, hash, turn);
      assert Lengths() == LengthsAfter(fate, |queues|);
      Offer(target, ConnDesc(generated, hash, turn.arrivalNs, turn.serviceUs, lifetimeMs));
    }

    /** Generate until the paced deadline passes the duration, then signal shutdown. */
    method Run(policy: Policy, seed: U64, interval: nat, duration: nat, lifetimeMs: nat, turns: nat -> Turn)
      requires Valid() && Accounted() && generated == 0 && interval > 0
      requires forall k: nat :: |turns(k).pending| == |queues|
      modifies this`generated, this`dropped, this`dispatched, this`drops, this`fate, this`shutdown
      modifies queues, set q <- queues :: q.slots
      ensures Valid() && Accounted() && shutdown
      ensures generated == |fate| == Dispatcher.CeilDiv(duration, interval)
      ensures FateIs(fate, policy, seed, lifetimeMs, turns, |queues|, cap)
      ensures forall k :: 0 <= k < |fate| ==>
                var d := fate[k].desc;
                && d.connId == k && d.hash == HashStream.ConnHash(k % TWO_TO_THE_64, seed)
                && d.arrivalNs == turns(k).arrivalNs && d.serviceUs == turns(k).serviceUs && d.lifetimeMs == lifetimeMs
    {
      assert |fate| == 0;
      hide FateIs, TurnIs, HashStream.ConnHash, Accounted, Generated, Dispatcher.CeilDiv;
      EmptyFateIs(policy, seed, lifetimeMs, turns, |queues|, cap);
      assert fate == [];
      var offset := 0;
      while offset < duration
        invariant Valid() && Accounted() && offset == generated * interval && |fate| == generated
        invariant generated == 0 || (generated - 1) * interval < duration
        invariant FateIs(fate, policy, seed, lifetimeMs, turns, |queues|, cap)
        decreases duration - offset
      {
        var id := generated;
        ghost var before := fate;
        GenerateOne(policy, seed, lifetimeMs, turns(id));
        FateIsGrows(before, fate, policy, seed, lifetimeMs, turns, |queues|, cap);
        NextDeadline(id, interval);
        offset := offset + interval;
      }
      shutdown := true;
      PacingStops(generated, duration, interval);
      FateFields(fate, policy, seed, lifetimeMs, turns, |queues|, cap);
    }
  }

  /** Connection k of a run. */
  function Generated(k: nat, seed: U64, lifetimeMs: nat, turn: Turn): ConnDesc {
    ConnDesc(k, HashStream.ConnHash(k % TWO_TO_THE_64, seed), turn.arrivalNs, turn.serviceUs, lifetimeMs)
  }

  /** An empty queue and nothing in progress. */
  ghost predicate Idle(lens: seq<nat>, pending: seq<int>, i: nat)
    requires i < |lens| == |pending|
  {
    lens[i] == 0 && pending[i] == 0
  }

  /** The highest idle worker, or with none idle the shortest queue, the highest of equals. */
  ghost predicate LifoPick(lens: seq<nat>, pending: seq<int>, target: nat)
    requires |lens| == |pending|
  {
    && target < |lens|
    && if Idle(lens, pending, target)
       then forall j: nat :: target < j < |lens| ==> !Idle(lens, pending, j)
       else IsShortest(lens, target) && forall j: nat :: j < |lens| ==> !Idle(lens, pending, j)
  }

  /** The policy's choice, given the queue lengths at that moment. */
  ghost predicate PickedBy(policy: Policy, hash: U64, turn: Turn, lens: seq<nat>, target: nat)
    requires 0 < |lens| <= 64 && |turn.pending| == |lens|
  {
    match policy
    case Hermes => target == Dispatcher.DispatchHermes(turn.msel, hash, |lens|)
    case ReuseportHash => target == Dispatcher.ReuseportHash(hash, |lens|)
    case Lifo => LifoPick(lens, turn.pending, target)
  }

  /** The queue lengths once the connections so far have gone where they went. */
  ghost function LengthsAfter(fate: seq<Fate>, W: nat): (lens: seq<nat>)
    ensures |lens| == W
  {
    seq(W, w requires 0 <= w < W => |QueuedFor(fate, w)|)
  }

  /** The turn after `before` made the right connection, sent it where the policy says, and queued
      it exactly if there was room. */
  ghost predicate TurnIs(before: seq<Fate>, f: Fate, policy: Policy, seed: U64, lifetimeMs: nat, turn: Turn, W: nat,
                         cap: nat)
    requires 0 < W <= 64 && |turn.pending| == W
  {
    && f.desc == Generated(|before|, seed, lifetimeMs, turn)
    && f.w < W && PickedBy(policy, f.desc.hash, turn, LengthsAfter(before, W), f.w)
    && (f.Queued? <==> LengthsAfter(before, W)[f.w] < cap)
  }

  /** Every turn of the run was right. */
  ghost predicate FateIs(fate: seq<Fate>, policy: Policy, seed: U64, lifetimeMs: nat, turns: nat -> Turn, W: nat,
                         cap: nat)
    requires 0 < W <= 64 && forall k: nat :: |turns(k).pending| == W
  {
    forall k :: 0 <= k < |fate| ==> TurnIs(fate[..k], fate[k], policy, seed, lifetimeMs, turns(k), W, cap)
  }

  lemma EmptyFateIs(policy: Policy, seed: U64, lifetimeMs: nat, turns: nat -> Turn, W: nat, cap: nat)
    requires 0 < W <= 64 && forall k: nat :: |turns(k).pending| == W
    ensures FateIs([], policy, seed, lifetimeMs, turns, W, cap)
  {
  }

  lemma FateIsGrows(before: seq<Fate>, fate: seq<Fate>, policy: Policy, seed: U64, lifetimeMs: nat, turns: nat -> Turn,
                    W: nat, cap: nat)
    requires 0 < W <= 64 && forall k: nat :: |turns(k).pending| == W
    requires |fate| == |before| + 1 && fate[..|before|] == before
    requires FateIs(before, policy, seed, lifetimeMs, turns, W, cap)
    requires TurnIs(before, fate[|before|], policy, seed, lifetimeMs, turns(|before|), W, cap)
    ensures FateIs(fate, policy, seed, lifetimeMs, turns, W, cap)
  {
    hide TurnIs;
    forall k | 0 <= k < |before|
      ensures TurnIs(fate[..k], fate[k], policy, seed, lifetimeMs, turns(k), W, cap)
    {
      assert fate[k] == before[k] && fate[..k] == before[..k];
    }
  }

  lemma FateFields(fate: seq<Fate>, policy: Policy, seed: U64, lifetimeMs: nat, turns: nat -> Turn, W: nat, cap: nat)
    requires 0 < W <= 64 && forall k: nat :: |turns(k).pending| == W
    requires FateIs(fate, policy, seed, lifetimeMs, turns, W, cap)
    ensures forall k :: 0 <= k < |fate| ==>
              var d := fate[k].desc;
              && d.connId == k && d.hash == HashStream.ConnHash(k % TWO_TO_THE_64, seed)
              && d.arrivalNs == turns(k).arrivalNs && d.serviceUs == turns(k).serviceUs && d.lifetimeMs == lifetimeMs
  {
    hide PickedBy, LengthsAfter, HashStream.ConnHash;
  }

  lemma NextDeadline(id: nat, interval: nat)
    ensures (id + 1) * interval == id * interval + interval
  {
  }
}
