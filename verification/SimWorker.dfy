/** One worker of the simulation as the object whose loop it is (userspace_simulation/src/worker.rs):
    what one iteration does to its connections, backlog, queue and log. Clock readings, timers and
    the shutdown flag are parameters, and so is what the generator pushes while the worker waits in
    its poll; other interference is the business of Simulation. */
module SimWorkers {
  import opened Words
  import opened SpscRing
  import opened Scheduler
  import opened Simulation
  import opened WorkerInvariant
  import opened ConnQueues

  function Min(a: nat, b: nat): nat { if a < b then a else b }

  /** The connections whose lifetime has not run out, in order. */
  function StillOpen(open: seq<OpenConn>, now: int): (r: seq<OpenConn>)
    ensures |r| <= |open|
  {
    if open == [] then []
    else (if open[0].deadline <= now then [] else [open[0]]) + StillOpen(open[1..], now)
  }

  /** The log lines of follow-ups served with the clock readings tick(0), tick(1), ... */
  function BurstRows(ids: seq<nat>, trigger: int, service: nat, tick: nat -> int): (r: seq<ConnRow>) {
    seq(|ids|, k requires 0 <= k < |ids| => ConnRow(ids[k], trigger, tick(2 * k), tick(2 * k + 1), service, BurstRow))
  }

  function BatchRows(batch: seq<ConnDesc>, tick: nat -> int): (r: seq<ConnRow>) {
    seq(|batch|, k requires 0 <= k < |batch| =>
      ConnRow(batch[k].connId, batch[k].arrivalNs, tick(2 * k), tick(2 * k + 1), batch[k].serviceUs, AcceptRow))
  }

  function BatchOpens(batch: seq<ConnDesc>, tick: nat -> int): (r: seq<OpenConn>)
    ensures |r| == |batch|
  {
    seq(|batch|, k requires 0 <= k < |batch| =>
      OpenConn(batch[k].connId, tick(2 * k + 1) + batch[k].lifetimeMs * NS_PER_MS))
  }

  /** What one pass of the loop reads from outside, in the order of reading: the stamp, whether the
      hang is due, the expiry clock, whether the burst is due and its trigger clock, the wait in the
      poll, the clock readings of the served events, the scheduler's table and clock, and the
      shutdown flag at the end. */
  datatype Lap = Lap(stamp: int, hangDue: bool, now: int, burstDue: bool, burstAt: int, wait: Wait, tick: nat -> int,
                     table: seq<Snapshot>, passNow: int, shutdown: bool)

  /** A wait: after how many empty looks it times out, at which looks it sees the shutdown flag, and
      what the generator tries to push after each empty look. */
  datatype Wait = Wait(patience: nat, stopping: nat -> bool, arrivals: nat -> seq<ConnDesc>)

  /** What an empty queue accepts of the connections offered. */
  function Fit(offered: seq<ConnDesc>, cap: nat): seq<ConnDesc> {
    offered[..Min(|offered|, cap)]
  }

  /** What comes into the queue, seen as `queued` at this look, before the wait ends. */
  function CameIn(queued: seq<ConnDesc>, look: nat, w: Wait, cap: nat): seq<ConnDesc>
    decreases Left(w.patience, look)
  {
    if queued != [] || look >= w.patience || w.stopping(look) then []
    else
      var next := Fit(w.arrivals(look), cap);
      next + CameIn(next, look + 1, w, cap)
  }

  function Left(a: nat, b: nat): nat { if b <= a then a - b else 0 }

  class SimWorker {
    const queue: ConnQueue
    var lastLoopEntry: int
    var pendingEvents: int
    var accumulatedConns: int
    var openConns: seq<OpenConn>
    var hangPending: bool
    var burstPending: bool
    var burstBacklog: seq<nat>
    var burstTriggerNs: int
    var rows: seq<ConnRow>

    constructor (queue: ConnQueue, hang: bool, burst: bool)
      requires queue.Valid()
      ensures this.queue == queue && Balanced() && openConns == [] && burstBacklog == [] && rows == []
      ensures hangPending == hang && burstPending == burst
    {
      this.queue := queue;
      lastLoopEntry, pendingEvents, accumulatedConns, burstTriggerNs := 0, 0, 0, 0;
      openConns, burstBacklog, rows := [], [], [];
      hangPending, burstPending := hang, burst;
    }

    /** The counters at a loop boundary: nothing pending, one count per open connection. */
    ghost predicate Balanced()
      reads this, queue, queue.slots
    {
      queue.Valid() && pendingEvents == 0 && accumulatedConns == |openConns|
    }

    /** Close what has expired, one counter update per closed connection. */
    method ExpireConns(now: int)
      modifies this`openConns, this`accumulatedConns
      ensures openConns == StillOpen(old(openConns), now)
      ensures accumulatedConns - |openConns| == old(accumulatedConns - |openConns|)
    {
      var i := 0;
      while i < |openConns|
        invariant i <= |openConns|
        invariant openConns[..i] + StillOpen(openConns[i..], now) == StillOpen(old(openConns), now)
        invariant accumulatedConns - |openConns| == old(accumulatedConns - |openConns|)
        decreases |openConns| - i
      {
        ghost var rest := openConns[i..];
        if openConns[i].deadline <= now {
          openConns := openConns[..i] + openConns[i + 1..];
          accumulatedConns := accumulatedConns - 1;
          assert openConns[i..] == rest[1..];
        } else {
          i := i + 1;
          assert openConns[i..] == rest[1..];
        }
      }
      assert openConns[..i] == openConns && openConns[i..] == [];
    }

    /** Once its time has come, every open connection becomes one ready follow-up. */
    method FireBurst(due: bool, now: int)
      modifies this`burstPending, this`burstBacklog, this`burstTriggerNs
      ensures if old(burstPending) && due
              then burstBacklog == Ids(openConns) && burstTriggerNs == now && !burstPending
              else burstBacklog == old(burstBacklog) && burstTriggerNs == old(burstTriggerNs)
                   && burstPending == old(burstPending)
    {
      if burstPending && due {
        burstBacklog := Ids(openConns);
        burstTriggerNs := now;
        burstPending := false;
      }
    }

    /** Serve up to MAX_EVENTS follow-ups from the front of the backlog. */
    method ServeBurst(service: nat, tick: nat -> int)
      modifies this`pendingEvents, this`burstBacklog, this`rows
      ensures var n := Min(|old(burstBacklog)|, MAX_EVENTS);
              && burstBacklog == old(burstBacklog)[n..]
              && rows == old(rows) + BurstRows(old(burstBacklog)[..n], burstTriggerNs, service, tick)
      ensures pendingEvents == old(pendingEvents)
    {
      var n := Min(|burstBacklog|, MAX_EVENTS);
      var ids := burstBacklog[..n];
      burstBacklog := burstBacklog[n..];
      pendingEvents := pendingEvents + |ids|;
      ghost var lines := BurstRows(ids, burstTriggerNs, service, tick);
      for k := 0 to |ids|
        invariant pendingEvents == old(pendingEvents) + (|ids| - k)
        invariant rows == old(rows) + lines[..k] && burstBacklog == old(burstBacklog)[n..]
      {
        var dequeue, done := tick(2 * k), tick(2 * k + 1);
        pendingEvents := pendingEvents - 1;
        rows := rows + [ConnRow(ids[k], burstTriggerNs, dequeue, done, service, BurstRow)];
        assert lines[..k + 1] == lines[..k] + [lines[k]];
      }
      assert lines[..|ids|] == lines;
    }

    /** The generator pushes what it can while the queue is empty. */
    method Receive(offered: seq<ConnDesc>)
      requires queue.Valid() && queue.Contents() == []
      modifies queue`tail, queue.slots
      ensures queue.Valid() && queue.Contents() == Fit(offered, queue.slots.Length)
    {
      for i := 0 to |offered|
        invariant queue.Valid() && queue.Contents() == Fit(offered[..i], queue.slots.Length)
      {
        var _ := queue.Push(offered[i]);
      }
      assert offered[..|offered|] == offered;
    }

    /** Wait for work: take up to MAX_EVENTS connections as soon as a look finds any; give up at a
        look that finds none if the timeout has passed or shutdown is seen. */
    method PollAcceptQueue(w: Wait) returns (batch: seq<ConnDesc>)
      requires queue.Valid()
      modifies queue`head, queue`tail, queue.slots
      ensures queue.Valid()
      ensures var all := old(queue.Contents()) + CameIn(old(queue.Contents()), 0, w, queue.slots.Length);
              var n := Min(|all|, MAX_EVENTS);
              batch == all[..n] && queue.Contents() == all[n..]
    {
      ghost var cap := queue.slots.Length;
      ghost var all := queue.Contents() + CameIn(queue.Contents(), 0, w, cap);
      var look := 0;
      while true
        invariant queue.Valid() && look <= w.patience
        invariant all == queue.Contents() + CameIn(queue.Contents(), look, w, cap)
        decreases w.patience - look
      {
        ghost var before := queue.Contents();
        batch := [];
        while |batch| < MAX_EVENTS
          invariant queue.Valid() && |batch| <= MAX_EVENTS && |batch| <= |before|
          invariant batch == before[..|batch|] && queue.Contents() == before[|batch|..]
        {
          var d := queue.Pop();
          if d.None? { break; }
          batch := batch + [d.value];
        }
        if batch != [] || look >= w.patience || w.stopping(look) {
          assert before + [] == before;
          return;
        }
        assert before == [] && [] + CameIn([], look, w, cap) == CameIn([], look, w, cap);
        Receive(w.arrivals(look));
        look := look + 1;
      }
    }

    /** Serve a batch: count it, then open, process and log each connection in turn. */
    method ServeBatch(batch: seq<ConnDesc>, tick: nat -> int)
      modifies this`pendingEvents, this`accumulatedConns, this`openConns, this`rows
      ensures openConns == old(openConns) + BatchOpens(batch, tick)
      ensures rows == old(rows) + BatchRows(batch, tick)
      ensures pendingEvents == old(pendingEvents) && accumulatedConns == old(accumulatedConns) + |batch|
    {
      pendingEvents := pendingEvents + |batch|;
      for k := 0 to |batch|
        invariant pendingEvents == old(pendingEvents) + (|batch| - k)
        invariant accumulatedConns == old(accumulatedConns) + k
        invariant openConns == old(openConns) + BatchOpens(batch, tick)[..k]
        invariant rows == old(rows) + BatchRows(batch, tick)[..k]
      {
        var d := batch[k];
        accumulatedConns := accumulatedConns + 1;
        var dequeue, done := tick(2 * k), tick(2 * k + 1);
        pendingEvents := pendingEvents - 1;
        openConns := openConns + [OpenConn(d.connId, done + d.lifetimeMs * NS_PER_MS)];
        rows := rows + [ConnRow(d.connId, d.arrivalNs, dequeue, done, d.serviceUs, AcceptRow)];
      }
    }

    /** What the log says was accepted, then what is still queued: every connection that ever
        entered the queue, in order. */
    ghost function Arrived(): seq<Arrival>
      requires queue.Valid()
      reads this, queue, queue.slots
    {
      AcceptLog(rows) + Arrivals(queue.Contents())
    }

    /** Follow-ups first; only without any is the accept queue polled. */
    method ServeReady(service: nat, tick: nat -> int, w: Wait)
      requires queue.Valid()
      modifies this`pendingEvents, this`accumulatedConns, this`openConns, this`rows, this`burstBacklog
      modifies queue`head, queue`tail, queue.slots
      ensures queue.Valid() && pendingEvents == old(pendingEvents)
      ensures accumulatedConns - |openConns| == old(accumulatedConns - |openConns|)
      ensures old(burstBacklog) != [] ==>
                var n := Min(|old(burstBacklog)|, MAX_EVENTS);
                && burstBacklog == old(burstBacklog)[n..] && queue.Contents() == old(queue.Contents())
                && openConns == old(openConns)
                && rows == old(rows) + BurstRows(old(burstBacklog)[..n], burstTriggerNs, service, tick)
                && Arrived() == old(Arrived())
      ensures old(burstBacklog) == [] ==>
                var came := CameIn(old(queue.Contents()), 0, w, queue.slots.Length);
                var all := old(queue.Contents()) + came;
                var n := Min(|all|, MAX_EVENTS);
                && burstBacklog == [] && queue.Contents() == all[n..]
                && openConns == old(openConns) + BatchOpens(all[..n], tick)
                && rows == old(rows) + BatchRows(all[..n], tick)
                && Arrived() == old(Arrived()) + Arrivals(came)
    {
      hide BurstRows, BatchRows, BatchOpens, CameIn, AcceptLog, Arrivals, Live;
      ghost var log, queued := rows, queue.Contents();
      if burstBacklog != [] {
        ghost var ids := burstBacklog[..Min(|burstBacklog|, MAX_EVENTS)];
        ServeBurst(service, tick);
        BurstConserves(log, ids, burstTriggerNs, service, tick);
      } else {
        ghost var came := CameIn(queued, 0, w, queue.slots.Length);
        var batch := PollAcceptQueue(w);
        ServeBatch(batch, tick);
        BatchConserves(log, queued + came, |batch|, tick);
        ArrivalsConcat(queued, came);
      }
    }

    /** One pass of the loop. */
    method Iteration(hermes: bool, service: nat, lap: Lap) returns (exit: bool, published: Option<nat>)
      requires Balanced()
      modifies this, queue`head, queue`tail, queue.slots
      ensures Balanced() && lastLoopEntry == lap.stamp
      ensures hangPending == (old(hangPending) && !lap.hangDue)
      ensures old(hangPending) && lap.hangDue ==>
                && !exit && published == None && queue.Contents() == old(queue.Contents())
                && openConns == old(openConns) && burstBacklog == old(burstBacklog) && rows == old(rows)
                && burstPending == old(burstPending) && burstTriggerNs == old(burstTriggerNs)
      ensures !(old(hangPending) && lap.hangDue) ==>
                && (exit <==> lap.shutdown && queue.Contents() == [] && burstBacklog == [])
                && published == (if hermes then Some(Schedule(lap.table, lap.passNow, HANG_THRESHOLD_NS).bitmap) else None)
                && burstPending == (old(burstPending) && !lap.burstDue)
                && burstTriggerNs == if old(burstPending) && lap.burstDue then lap.burstAt else old(burstTriggerNs)
      ensures !(old(hangPending) && lap.hangDue) ==>
                var kept := StillOpen(old(openConns), lap.now);
                var backlog := if old(burstPending) && lap.burstDue then Ids(kept) else old(burstBacklog);
                var n := Min(|backlog|, MAX_EVENTS);
                backlog != [] ==>
                  && burstBacklog == backlog[n..] && queue.Contents() == old(queue.Contents()) && openConns == kept
                  && rows == old(rows) + BurstRows(backlog[..n], burstTriggerNs, service, lap.tick)
                  && Arrived() == old(Arrived())
      ensures !(old(hangPending) && lap.hangDue) ==>
                var kept := StillOpen(old(openConns), lap.now);
                var came := CameIn(old(queue.Contents()), 0, lap.wait, queue.slots.Length);
                var all := old(queue.Contents()) + came;
                var n := Min(|all|, MAX_EVENTS);
                (if old(burstPending) && lap.burstDue then kept == [] else old(burstBacklog) == []) ==>
                  && burstBacklog == [] && queue.Contents() == all[n..]
                  && openConns == kept + BatchOpens(all[..n], lap.tick)
                  && rows == old(rows) + BatchRows(all[..n], lap.tick)
                  && Arrived() == old(Arrived()) + Arrivals(came)
    {
      hide Schedule, StillOpen, BurstRows, BatchRows, BatchOpens, Live, Min, AcceptLog, Arrivals, CameIn;
      exit, published := false, None;
      lastLoopEntry := lap.stamp;
      if hangPending && lap.hangDue {
        hangPending := false;
        return;
      }
      ExpireConns(lap.now);
      FireBurst(lap.burstDue, lap.burstAt);
      ServeReady(service, lap.tick, lap.wait);
      if hermes {
        published := Some(Schedule(lap.table, lap.passNow, HANG_THRESHOLD_NS).bitmap);
      }
      var empty := queue.IsEmpty();
      exit := lap.shutdown && empty && burstBacklog == [];
    }
  }

  // ---- what the values above mean ----

  lemma {:induction false} StillOpenConcat(a: seq<OpenConn>, b: seq<OpenConn>, now: int)
    ensures StillOpen(a + b, now) == StillOpen(a, now) + StillOpen(b, now)
  {
    if a == [] {
      assert a + b == b;
    } else {
      StillOpenConcat(a[1..], b, now);
      assert (a + b)[0] == a[0] && (a + b)[1..] == a[1..] + b;
      var first := if a[0].deadline <= now then [] else [a[0]];
      ConcatAssociates(first, StillOpen(a[1..], now), StillOpen(b, now));
    }
  }

  lemma ConcatAssociates(a: seq<OpenConn>, b: seq<OpenConn>, c: seq<OpenConn>)
    ensures a + (b + c) == (a + b) + c
  {
  }

  /** What an expiry keeps: every connection whose deadline is above the reading, as often as it is
      open, and no other. */
  lemma {:induction false} StillOpenMeaning(open: seq<OpenConn>, now: int, x: OpenConn)
    ensures multiset(StillOpen(open, now))[x] == if x.deadline > now then multiset(open)[x] else 0
  {
    if open != [] {
      StillOpenMeaning(open[1..], now, x);
      assert open == [open[0]] + open[1..];
    }
  }

  ghost predicate Ticking(tick: nat -> int) {
    forall i: nat, j: nat :: i <= j ==> tick(i) <= tick(j)
  }

  /** Line k of a served batch is about its connection k, and its times are the readings before and
      after that service: not after one another out of turn if the clock does not run backwards; the
      connection it opens ends its lifetime in milliseconds after the service. */
  lemma BatchTimes(batch: seq<ConnDesc>, tick: nat -> int, k: nat)
    requires k < |batch|
    ensures var row, conn := BatchRows(batch, tick)[k], BatchOpens(batch, tick)[k];
            && (row.connId, row.arrivalNs, row.serviceUs) == (batch[k].connId, batch[k].arrivalNs, batch[k].serviceUs)
            && row.dequeueNs == tick(2 * k) && row.doneNs == tick(2 * k + 1)
            && conn == OpenConn(row.connId, row.doneNs + batch[k].lifetimeMs * 1_000_000)
            && (Ticking(tick) ==> row.dequeueNs <= row.doneNs
                                  && (k + 1 < |batch| ==> row.doneNs <= BatchRows(batch, tick)[k + 1].dequeueNs))
  {
  }

  lemma BurstTimes(ids: seq<nat>, trigger: int, service: nat, tick: nat -> int, k: nat)
    requires k < |ids|
    ensures var row := BurstRows(ids, trigger, service, tick)[k];
            && (row.connId, row.arrivalNs, row.serviceUs) == (ids[k], trigger, service)
            && row.dequeueNs == tick(2 * k) && row.doneNs == tick(2 * k + 1)
            && (Ticking(tick) ==> row.dequeueNs <= row.doneNs
                                  && (k + 1 < |ids| ==> row.doneNs <= BurstRows(ids, trigger, service, tick)[k + 1].dequeueNs))
  {
  }

  /** What comes in during a wait over an empty queue is the first offer that brings anything, up to
      the capacity, if it is made before the timeout and before shutdown is seen; else nothing. */
  lemma {:induction false} CameInMeaning(look: nat, w: Wait, cap: nat)
    requires cap > 0
    ensures var came := CameIn([], look, w, cap);
            && (came != [] <==> exists k: nat :: Brings(look, k, w))
            && forall k: nat :: Brings(look, k, w) ==>
                 came == w.arrivals(k)[..Min(|w.arrivals(k)|, cap)]
    decreases Left(w.patience, look)
  {
    if look < w.patience && !w.stopping(look) {
      CameInMeaning(look + 1, w, cap);
      var next := Fit(w.arrivals(look), cap);
      assert next + CameIn(next, look + 1, w, cap) == CameIn([], look, w, cap);
      if w.arrivals(look) == [] {
        assert next == [] && [] + CameIn([], look + 1, w, cap) == CameIn([], look + 1, w, cap);
        forall k: nat ensures Brings(look, k, w) <==> Brings(look + 1, k, w) { BringsLater(look, k, w); }
        if CameIn([], look + 1, w, cap) != [] {
          var k: nat :| Brings(look + 1, k, w);
          assert Brings(look, k, w);
        }
      } else {
        assert next != [] && next + [] == next;
        assert Brings(look, look, w);
        assert forall k: nat :: Brings(look, k, w) ==> k == look;
      }
    }
  }

  lemma BringsLater(look: nat, k: nat, w: Wait)
    requires look < w.patience && !w.stopping(look) && w.arrivals(look) == []
    ensures Brings(look, k, w) <==> Brings(look + 1, k, w)
  {
  }

  /** From this look on, the offer after look k is the first that is not empty, and it is made. */
  ghost predicate Brings(look: nat, k: nat, w: Wait) {
    && look <= k < w.patience && w.arrivals(k) != []
    && (forall j: nat :: look <= j < k ==> w.arrivals(j) == [])
    && (forall j: nat :: look <= j <= k ==> !w.stopping(j))
  }

  // ---- the log across iterations ----

  lemma {:induction false} AcceptLogConcat(a: seq<ConnRow>, b: seq<ConnRow>)
    ensures AcceptLog(a + b) == AcceptLog(a) + AcceptLog(b)
  {
    if b == [] {
      assert a + b == a;
    } else {
      AcceptLogConcat(a, b[..|b| - 1]);
      assert (a + b)[..|a + b| - 1] == a + b[..|b| - 1];
    }
  }

  /** Serving a batch logs exactly its connections as accepted, once each and in order; serving
      follow-ups logs no accept. */
  lemma {:induction false} ServedLog(batch: seq<ConnDesc>, tick: nat -> int)
    ensures AcceptLog(BatchRows(batch, tick)) == Arrivals(batch)
    decreases |batch|
  {
    if batch != [] {
      var front := batch[..|batch| - 1];
      ServedLog(front, tick);
      var r := BatchRows(batch, tick);
      assert r[..|r| - 1] == BatchRows(front, tick);
    }
  }

  lemma {:induction false} BurstLogsNoAccept(ids: seq<nat>, trigger: int, service: nat, tick: nat -> int)
    ensures AcceptLog(BurstRows(ids, trigger, service, tick)) == []
    decreases |ids|
  {
    if ids != [] {
      var front := ids[..|ids| - 1];
      BurstLogsNoAccept(front, trigger, service, tick);
      var r := BurstRows(ids, trigger, service, tick);
      assert r[..|r| - 1] == BurstRows(front, trigger, service, tick);
    }
  }

  /** Serving follow-ups leaves the accept log alone. */
  lemma BurstConserves(rows: seq<ConnRow>, ids: seq<nat>, trigger: int, service: nat, tick: nat -> int)
    ensures AcceptLog(rows + BurstRows(ids, trigger, service, tick)) == AcceptLog(rows)
  {
    hide AcceptLog, BurstRows;
    AcceptLogConcat(rows, BurstRows(ids, trigger, service, tick));
    BurstLogsNoAccept(ids, trigger, service, tick);
  }

  /** Serving the n oldest queued connections moves them from the queue to the log. */
  lemma BatchConserves(rows: seq<ConnRow>, queued: seq<ConnDesc>, n: nat, tick: nat -> int)
    requires n <= |queued|
    ensures AcceptLog(rows + BatchRows(queued[..n], tick)) + Arrivals(queued[n..]) == AcceptLog(rows) + Arrivals(queued)
  {
    hide AcceptLog, BatchRows, Arrivals;
    AcceptLogConcat(rows, BatchRows(queued[..n], tick));
    ServedLog(queued[..n], tick);
    assert queued[..n] + queued[n..] == queued;
    ArrivalsConcat(queued[..n], queued[n..]);
  }

  // ---- the object and the machine expire alike ----

  /** The machine's expiry steps of one worker, taken to the end. */
  ghost function Expired(c: Config, v: View, clock: int, table: seq<Snapshot>): View
    requires v.me.pc.Expire? && v.me.pc.i <= |v.me.open|
    decreases |v.me.open| - v.me.pc.i
  {
    if v.me.pc.i == |v.me.open| then v else Expired(c, StepWorker(c, v, clock, false, table, false), clock, table)
  }

  lemma ExpireMove(c: Config, v: View, clock: int, table: seq<Snapshot>)
    requires v.me.pc.Expire? && v.me.pc.i < |v.me.open|
    ensures var v', i, open := StepWorker(c, v, clock, false, table, false), v.me.pc.i, v.me.open;
            if open[i].deadline <= v.me.pc.now
            then && v'.me.pc == v.me.pc && v'.me.open == open[..i] + open[i + 1..]
                 && v'.slot.conns == v.slot.conns - 1
            else v'.me.pc == Expire(v.me.pc.now, i + 1) && v'.me.open == open && v'.slot == v.slot
  {
    hide StepBranch, StepBurst, StepPoll, StepAccept, StepSnap, StepExit;
  }

  /** They leave the connections ExpireConns leaves, however long the list. */
  lemma {:induction false} MachineExpiresAlike(c: Config, v: View, clock: int, table: seq<Snapshot>)
    requires v.me.pc.Expire? && v.me.pc.i <= |v.me.open|
    ensures var v', i := Expired(c, v, clock, table), v.me.pc.i;
            && v'.me.open == v.me.open[..i] + StillOpen(v.me.open[i..], v.me.pc.now)
            && v'.slot.conns - |v'.me.open| == v.slot.conns - |v.me.open|
    decreases |v.me.open| - v.me.pc.i
  {
    hide StepWorker;
    var Expire(now, i) := v.me.pc;
    var open := v.me.open;
    if i == |open| {
      assert open[..i] == open && open[i..] == [];
    } else {
      var v1 := StepWorker(c, v, clock, false, table, false);
      ExpireMove(c, v, clock, table);
      MachineExpiresAlike(c, v1, clock, table);
      assert open[i..][1..] == open[i + 1..];
      if open[i].deadline <= now {
        assert v1.me.open[..i] == open[..i] && v1.me.open[i..] == open[i + 1..];
      } else {
        assert open[..i + 1] == open[..i] + [open[i]];
      }
    }
  }
}
