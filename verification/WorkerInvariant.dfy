/** What every step of a simulated worker keeps: its counters, its log and its control state
    (userspace_simulation/src/worker.rs). Stated on the worker's own view; the whole-system
    theorems lift it to every interleaving. */
module WorkerInvariant {
  import opened Words
  import opened SpscRing
  import opened Scheduler
  import opened Simulation

  // ---- the two load counters ----

  /** The unhandled part of the batch this worker has counted. */
  function Counted(pc: WorkerPc): nat {
    match pc
    case BurstNext(ids) => |ids|
    case BurstServe(ids, _) => |ids|
    case BurstDone(ids, _, _) => |ids|
    case AcceptNext(batch) => |batch|
    case AcceptRead(batch) => |batch|
    case AcceptServe(batch, _) => |batch|
    case AcceptDone(batch, _, _) => |batch|
    case _ => 0
  }

  /** One while a connection is counted but not yet recorded as open. */
  function Opening(pc: WorkerPc): nat {
    if pc.AcceptRead? || pc.AcceptServe? || pc.AcceptDone? then 1 else 0
  }

  /** The counters published in the table are exact at every step. */
  ghost predicate CountersExact(me: Worker, slot: Snapshot) {
    slot.pending == Counted(me.pc) && slot.conns == |me.open| + Opening(me.pc)
  }

  // ---- the log ----

  /** The connection a log line or a descriptor is about. */
  datatype Arrival = Arrival(connId: nat, arrivalNs: int, serviceUs: nat)

  function ArrivalOf(d: ConnDesc): Arrival { Arrival(d.connId, d.arrivalNs, d.serviceUs) }

  function Arrivals(ds: seq<ConnDesc>): (r: seq<Arrival>) { seq(|ds|, i requires 0 <= i < |ds| => ArrivalOf(ds[i])) }

  /** The "accept" lines of a log, in order. */
  function AcceptLog(rows: seq<ConnRow>): seq<Arrival> {
    if rows == [] then []
    else
      var last := rows[|rows| - 1];
      AcceptLog(rows[..|rows| - 1])
      + (if last.kind == AcceptRow then [Arrival(last.connId, last.arrivalNs, last.serviceUs)] else [])
  }

  /** Connections popped but not yet logged. */
  function InHand(pc: WorkerPc): seq<ConnDesc> {
    match pc
    case Poll(batch) => batch
    case PollCheck(batch) => batch
    case BatchCount(batch) => batch
    case AcceptNext(batch) => batch
    case AcceptRead(batch) => batch
    case AcceptServe(batch, _) => batch
    case AcceptDone(batch, _, _) => batch
    case _ => []
  }

  /** Everything popped is logged or in hand, once each and in order. */
  ghost predicate LogExact(me: Worker, fifo: Fifo<ConnDesc>) {
    Arrivals(fifo.popped) == AcceptLog(me.rows) + Arrivals(InHand(me.pc))
  }

  // ---- control ----

  ghost predicate ControlOk(c: Config, me: Worker, consumer: Consumer<ConnDesc>) {
    && |InHand(me.pc)| <= MAX_EVENTS
    && (me.pc.Poll? ==> |me.pc.batch| < MAX_EVENTS)
    && (me.pc.Poll? || me.pc.PollCheck? ==> me.backlog == [])
    && (me.pc.Expire? ==> me.pc.i <= |me.open|)
    && (me.pc.BurstServe? || me.pc.BurstDone? ==> me.pc.ids != [])
    && (Opening(me.pc) == 1 ==> InHand(me.pc) != [])
    && (me.pc.BurstNext? || me.pc.BurstServe? || me.pc.BurstDone? || me.backlog != [] || me.burstPending ==> c.burst.Some?)
    && (me.pc.Poll? ==> !consumer.OwnLenTail?)
    && (me.pc.ExitLen? ==> consumer.ConsumerIdle? || consumer.OwnLenTail?)
    && (!me.pc.Poll? && !me.pc.ExitLen? ==> consumer.ConsumerIdle?)
  }

  // ---- time ----

  ghost predicate RowTimely(row: ConnRow, clock: int) {
    row.arrivalNs <= row.dequeueNs <= row.doneNs <= clock
  }

  ghost predicate ArrivedBy(ds: seq<ConnDesc>, t: int) {
    forall d :: d in ds ==> d.arrivalNs <= t
  }

  ghost predicate PcTimely(me: Worker, slot: Snapshot, clock: int) {
    match me.pc
    case StampStore(t) => slot.stamp <= t <= clock
    case BurstServe(_, dequeue) => me.burstTrigger <= dequeue <= clock
    case BurstDone(_, dequeue, done) => me.burstTrigger <= dequeue <= done <= clock
    case AcceptServe(batch, dequeue) => ArrivedBy(batch, dequeue) && dequeue <= clock
    case AcceptDone(batch, dequeue, done) => ArrivedBy(batch, dequeue) && dequeue <= done <= clock
    case _ => true
  }

  /** No log line has a negative latency, and no stamp lies in the future. */
  ghost predicate Timely(me: Worker, slot: Snapshot, fifo: Fifo<ConnDesc>, clock: int) {
    && slot.stamp <= clock && me.burstTrigger <= clock
    && (forall row :: row in me.rows ==> RowTimely(row, clock))
    && ArrivedBy(fifo.accepted, clock) && ArrivedBy(InHand(me.pc), clock)
    && PcTimely(me, slot, clock)
  }

  ghost predicate WorkerOk(c: Config, v: View, clock: int) {
    && CountersExact(v.me, v.slot)
    && LogExact(v.me, v.fifo)
    && ControlOk(c, v.me, v.ring.consumer)
    && Timely(v.me, v.slot, v.fifo, clock)
  }

  // ---- ring accesses ----

  lemma TouchRefines(ring: Ring<ConnDesc>, fifo: Fifo<ConnDesc>, a: Access<ConnDesc>)
    requires Stands(ring, fifo)
    ensures var (ring', fifo', e) := Touch(ring, fifo, a);
            && Stands(ring', fifo') && |ring'.slots| == |ring.slots|
            && Allows(fifo, |ring.slots|, e) && fifo' == After(fifo, e)
  {
    hide RingStep, Stands, Allows;
    if |ring.slots| > 0 && Enabled(ring, a) {
      StepRefines(ring, fifo, a);
    } else {
      InternalAllowed(fifo, |ring.slots|);
    }
  }

  lemma InternalAllowed(fifo: Fifo<ConnDesc>, cap: nat)
    ensures Allows(fifo, cap, Internal)
  {
  }

  /** What a pop access does to the consumer side; the producer side is untouched. */
  lemma PopTouch(ring: Ring<ConnDesc>, fifo: Fifo<ConnDesc>)
    requires Stands(ring, fifo) && !ring.consumer.OwnLenTail?
    ensures var (ring', fifo', e) := Touch(ring, fifo, NextPop(ring.consumer));
            && (e.Internal? || e.FoundEmpty? || e.Popped?)
            && fifo' == After(fifo, e)
            && ring'.producer == ring.producer
            && !ring'.consumer.OwnLenTail?
            && (!e.Internal? ==> ring'.consumer.ConsumerIdle?)
            && (e.FoundEmpty? ==> Length(fifo) == 0)
            && (e.Popped? ==> |fifo.popped| < |fifo.accepted| && e.v == fifo.accepted[|fifo.popped|])
  {
    TouchRefines(ring, fifo, NextPop(ring.consumer));
  }

  lemma OwnLenTouch(ring: Ring<ConnDesc>, fifo: Fifo<ConnDesc>)
    requires Stands(ring, fifo) && (ring.consumer.ConsumerIdle? || ring.consumer.OwnLenTail?)
    ensures var (ring', fifo', e) := Touch(ring, fifo, NextOwnLen(ring.consumer));
            && ring'.producer == ring.producer
            && fifo' == After(fifo, e)
            && (ring.consumer.ConsumerIdle? ==> e == LenSampled && ring'.consumer.OwnLenTail?)
            && (ring.consumer.OwnLenTail? ==> e.OwnLenReturned? && e.n == fifo.sample && ring'.consumer.ConsumerIdle?)
  {
    TouchRefines(ring, fifo, NextOwnLen(ring.consumer));
  }

  // ---- every step keeps the invariant, group by group ----

  lemma LogGrows(rows: seq<ConnRow>, row: ConnRow)
    ensures AcceptLog(rows + [row]) ==
            AcceptLog(rows) + (if row.kind == AcceptRow then [Arrival(row.connId, row.arrivalNs, row.serviceUs)] else [])
  {
    assert (rows + [row])[..|rows|] == rows;
  }

  lemma ArrivalsConcat(a: seq<ConnDesc>, b: seq<ConnDesc>)
    ensures Arrivals(a + b) == Arrivals(a) + Arrivals(b)
  {
  }

  predicate AtLoop(pc: WorkerPc) {
    pc.StampRead? || pc.StampStore? || pc.HangCheck? || pc.ExpiryRead? || pc.BurstCheck? || pc.PollCheck?
    || pc.PassRead? || pc.Publish? || pc.ExitFlag? || pc.Exited?
  }

  predicate InBurst(pc: WorkerPc) { pc.BurstNext? || pc.BurstServe? || pc.BurstDone? }

  predicate InAccept(pc: WorkerPc) {
    pc.BatchCount? || pc.AcceptNext? || pc.AcceptRead? || pc.AcceptServe? || pc.AcceptDone?
  }

  predicate InSnap(pc: WorkerPc) { pc.SnapStamp? || pc.SnapPending? || pc.SnapConns? }

  lemma LoopStepOk(c: Config, v: View, clock: int, shutdown: bool, table: seq<Snapshot>, flag: bool)
    requires WorkerOk(c, v, clock) && AtLoop(v.me.pc)
    ensures WorkerOk(c, StepWorker(c, v, clock, shutdown, table, flag), clock)
  {
    hide StepWorker, CountersExact, LogExact, ControlOk, Timely;
    LoopCountersOk(c, v, clock, shutdown, table, flag);
    LoopLogOk(c, v, clock, shutdown, table, flag);
  }

  lemma LoopCountersOk(c: Config, v: View, clock: int, shutdown: bool, table: seq<Snapshot>, flag: bool)
    requires CountersExact(v.me, v.slot) && ControlOk(c, v.me, v.ring.consumer) && AtLoop(v.me.pc)
    ensures var v' := StepWorker(c, v, clock, shutdown, table, flag);
            CountersExact(v'.me, v'.slot) && ControlOk(c, v'.me, v'.ring.consumer)
  {
    hide StepBranch, StepBurst, StepPoll, StepAccept, StepSnap, StepExit;
  }

  lemma LoopLogOk(c: Config, v: View, clock: int, shutdown: bool, table: seq<Snapshot>, flag: bool)
    requires LogExact(v.me, v.fifo) && Timely(v.me, v.slot, v.fifo, clock) && AtLoop(v.me.pc)
    ensures var v' := StepWorker(c, v, clock, shutdown, table, flag);
            LogExact(v'.me, v'.fifo) && Timely(v'.me, v'.slot, v'.fifo, clock)
  {
    hide StepBranch, StepBurst, StepPoll, StepAccept, StepSnap, StepExit, AcceptLog, Arrivals;
  }

  lemma ExpireStepOk(c: Config, v: View, clock: int, shutdown: bool, table: seq<Snapshot>, flag: bool)
    requires WorkerOk(c, v, clock) && v.me.pc.Expire?
    ensures WorkerOk(c, StepWorker(c, v, clock, shutdown, table, flag), clock)
  {
    hide StepBranch, StepBurst, StepPoll, StepAccept, StepSnap, StepExit, AcceptLog;
  }

  lemma BranchStepOk(c: Config, v: View, clock: int)
    requires WorkerOk(c, v, clock) && v.me.pc.Branch?
    ensures WorkerOk(c, StepBranch(v), clock)
  {
    hide AcceptLog;
  }

  lemma BurstStepOk(c: Config, v: View, clock: int)
    requires WorkerOk(c, v, clock) && InBurst(v.me.pc)
    ensures WorkerOk(c, StepBurst(c, v, clock), clock)
  {
    hide AcceptLog;
    if v.me.pc.BurstDone? {
      var BurstDone(ids, dequeue, done) := v.me.pc;
      LogGrows(v.me.rows, ConnRow(ids[0], v.me.burstTrigger, dequeue, done, BurstService(c), BurstRow));
    }
  }

  lemma AcceptStepOk(c: Config, v: View, clock: int)
    requires WorkerOk(c, v, clock) && InAccept(v.me.pc)
    ensures WorkerOk(c, StepAccept(v, clock), clock)
  {
    hide AcceptLog, Arrivals;
    if v.me.pc.AcceptDone? { AcceptDoneOk(c, v, clock); }
  }

  lemma AcceptDoneOk(c: Config, v: View, clock: int)
    requires WorkerOk(c, v, clock) && v.me.pc.AcceptDone?
    ensures WorkerOk(c, StepAccept(v, clock), clock)
  {
    hide AcceptLog;
    var AcceptDone(batch, dequeue, done) := v.me.pc;
    var d := batch[0];
    LogGrows(v.me.rows, ConnRow(d.connId, d.arrivalNs, dequeue, done, d.serviceUs, AcceptRow));
    assert batch == [d] + batch[1..];
    ArrivalsConcat([d], batch[1..]);
  }

  lemma SnapStepOk(c: Config, v: View, clock: int, table: seq<Snapshot>)
    requires WorkerOk(c, v, clock) && InSnap(v.me.pc)
    ensures WorkerOk(c, v.(me := v.me.(pc := StepSnap(v.me.pc, table))), clock)
  {
    hide AcceptLog;
  }

  lemma PollStepOk(c: Config, v: View, clock: int)
    requires Stands(v.ring, v.fifo) && WorkerOk(c, v, clock) && v.me.pc.Poll?
    ensures WorkerOk(c, StepPoll(v), clock)
  {
    hide Touch, Stands, AcceptLog;
    PopTouch(v.ring, v.fifo);
    var e := Touch(v.ring, v.fifo, NextPop(v.ring.consumer)).2;
    if e.Popped? {
      ArrivalsConcat(v.fifo.popped, [e.v]);
      ArrivalsConcat(v.me.pc.batch, [e.v]);
    }
  }

  lemma ExitStepOk(c: Config, v: View, clock: int)
    requires Stands(v.ring, v.fifo) && WorkerOk(c, v, clock) && v.me.pc.ExitLen?
    ensures WorkerOk(c, StepExit(v), clock)
  {
    hide Touch, Stands, AcceptLog;
    OwnLenTouch(v.ring, v.fifo);
  }

  /** A worker's invariant survives each of its own steps. */
  lemma WorkerStepOk(c: Config, v: View, clock: int, shutdown: bool, table: seq<Snapshot>, flag: bool)
    requires Stands(v.ring, v.fifo) && WorkerOk(c, v, clock)
    ensures var v' := StepWorker(c, v, clock, shutdown, table, flag);
            && WorkerOk(c, v', clock)
            && Stands(v'.ring, v'.fifo) && |v'.ring.slots| == |v.ring.slots|
            && v'.ring.producer == v.ring.producer
            && v'.fifo.accepted == v.fifo.accepted
  {
    hide Touch, Stands, Allows, AcceptLog, WorkerOk, StepBranch, StepBurst, StepAccept, StepSnap;
    RingKept(c, v, clock, shutdown, table, flag);
    var pc := v.me.pc;
    if AtLoop(pc) {
      LoopStepOk(c, v, clock, shutdown, table, flag);
    } else if pc.Expire? {
      ExpireStepOk(c, v, clock, shutdown, table, flag);
    } else if pc.Branch? {
      BranchStepOk(c, v, clock);
    } else if InBurst(pc) {
      BurstStepOk(c, v, clock);
    } else if InAccept(pc) {
      AcceptStepOk(c, v, clock);
    } else if InSnap(pc) {
      SnapStepOk(c, v, clock, table);
    } else if pc.Poll? {
      PollStepOk(c, v, clock);
    } else {
      ExitStepOk(c, v, clock);
    }
  }

  lemma RingKept(c: Config, v: View, clock: int, shutdown: bool, table: seq<Snapshot>, flag: bool)
    requires Stands(v.ring, v.fifo) && WorkerOk(c, v, clock)
    ensures var v' := StepWorker(c, v, clock, shutdown, table, flag);
            && Stands(v'.ring, v'.fifo) && |v'.ring.slots| == |v.ring.slots|
            && v'.ring.producer == v.ring.producer
            && v'.fifo.accepted == v.fifo.accepted
  {
    hide Touch, Stands, Allows, AcceptLog;
    if v.me.pc.Poll? {
      PopTouch(v.ring, v.fifo);
      TouchRefines(v.ring, v.fifo, NextPop(v.ring.consumer));
    }
    if v.me.pc.ExitLen? {
      OwnLenTouch(v.ring, v.fifo);
      TouchRefines(v.ring, v.fifo, NextOwnLen(v.ring.consumer));
    }
  }

  /** A look of the poll ends with a full batch or because the queue is empty at that moment; and the
      wait is over exactly with a connection in hand, the timer run out or shutdown seen. */
  lemma PollMeaning(c: Config, v: View, clock: int, shutdown: bool, table: seq<Snapshot>, flag: bool)
    requires Stands(v.ring, v.fifo) && ControlOk(c, v.me, v.ring.consumer)
    ensures var pc, pc' := v.me.pc, StepWorker(c, v, clock, shutdown, table, flag).me.pc;
            && (pc.Poll? && pc'.PollCheck? ==> |pc'.batch| == MAX_EVENTS || Length(v.fifo) == 0)
            && (pc.PollCheck? ==> if pc.batch != [] || flag || shutdown then pc' == BatchCount(pc.batch) else pc' == Poll([]))
  {
    hide Touch, Stands;
    if v.me.pc.Poll? { PopTouch(v.ring, v.fifo); }
  }

  /** A follow-up batch is the front of the backlog, up to MAX_EVENTS; without a backlog the worker
      polls. */
  lemma BranchMeaning(v: View)
    requires v.me.pc.Branch?
    ensures var me, me' := v.me, StepBranch(v).me;
            if me.backlog == [] then me'.pc == Poll([]) && me'.backlog == []
            else me'.pc.BurstNext? && me'.pc.ids + me'.backlog == me.backlog && 0 < |me'.pc.ids| <= 4
                 && (|me'.pc.ids| < 4 ==> me'.backlog == [])
  {
  }
}
