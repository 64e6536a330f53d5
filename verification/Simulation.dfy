/** The simulated load balancer as one concurrent machine: a generator and W workers over shared
    memory (userspace_simulation/src/generator.rs, worker.rs, wst.rs, shm.rs). Each step is one
    access to shared memory or to the clock, together with the local work up to the next one.
    Any interleaving of the processes is allowed; the clock never runs backwards; timers and
    sleeps are decided by the schedule. */
module Simulation {
  import opened Words
  import opened SpscRing
  import opened Scheduler
  import Dispatcher
  import HashStream

  const MAX_EVENTS := 4
  const NS_PER_MS := 1_000_000

  datatype Policy = Hermes | Lifo | ReuseportHash

  datatype ConnDesc = ConnDesc(connId: nat, hash: U64, arrivalNs: int, serviceUs: nat, lifetimeMs: nat)

  datatype RowKind = AcceptRow | BurstRow

  /** One line of the connection log. */
  datatype ConnRow = ConnRow(connId: nat, arrivalNs: int, dequeueNs: int, doneNs: int, serviceUs: nat, kind: RowKind)

  datatype OpenConn = OpenConn(connId: nat, deadline: int)

  /** A run's parameters. `interval` and `duration` pace the generator; `hangWorker` names the
      worker that hangs once, `burst` the service cost of the follow-up burst. */
  datatype Config = Config(W: nat, cap: nat, policy: Policy, threshold: int, seed: U64, interval: nat, duration: nat,
                           lifetimeMs: nat, hangWorker: Option<nat>, burst: Option<nat>)

  ghost predicate ValidConfig(c: Config) {
    0 < c.W <= 64 && ValidCapacity(c.cap) && c.interval > 0 && c.threshold > 0
  }

  // ---- the workers ----

  /** Where a worker stands in its loop; the arguments are its live locals. */
  datatype WorkerPc =
    | StampRead
    | StampStore(t: int)
    | HangCheck
    | ExpiryRead
    | Expire(now: int, i: nat)
    | BurstCheck
    | Branch
    | BurstNext(ids: seq<nat>)
    | BurstServe(ids: seq<nat>, dequeue: int)
    | BurstDone(ids: seq<nat>, dequeue: int, done: int)
    | Poll(batch: seq<ConnDesc>)
    | PollCheck(batch: seq<ConnDesc>)
    | BatchCount(batch: seq<ConnDesc>)
    | AcceptNext(batch: seq<ConnDesc>)
    | AcceptRead(batch: seq<ConnDesc>)
    | AcceptServe(batch: seq<ConnDesc>, dequeue: int)
    | AcceptDone(batch: seq<ConnDesc>, dequeue: int, done: int)
    | PassRead
    | SnapStamp(now: int, got: seq<Snapshot>)
    | SnapPending(now: int, got: seq<Snapshot>, stamp: int)
    | SnapConns(now: int, got: seq<Snapshot>, stamp: int, pending: int)
    | Publish(now: int, got: seq<Snapshot>)
    | ExitFlag
    | ExitLen
    | Exited

  datatype Worker = Worker(pc: WorkerPc, open: seq<OpenConn>, hangPending: bool, burstPending: bool,
                           backlog: seq<nat>, burstTrigger: int, rows: seq<ConnRow>)

  /** What one worker writes: its own locals, its table row, the consumer side of its ring. The
      fifo is the ring's history, kept for the statements below. */
  datatype View = View(me: Worker, slot: Snapshot, ring: Ring<ConnDesc>, fifo: Fifo<ConnDesc>)

  /** One ring access, with the history brought along; a disabled access does nothing. */
  function Touch(ring: Ring<ConnDesc>, fifo: Fifo<ConnDesc>, a: Access<ConnDesc>)
    : (Ring<ConnDesc>, Fifo<ConnDesc>, Event<ConnDesc>)
  {
    if |ring.slots| > 0 && Enabled(ring, a) then
      var (r, e) := RingStep(ring, a);
      (r, After(fifo, e), e)
    else (ring, fifo, Internal)
  }

  function NextPop(p: Consumer<ConnDesc>): Access<ConnDesc> {
    match p
    case HeadLoaded(_) => PopLoadTail
    case DataSeen(_) => PopReadSlot
    case SlotRead(_, _) => PopStoreHead
    case _ => PopLoadHead
  }

  function NextOwnLen(p: Consumer<ConnDesc>): Access<ConnDesc> {
    if p.OwnLenTail? then OwnLenLoadHead else OwnLenLoadTail
  }

  function Ids(open: seq<OpenConn>): (ids: seq<nat>)
    ensures |ids| == |open| && forall i :: 0 <= i < |open| ==> ids[i] == open[i].connId
  {
    if open == [] then [] else [open[0].connId] + Ids(open[1..])
  }

  function BurstService(c: Config): nat {
    if c.burst.Some? then c.burst.value else 0
  }

  /** One step of a worker. `flag` resolves the timer the step consults, if any. */
  function StepWorker(c: Config, v: View, clock: int, shutdown: bool, table: seq<Snapshot>, flag: bool): View {
    var me := v.me;
    match me.pc
    case StampRead => v.(me := me.(pc := StampStore(clock)))
    case StampStore(t) => v.(me := me.(pc := HangCheck), slot := v.slot.(stamp := t))
    case HangCheck =>
      if me.hangPending && flag
      then v.(me := me.(pc := StampRead, hangPending := false))
      else v.(me := me.(pc := ExpiryRead))
    case ExpiryRead => v.(me := me.(pc := Expire(clock, 0)))
    case Expire(now, i) =>
      if i >= |me.open| then v.(me := me.(pc := BurstCheck))
      else if me.open[i].deadline <= now
      then v.(me := me.(open := me.open[..i] + me.open[i + 1..]), slot := v.slot.(conns := v.slot.conns - 1))
      else v.(me := me.(pc := Expire(now, i + 1)))
    case BurstCheck =>
      if me.burstPending && flag
      then v.(me := me.(pc := Branch, burstPending := false, backlog := Ids(me.open), burstTrigger := clock))
      else v.(me := me.(pc := Branch))
    case Branch => StepBranch(v)
    case BurstNext(_) => StepBurst(c, v, clock)
    case BurstServe(_, _) => StepBurst(c, v, clock)
    case BurstDone(_, _, _) => StepBurst(c, v, clock)
    case Poll(_) => StepPoll(v)
    case PollCheck(batch) =>
      if batch != [] || flag || shutdown
      then v.(me := me.(pc := BatchCount(batch)))
      else v.(me := me.(pc := Poll([])))
    case BatchCount(_) => StepAccept(v, clock)
    case AcceptNext(_) => StepAccept(v, clock)
    case AcceptRead(_) => StepAccept(v, clock)
    case AcceptServe(_, _) => StepAccept(v, clock)
    case AcceptDone(_, _, _) => StepAccept(v, clock)
    case PassRead =>
      v.(me := me.(pc := if c.policy.Hermes? then SnapStamp(clock, []) else ExitFlag))
    case SnapStamp(_, _) => v.(me := me.(pc := StepSnap(me.pc, table)))
    case SnapPending(_, _, _) => v.(me := me.(pc := StepSnap(me.pc, table)))
    case SnapConns(_, _, _, _) => v.(me := me.(pc := StepSnap(me.pc, table)))
    case Publish(_, _) => v.(me := me.(pc := ExitFlag))
    case ExitFlag => v.(me := me.(pc := if shutdown then ExitLen else StampRead))
    case ExitLen => StepExit(v)
    case Exited => v
  }

  /** Ready follow-ups are served before the accept queue is polled. */
  function StepBranch(v: View): View {
    var me := v.me;
    if me.backlog != [] then
      var n := if |me.backlog| < MAX_EVENTS then |me.backlog| else MAX_EVENTS;
      v.(me := me.(pc := BurstNext(me.backlog[..n]), backlog := me.backlog[n..]),
         slot := v.slot.(pending := v.slot.pending + n))
    else v.(me := me.(pc := Poll([])))
  }

  function StepBurst(c: Config, v: View, clock: int): View {
    var me := v.me;
    match me.pc
    case BurstNext(ids) =>
      v.(me := me.(pc := if ids == [] then PassRead else BurstServe(ids, clock)))
    case BurstServe(ids, dequeue) => v.(me := me.(pc := BurstDone(ids, dequeue, clock)))
    case BurstDone(ids, dequeue, done) =>
      if ids == [] then v
      else
        var row := ConnRow(ids[0], me.burstTrigger, dequeue, done, BurstService(c), BurstRow);
        v.(me := me.(pc := BurstNext(ids[1..]), rows := me.rows + [row]),
           slot := v.slot.(pending := v.slot.pending - 1))
    case _ => v
  }

  /** The accept queue is drained up to MAX_EVENTS, one ring access at a time. */
  function StepPoll(v: View): View
    requires v.me.pc.Poll?
  {
    var batch := v.me.pc.batch;
    var (ring, fifo, e) := Touch(v.ring, v.fifo, NextPop(v.ring.consumer));
    var pc := match e
              case Popped(d) => if |batch| + 1 < MAX_EVENTS then Poll(batch + [d]) else PollCheck(batch + [d])
              case FoundEmpty => PollCheck(batch)
              case _ => Poll(batch);
    v.(me := v.me.(pc := pc), ring := ring, fifo := fifo)
  }

  function StepAccept(v: View, clock: int): View {
    var me := v.me;
    match me.pc
    case BatchCount(batch) =>
      v.(me := me.(pc := AcceptNext(batch)), slot := v.slot.(pending := v.slot.pending + |batch|))
    case AcceptNext(batch) =>
      if batch == [] then v.(me := me.(pc := PassRead))
      else v.(me := me.(pc := AcceptRead(batch)), slot := v.slot.(conns := v.slot.conns + 1))
    case AcceptRead(batch) => v.(me := me.(pc := AcceptServe(batch, clock)))
    case AcceptServe(batch, dequeue) => v.(me := me.(pc := AcceptDone(batch, dequeue, clock)))
    case AcceptDone(batch, dequeue, done) =>
      if batch == [] then v
      else
        var d := batch[0];
        var row := ConnRow(d.connId, d.arrivalNs, dequeue, done, d.serviceUs, AcceptRow);
        v.(me := me.(pc := AcceptNext(batch[1..]),
                     open := me.open + [OpenConn(d.connId, done + d.lifetimeMs * NS_PER_MS)],
                     rows := me.rows + [row]),
           slot := v.slot.(pending := v.slot.pending - 1))
    case _ => v
  }

  /** The table is read field by field; nothing stops other workers in between. */
  function StepSnap(pc: WorkerPc, table: seq<Snapshot>): WorkerPc {
    match pc
    case SnapStamp(now, got) =>
      if |got| < |table| then SnapPending(now, got, table[|got|].stamp) else Publish(now, got)
    case SnapPending(now, got, stamp) =>
      if |got| < |table| then SnapConns(now, got, stamp, table[|got|].pending) else Publish(now, got)
    case SnapConns(now, got, stamp, pending) =>
      if |got| < |table|
      then SnapStamp(now, got + [Snapshot(stamp, pending, table[|got|].conns)])
      else Publish(now, got)
    case _ => pc
  }

  function StepExit(v: View): View {
    var (ring, fifo, e) := Touch(v.ring, v.fifo, NextOwnLen(v.ring.consumer));
    var pc := match e
              case OwnLenReturned(n) => if n == 0 && v.me.backlog == [] then Exited else StampRead
              case _ => ExitLen;
    v.(me := v.me.(pc := pc), ring := ring, fifo := fifo)
  }

  // ---- the generator ----

  /** What the LIFO dispatcher saw when it chose. */
  datatype Exam = NotExamined | FoundIdle(w: nat, looks: seq<Look>) | Shortest(looks: seq<Look>, lens: seq<nat>)

  /** One look at a worker in the idle scan: the length of its queue, or its pending count. */
  datatype Look = QueueLook(n: nat) | PendingLook(p: int)

  /** A look that shows its worker is not idle. */
  predicate Busy(look: Look) {
    match look
    case QueueLook(n) => n > 0
    case PendingLook(p) => p != 0
  }

  datatype GenPc =
    | Pace
    | Choose
    | LifoIdle(i: nat, looks: seq<Look>)
    | LifoPending(i: nat, looks: seq<Look>)
    | LifoLen(looks: seq<Look>, lens: seq<nat>, best: nat)
    | Arrive(target: nat, exam: Exam)
    | Push(target: nat, desc: ConnDesc, exam: Exam)
    | CountDrop(target: nat, exam: Exam)
    | Count
    | SignalShutdown
    | GenDone

  datatype Gen = Gen(pc: GenPc, generated: nat, dropped: nat, dispatched: seq<nat>, offset: nat)

  /** What became of a generated connection. */
  datatype Fate = Queued(desc: ConnDesc, w: nat) | Dropped(desc: ConnDesc, w: nat)

  datatype State = State(clock: int, table: seq<Snapshot>, msel: U64, shutdown: bool, drops: seq<nat>,
                         rings: seq<Ring<ConnDesc>>, workers: seq<Worker>, gen: Gen,
                         fifos: seq<Fifo<ConnDesc>>, fate: seq<Fate>)

  function NextPush(p: Producer<ConnDesc>, d: ConnDesc): Access<ConnDesc> {
    match p
    case ProducerIdle => PushLoadTail(d)
    case TailLoaded(_, _) => PushLoadHead
    case RoomChecked(_, _) => PushWriteSlot
    case SlotWritten(_, _) => PushStoreTail
    case LenTail(_) => PushLoadHead
  }

  function NextLen(p: Producer<ConnDesc>): Access<ConnDesc> {
    if p.LenTail? then LenLoadHead else LenLoadTail
  }

  function GenHash(c: Config, g: Gen): U64 {
    HashStream.ConnHash(g.generated % TWO_TO_THE_64, c.seed)
  }

  /** The idle scan runs from the last-registered worker down. */
  function AfterIdle(i: nat, looks: seq<Look>): GenPc {
    if i == 0 then LifoLen(looks, [], 0) else LifoIdle(i - 1, looks)
  }

  /** The index of the smaller backlog, ties to the later worker. */
  function Better(lens: seq<nat>, best: nat, n: nat): nat {
    if best >= |lens| || n <= lens[best] then |lens| else best
  }

  /** One step of the generator; `service` is the cost sampled for a new connection. */
  function StepGen(c: Config, s: State, service: nat): State
    requires c.W > 0
  {
    var g := s.gen;
    match g.pc
    case Pace => s.(gen := g.(pc := if g.offset < c.duration then Choose else SignalShutdown))
    case Choose =>
      var pc := match c.policy
                case Hermes => Arrive(PickHermes(c, s), NotExamined)
                case ReuseportHash => Arrive(PickReuseport(c, g), NotExamined)
                case Lifo => LifoIdle(c.W - 1, []);
      s.(gen := g.(pc := pc))
    case LifoIdle(i, _) => StepLen(s, i)
    case LifoPending(i, looks) =>
      var look := PendingLook(if i < |s.table| then s.table[i].pending else 1);
      s.(gen := g.(pc := if look.p == 0 then Arrive(i, FoundIdle(i, looks + [look])) else AfterIdle(i, looks + [look])))
    case LifoLen(_, lens, _) => StepLen(s, |lens|)
    case Arrive(target, exam) =>
      var d := ConnDesc(g.generated, GenHash(c, g), s.clock, service, c.lifetimeMs);
      var dispatched := if target < |g.dispatched| then g.dispatched[target := g.dispatched[target] + 1] else g.dispatched;
      s.(gen := g.(pc := Push(target, d, exam), dispatched := dispatched))
    case Push(target, _, _) => StepPush(s, target)
    case CountDrop(target, _) =>
      var drops := if target < |s.drops| then s.drops[target := s.drops[target] + 1] else s.drops;
      s.(gen := g.(pc := Count, dropped := g.dropped + 1), drops := drops)
    case Count => s.(gen := g.(pc := Pace, generated := g.generated + 1, offset := g.offset + c.interval))
    case SignalShutdown => s.(gen := g.(pc := GenDone), shutdown := true)
    case GenDone => s
  }

  function PickHermes(c: Config, s: State): nat
    requires c.W > 0
  {
    if c.W < TWO_TO_THE_32 then Dispatcher.DispatchHermes(s.msel, GenHash(c, s.gen), c.W) else 0
  }

  function PickReuseport(c: Config, g: Gen): nat {
    if c.W < TWO_TO_THE_32 then Dispatcher.ReuseportHash(GenHash(c, g), c.W) else 0
  }

  /** One ring access of the dispatcher's len() on ring i. */
  function StepLen(s: State, i: nat): State {
    if i < |s.rings| && i < |s.fifos| then
      var (ring, fifo, e) := Touch(s.rings[i], s.fifos[i], NextLen(s.rings[i].producer));
      var pc := match e
                case LenReturned(n) => AfterLen(s.gen.pc, n, |s.rings|)
                case _ => s.gen.pc;
      s.(gen := s.gen.(pc := pc), rings := s.rings[i := ring], fifos := s.fifos[i := fifo])
    else s
  }

  function AfterLen(pc: GenPc, n: nat, W: nat): GenPc {
    match pc
    case LifoIdle(i, looks) => if n == 0 then LifoPending(i, looks) else AfterIdle(i, looks + [QueueLook(n)])
    case LifoLen(looks, lens, best) =>
      var b := Better(lens, best, n);
      if |lens| + 1 < W then LifoLen(looks, lens + [n], b) else Arrive(b, Shortest(looks, lens + [n]))
    case _ => pc
  }

  /** One ring access of the generator's push. */
  function StepPush(s: State, target: nat): State
    requires s.gen.pc.Push?
  {
    if target < |s.rings| && target < |s.fifos| then
      var d := s.gen.pc.desc;
      var (ring, fifo, e) := Touch(s.rings[target], s.fifos[target], NextPush(s.rings[target].producer, d));
      var s' := s.(rings := s.rings[target := ring], fifos := s.fifos[target := fifo]);
      match e
      case Accepted(_) => s'.(gen := s.gen.(pc := Count), fate := s.fate + [Queued(d, target)])
      case Rejected(_) =>
        s'.(gen := s.gen.(pc := CountDrop(target, s.gen.pc.exam)), fate := s.fate + [Dropped(d, target)])
      case _ => s'
    else s
  }

  // ---- the whole machine ----

  datatype Action = Advance(dt: nat) | GenStep(service: nat) | WorkerStep(w: nat, flag: bool)

  function ViewOf(s: State, w: nat): View
    requires w < |s.workers| && w < |s.table| && w < |s.rings| && w < |s.fifos|
  {
    View(s.workers[w], s.table[w], s.rings[w], s.fifos[w])
  }

  predicate InShape(c: Config, s: State) {
    && |s.workers| == |s.table| == |s.rings| == |s.fifos| == |s.drops| == |s.gen.dispatched| == c.W
  }

  /** The bitmap a publishing worker stores, otherwise the old one. */
  function Published(c: Config, pc: WorkerPc, msel: U64): U64 {
    if pc.Publish? then Schedule(pc.got, pc.now, c.threshold).bitmap % TWO_TO_THE_64 else msel
  }

  function Step(c: Config, s: State, a: Action): State
    requires c.W > 0
  {
    match a
    case Advance(dt) => s.(clock := s.clock + dt)
    case GenStep(service) => StepGen(c, s, service)
    case WorkerStep(w, flag) =>
      if w < c.W && InShape(c, s) then
        var v := StepWorker(c, ViewOf(s, w), s.clock, s.shutdown, s.table, flag);
        s.(workers := s.workers[w := v.me], table := s.table[w := v.slot], rings := s.rings[w := v.ring],
           fifos := s.fifos[w := v.fifo], msel := Published(c, s.workers[w].pc, s.msel))
      else s
  }

  const ZERO_DESC := ConnDesc(0, 0, 0, 0, 0)

  function InitialWorker(c: Config, w: nat): Worker {
    Worker(StampRead, [], c.hangWorker == Some(w), c.burst.Some?, [], 0, [])
  }

  /** The zeroed shared mapping, everybody at the top of their program. */
  function Init(c: Config, clock: nat): State {
    State(clock,
          seq(c.W, _ => Snapshot(0, 0, 0)),
          0, false,
          seq(c.W, _ => 0),
          seq(c.W, _ => EmptyRing(seq(c.cap, _ => ZERO_DESC))),
          seq(c.W, w requires w >= 0 => InitialWorker(c, w)),
          Gen(Pace, 0, 0, seq(c.W, _ => 0), 0),
          seq(c.W, _ => EmptyFifo()),
          [])
  }

  /** The state after a finite schedule. */
  function Run(c: Config, s: State, schedule: seq<Action>): State
    requires c.W > 0
    decreases |schedule|
  {
    if schedule == [] then s else Run(c, Step(c, s, schedule[0]), schedule[1..])
  }

  lemma {:induction false} RunConcat(c: Config, s: State, a: seq<Action>, b: seq<Action>)
    requires c.W > 0
    ensures Run(c, s, a + b) == Run(c, Run(c, s, a), b)
    decreases |a|
  {
    hide Step;
    if a == [] {
      assert a + b == b;
    } else {
      RunConcat(c, Step(c, s, a[0]), a[1..], b);
      assert (a + b)[0] == a[0] && (a + b)[1..] == a[1..] + b;
    }
  }

  lemma RunOnce(c: Config, s: State, a: Action)
    requires c.W > 0
    ensures Run(c, s, [a]) == Step(c, s, a)
  {
    hide Step;
    assert [a][1..] == [];
  }

  /** The state after the first k + 1 actions is one step from the state after k. */
  lemma RunNext(c: Config, s: State, schedule: seq<Action>, k: nat)
    requires c.W > 0 && k < |schedule|
    ensures Run(c, s, schedule[..k + 1]) == Step(c, Run(c, s, schedule[..k]), schedule[k])
  {
    hide Step;
    assert schedule[..k + 1] == schedule[..k] + [schedule[k]];
    RunConcat(c, s, schedule[..k], [schedule[k]]);
    RunOnce(c, Run(c, s, schedule[..k]), schedule[k]);
  }
}
