/** What every step of the whole machine keeps, whichever process takes it: the rings stand for
    their queues, each worker's view is exact, the generator's accounts agree with what became
    of every connection, and nobody leaves before the rings are drained. */
module SystemInvariant {
  import opened Words
  import opened SpscRing
  import opened Scheduler
  import opened Simulation
  import opened WorkerInvariant

  // ---- what became of the connections ----

  function QueuedFor(fate: seq<Fate>, w: nat): seq<ConnDesc> {
    if fate == [] then []
    else
      var last := fate[|fate| - 1];
      QueuedFor(fate[..|fate| - 1], w) + (if last.Queued? && last.w == w then [last.desc] else [])
  }

  /** How many connections were dropped at worker w's full queue. */
  function DropsFor(fate: seq<Fate>, w: nat): nat {
    if fate == [] then 0
    else
      var last := fate[|fate| - 1];
      DropsFor(fate[..|fate| - 1], w) + (if last.Dropped? && last.w == w then 1 else 0)
  }

  function DropsIn(fate: seq<Fate>): nat {
    if fate == [] then 0
    else DropsIn(fate[..|fate| - 1]) + (if fate[|fate| - 1].Dropped? then 1 else 0)
  }

  /** How many connections were handed to worker w, dropped ones included. */
  function DispatchedTo(fate: seq<Fate>, w: nat): nat {
    if fate == [] then 0
    else DispatchedTo(fate[..|fate| - 1], w) + (if fate[|fate| - 1].w == w then 1 else 0)
  }

  lemma FateGrows(fate: seq<Fate>, f: Fate, w: nat)
    ensures QueuedFor(fate + [f], w) == QueuedFor(fate, w) + (if f.Queued? && f.w == w then [f.desc] else [])
    ensures DropsFor(fate + [f], w) == DropsFor(fate, w) + (if f.Dropped? && f.w == w then 1 else 0)
    ensures DropsIn(fate + [f]) == DropsIn(fate) + (if f.Dropped? then 1 else 0)
    ensures DispatchedTo(fate + [f], w) == DispatchedTo(fate, w) + (if f.w == w then 1 else 0)
  {
    assert (fate + [f])[..|fate|] == fate;
  }

  // ---- rings and workers ----

  ghost predicate RingsOk(c: Config, s: State)
    requires InShape(c, s)
  {
    forall w :: 0 <= w < c.W ==> Stands(s.rings[w], s.fifos[w]) && |s.rings[w].slots| == c.cap
  }

  ghost predicate WorkersOk(c: Config, s: State)
    requires InShape(c, s)
  {
    forall w :: 0 <= w < c.W ==> WorkerOk(c, ViewOf(s, w), s.clock)
  }

  // ---- the generator ----

  /** The generator uses one ring at a time, the one its control point names. */
  ghost predicate ProducerOk(pc: GenPc, i: nat, p: Producer<ConnDesc>) {
    match p
    case ProducerIdle => true
    case LenTail(_) => (pc.LifoIdle? && pc.i == i) || (pc.LifoLen? && |pc.lens| == i)
    case TailLoaded(d, _) => pc.Push? && pc.target == i && d == pc.desc
    case RoomChecked(d, _) => pc.Push? && pc.target == i && d == pc.desc
    case SlotWritten(d, _) => pc.Push? && pc.target == i && d == pc.desc
  }

  ghost predicate ProducersOk(c: Config, s: State)
    requires InShape(c, s)
  {
    forall i :: 0 <= i < c.W ==> ProducerOk(s.gen.pc, i, s.rings[i].producer)
  }

  ghost predicate AllBusy(looks: seq<Look>) {
    forall k :: 0 <= k < |looks| ==> Busy(looks[k])
  }

  /** The idle scan looks from the last worker down and stops at the first idle one. */
  ghost predicate ScanOk(c: Config, exam: Exam) {
    match exam
    case NotExamined => true
    case FoundIdle(w, looks) =>
      |looks| > 0 && |looks| + w == c.W && AllBusy(looks[..|looks| - 1]) && looks[|looks| - 1] == PendingLook(0)
    case Shortest(looks, _) => |looks| == c.W && AllBusy(looks)
  }

  ghost predicate TargetInRange(c: Config, pc: GenPc) {
    match pc
    case LifoIdle(i, looks) => c.policy.Lifo? && |looks| + i + 1 == c.W && AllBusy(looks)
    case LifoPending(i, looks) => c.policy.Lifo? && |looks| + i + 1 == c.W && AllBusy(looks)
    case LifoLen(looks, lens, best) =>
      c.policy.Lifo? && |looks| == c.W && AllBusy(looks) && |lens| < c.W && (lens != [] ==> best < |lens|)
    case Arrive(target, exam) => target < c.W && (exam.NotExamined? <==> !c.policy.Lifo?) && ScanOk(c, exam)
    case Push(target, _, exam) => target < c.W && (exam.NotExamined? <==> !c.policy.Lifo?) && ScanOk(c, exam)
    case CountDrop(target, exam) => target < c.W && (exam.NotExamined? <==> !c.policy.Lifo?) && ScanOk(c, exam)
    case _ => true
  }

  /** The hash of connection k. */
  function HashOf(c: Config, k: nat): U64 { HashStream.ConnHash(k % TWO_TO_THE_64, c.seed) }

  /** What connection k's descriptor and, under the reuseport policy, its worker must be. */
  ghost predicate DescribedAs(c: Config, d: ConnDesc, w: nat, k: nat) {
    && d.connId == k && d.hash == HashOf(c, k) && d.lifetimeMs == c.lifetimeMs
    && (c.policy.ReuseportHash? && c.W < TWO_TO_THE_32 ==> w == Dispatcher.ReuseportHash(HashOf(c, k), c.W))
  }

  /** The connection being pushed is the next one, and has already arrived. */
  ghost predicate PushOk(c: Config, s: State) {
    && (s.gen.pc.Push? ==>
          DescribedAs(c, s.gen.pc.desc, s.gen.pc.target, s.gen.generated) && s.gen.pc.desc.arrivalNs <= s.clock)
    && (s.gen.pc.Arrive? && c.policy.ReuseportHash? ==> s.gen.pc.target == PickReuseport(c, s.gen))
  }

  /** The pacing clock: one interval per generated connection, stopping at the first deadline
      not below the duration. */
  ghost predicate PacingOk(c: Config, g: Gen) {
    && g.offset == g.generated * c.interval
    && (g.generated == 0 || (g.generated - 1) * c.interval < c.duration)
    && (g.pc.SignalShutdown? || g.pc.GenDone? ==> g.offset >= c.duration)
    && (g.pc.Pace? || g.pc.SignalShutdown? || g.pc.GenDone? || g.offset < c.duration)
  }

  function DropPending(pc: GenPc, w: nat): nat { if pc.CountDrop? && pc.target == w then 1 else 0 }

  function PushPending(pc: GenPc, w: nat): nat { if pc.Push? && pc.target == w then 1 else 0 }

  ghost predicate AccountsOk(c: Config, s: State)
    requires InShape(c, s)
  {
    && |s.fate| == s.gen.generated + (if s.gen.pc.CountDrop? || s.gen.pc.Count? then 1 else 0)
    && (forall k :: 0 <= k < |s.fate| ==> s.fate[k].w < c.W && DescribedAs(c, s.fate[k].desc, s.fate[k].w, k))
    && (forall w :: 0 <= w < c.W ==> s.fifos[w].accepted == QueuedFor(s.fate, w))
    && (forall w :: 0 <= w < c.W ==> s.drops[w] + DropPending(s.gen.pc, w) == DropsFor(s.fate, w))
    && (forall w :: 0 <= w < c.W ==> s.gen.dispatched[w] == DispatchedTo(s.fate, w) + PushPending(s.gen.pc, w))
    && s.gen.dropped + (if s.gen.pc.CountDrop? then 1 else 0) == DropsIn(s.fate)
  }

  // ---- shutdown ----

  ghost predicate DrainOk(c: Config, s: State)
    requires InShape(c, s)
  {
    && (s.shutdown <==> s.gen.pc.GenDone?)
    && forall w :: 0 <= w < c.W ==> LeavesDrained(s.workers[w], s.rings[w], s.fifos[w], s.shutdown)
  }

  /** A worker tests its ring only after it saw the flag, and is gone only if all was drained. */
  ghost predicate LeavesDrained(me: Worker, ring: Ring<ConnDesc>, fifo: Fifo<ConnDesc>, shutdown: bool) {
    && (me.pc.ExitLen? || me.pc.Exited? ==> shutdown)
    && (me.pc.ExitLen? && ring.consumer.OwnLenTail? ==> fifo.sample == Length(fifo))
    && (me.pc.Exited? ==> Length(fifo) == 0 && me.backlog == [])
  }

  // ---- scheduler passes ----

  /** A pass holds an old clock reading and rows whose stamps were current when read. */
  ghost predicate PassOk(pc: WorkerPc, clock: int, table: seq<Snapshot>) {
    match pc
    case SnapStamp(now, got) => now <= clock && StampsOld(got, table)
    case SnapPending(now, got, stamp) =>
      now <= clock && StampsOld(got, table) && |got| < |table| && 0 <= stamp <= table[|got|].stamp
    case SnapConns(now, got, stamp, pending) =>
      now <= clock && StampsOld(got, table) && |got| < |table| && 0 <= stamp <= table[|got|].stamp && pending >= 0
    case Publish(now, got) => now <= clock && StampsOld(got, table) && |got| == |table|
    case _ => true
  }

  ghost predicate StampsOld(got: seq<Snapshot>, table: seq<Snapshot>) {
    && |got| <= |table|
    && (forall w :: 0 <= w < |got| ==> 0 <= got[w].stamp <= table[w].stamp)
    && (forall w :: 0 <= w < |got| ==> got[w].pending >= 0 && got[w].conns >= 0)
  }

  ghost predicate PassesOk(c: Config, s: State)
    requires InShape(c, s)
  {
    && (forall w :: 0 <= w < c.W ==> s.table[w].stamp >= 0 && PassOk(s.workers[w].pc, s.clock, s.table))
    && s.msel < Pow2(c.W)
  }

  // ---- the LIFO examination ----

  /** Since they were read, the lengths can only have fallen. */
  ghost predicate LensCurrent(c: Config, lens: seq<nat>, fifos: seq<Fifo<ConnDesc>>)
    requires |fifos| == c.W
  {
    |lens| <= c.W && forall j :: 0 <= j < |lens| ==> Length(fifos[j]) <= lens[j] <= c.cap
  }

  /** `best` is the least length, the last of equals. */
  ghost predicate IsShortest(lens: seq<nat>, best: nat) {
    best < |lens| && forall j :: 0 <= j < |lens| ==> lens[best] <= lens[j] && (j > best ==> lens[best] < lens[j])
  }

  ghost predicate ExamCurrent(c: Config, exam: Exam, target: nat, fifos: seq<Fifo<ConnDesc>>)
    requires |fifos| == c.W
  {
    match exam
    case NotExamined => true
    case FoundIdle(w, _) => w == target < c.W && Length(fifos[w]) <= 0
    case Shortest(_, lens) => |lens| == c.W && LensCurrent(c, lens, fifos) && IsShortest(lens, target)
  }

  ghost predicate ExamOk(c: Config, s: State)
    requires InShape(c, s)
  {
    match s.gen.pc
    case LifoPending(i, _) => i < c.W && Length(s.fifos[i]) <= 0
    case LifoLen(_, lens, best) => LensCurrent(c, lens, s.fifos) && (lens != [] ==> IsShortest(lens, best))
    case Arrive(target, exam) => ExamCurrent(c, exam, target, s.fifos)
    case Push(target, _, exam) => ExamCurrent(c, exam, target, s.fifos)
    case CountDrop(_, exam) => !exam.NotExamined? ==> AllFull(c, exam)
    case _ => true
  }

  ghost predicate AllFull(c: Config, exam: Exam) {
    exam.Shortest? && |exam.lens| == c.W && forall j :: 0 <= j < c.W ==> exam.lens[j] == c.cap
  }

  /** The invariant of the machine. */
  ghost predicate Inv(c: Config, s: State) {
    && ValidConfig(c) && InShape(c, s) && s.clock >= 0
    && RingsOk(c, s)
    && WorkersOk(c, s)
    && ProducersOk(c, s) && TargetInRange(c, s.gen.pc) && PushOk(c, s) && PacingOk(c, s.gen)
    && AccountsOk(c, s)
    && DrainOk(c, s)
    && PassesOk(c, s)
    && ExamOk(c, s)
  }

  // ---- the initial state ----

  lemma InitViews(c: Config, clock: nat)
    requires ValidConfig(c)
    ensures var s := Init(c, clock); InShape(c, s) && RingsOk(c, s) && WorkersOk(c, s)
  {
    var s := Init(c, clock);
    forall w | 0 <= w < c.W ensures WorkerOk(c, ViewOf(s, w), s.clock) && Stands(s.rings[w], s.fifos[w]) {
      EmptyStands(s.rings[w].slots);
      assert Arrivals([]) == [];
    }
  }

  lemma InitOk(c: Config, clock: nat)
    requires ValidConfig(c)
    ensures Inv(c, Init(c, clock))
  {
    hide RingsOk, WorkersOk, DescribedAs, PickReuseport;
    InitViews(c, clock);
    assert Pow2(c.W) > 0;
  }

  // ---- the clock ----

  lemma LaterOk(c: Config, v: View, clock: int, clock': int)
    requires WorkerOk(c, v, clock) && clock <= clock'
    ensures WorkerOk(c, v, clock')
  {
  }

  /** The accounts and the rings do not depend on the clock. */
  lemma ClockFree(c: Config, s: State, clock: int)
    requires Inv(c, s)
    ensures var s' := s.(clock := clock);
            && RingsOk(c, s') && AccountsOk(c, s') && DrainOk(c, s') && ExamOk(c, s') && ProducersOk(c, s')
  {
    hide WorkerOk, Stands, DescribedAs, QueuedFor, DropsFor, DropsIn, DispatchedTo, PassOk, PickReuseport, Pow2;
  }

  lemma AdvanceOk(c: Config, s: State, dt: nat)
    requires Inv(c, s)
    ensures Inv(c, Step(c, s, Advance(dt)))
  {
    hide WorkerOk, RingsOk, DescribedAs, AccountsOk, DrainOk, ExamOk, ProducersOk, PickReuseport, Pow2;
    ClockFree(c, s, s.clock + dt);
    forall w | 0 <= w < c.W ensures WorkerOk(c, ViewOf(s, w), s.clock + dt) {
      LaterOk(c, ViewOf(s, w), s.clock, s.clock + dt);
    }
    assert forall w :: 0 <= w < c.W ==> ViewOf(Step(c, s, Advance(dt)), w) == ViewOf(s, w);
  }

  // ---- worker steps ----

  /** What a worker's step leaves alone and what it can only lower. */
  lemma WorkerStepFrame(c: Config, v: View, clock: int, shutdown: bool, table: seq<Snapshot>, flag: bool)
    requires Stands(v.ring, v.fifo) && WorkerOk(c, v, clock)
    ensures var v' := StepWorker(c, v, clock, shutdown, table, flag);
            Length(v'.fifo) <= Length(v.fifo) && v'.slot.stamp >= v.slot.stamp
  {
    hide Touch, Stands, AcceptLog;
    if v.me.pc.Poll? { PopTouch(v.ring, v.fifo); }
    if v.me.pc.ExitLen? { OwnLenTouch(v.ring, v.fifo); }
  }

  lemma WorkerDrain(c: Config, v: View, clock: int, shutdown: bool, table: seq<Snapshot>, flag: bool)
    requires Stands(v.ring, v.fifo) && WorkerOk(c, v, clock)
    requires LeavesDrained(v.me, v.ring, v.fifo, shutdown)
    ensures var v' := StepWorker(c, v, clock, shutdown, table, flag);
            LeavesDrained(v'.me, v'.ring, v'.fifo, shutdown)
  {
    hide StepBranch, StepBurst, StepPoll, StepAccept, StepExit, StepSnap, Stands, LogExact, Timely, CountersExact;
    if v.me.pc.ExitLen? {
      ExitDrained(c, v, shutdown);
    } else if !v.me.pc.Exited? {
      GroupsDoNotLeave(c, v, clock, table);
    }
  }

  lemma GroupsDoNotLeave(c: Config, v: View, clock: int, table: seq<Snapshot>)
    requires !v.me.pc.ExitLen? && !v.me.pc.Exited?
    ensures var pc := StepBranch(v).me.pc; !pc.ExitLen? && !pc.Exited?
    ensures var pc := StepBurst(c, v, clock).me.pc; !pc.ExitLen? && !pc.Exited?
    ensures var pc := StepAccept(v, clock).me.pc; !pc.ExitLen? && !pc.Exited?
    ensures v.me.pc.Poll? ==> var pc := StepPoll(v).me.pc; !pc.ExitLen? && !pc.Exited?
    ensures var pc := StepSnap(v.me.pc, table); !pc.ExitLen? && !pc.Exited?
  {
    hide Touch;
  }

  lemma ExitDrained(c: Config, v: View, shutdown: bool)
    requires Stands(v.ring, v.fifo) && ControlOk(c, v.me, v.ring.consumer) && v.me.pc.ExitLen?
    requires LeavesDrained(v.me, v.ring, v.fifo, shutdown)
    ensures LeavesDrained(StepExit(v).me, StepExit(v).ring, StepExit(v).fifo, shutdown)
  {
    hide Touch, Stands;
    OwnLenTouch(v.ring, v.fifo);
  }

  predicate InPass(pc: WorkerPc) {
    pc.SnapStamp? || pc.SnapPending? || pc.SnapConns? || pc.Publish?
  }

  /** A pass starts only at its clock reading. */
  lemma OnlyPassReadStarts(c: Config, v: View, clock: int, shutdown: bool, table: seq<Snapshot>, flag: bool)
    requires !InPass(v.me.pc) && !v.me.pc.PassRead?
    ensures !InPass(StepWorker(c, v, clock, shutdown, table, flag).me.pc)
  {
    hide StepBranch, StepBurst, StepPoll, StepAccept, StepExit;
    GroupsOutsidePass(c, v, clock);
  }

  lemma GroupsOutsidePass(c: Config, v: View, clock: int)
    requires !InPass(v.me.pc)
    ensures !InPass(StepBranch(v).me.pc) && !InPass(StepBurst(c, v, clock).me.pc)
    ensures !InPass(StepAccept(v, clock).me.pc) && !InPass(StepExit(v).me.pc)
    ensures v.me.pc.Poll? ==> !InPass(StepPoll(v).me.pc)
  {
    hide Touch;
  }

  lemma OwnPassKept(c: Config, v: View, clock: int, shutdown: bool, table: seq<Snapshot>, flag: bool)
    requires PassOk(v.me.pc, clock, table) && TableNonNegative(table)
    ensures PassOk(StepWorker(c, v, clock, shutdown, table, flag).me.pc, clock, table)
  {
    hide StepBranch, StepBurst, StepPoll, StepAccept, StepExit;
    if !InPass(v.me.pc) && !v.me.pc.PassRead? {
      OnlyPassReadStarts(c, v, clock, shutdown, table, flag);
    }
  }

  lemma PassSurvives(pc: WorkerPc, clock: int, table: seq<Snapshot>, table': seq<Snapshot>)
    requires PassOk(pc, clock, table) && |table'| == |table|
    requires forall w :: 0 <= w < |table| ==> table'[w].stamp >= table[w].stamp
    ensures PassOk(pc, clock, table')
  {
  }

  lemma FitsWord(b: nat, W: nat)
    requires b < Pow2(W) && W <= 64
    ensures b % TWO_TO_THE_64 == b
  {
    Pow2Monotone(W, 64);
    Pow2OfWordSizes();
  }

  ghost predicate TableNonNegative(table: seq<Snapshot>) {
    forall w :: 0 <= w < |table| ==> table[w].stamp >= 0 && table[w].pending >= 0 && table[w].conns >= 0
  }

  /** No reader ever sees a negative counter. */
  lemma CountersNonNegative(c: Config, s: State)
    requires InShape(c, s) && WorkersOk(c, s) && PassesOk(c, s)
    ensures TableNonNegative(s.table)
  {
    hide LogExact, ControlOk, Timely, PassOk, Pow2;
    forall w | 0 <= w < |s.table| ensures s.table[w].stamp >= 0 && s.table[w].pending >= 0 && s.table[w].conns >= 0 {
      assert WorkerOk(c, ViewOf(s, w), s.clock);
    }
  }

  /** The published bitmap has no bit at or above the worker count. */
  lemma PublishedLow(c: Config, s: State, w: nat)
    requires ValidConfig(c) && InShape(c, s) && w < c.W && PassesOk(c, s)
    ensures Published(c, s.workers[w].pc, s.msel) < Pow2(c.W)
    ensures s.workers[w].pc.Publish? ==>
              Published(c, s.workers[w].pc, s.msel) == Schedule(s.workers[w].pc.got, s.workers[w].pc.now, c.threshold).bitmap
  {
    var pc := s.workers[w].pc;
    if pc.Publish? {
      hide Schedule, Pow2;
      assert PassOk(pc, s.clock, s.table);
      ScheduleBitmap(pc.got, pc.now, c.threshold);
      FitsWord(Schedule(pc.got, pc.now, c.threshold).bitmap, c.W);
    }
  }

  lemma WorkerStepViews(c: Config, s: State, w: nat, flag: bool)
    requires Inv(c, s) && w < c.W
    ensures var s' := Step(c, s, WorkerStep(w, flag));
            && InShape(c, s') && RingsOk(c, s') && WorkersOk(c, s') && DrainOk(c, s')
    ensures var s' := Step(c, s, WorkerStep(w, flag));
            forall u | 0 <= u < c.W ::
              && s'.rings[u].producer == s.rings[u].producer
              && s'.fifos[u].accepted == s.fifos[u].accepted
              && Length(s'.fifos[u]) <= Length(s.fifos[u]) && s'.table[u].stamp >= s.table[u].stamp
  {
    hide StepWorker, Stands, WorkerOk, PassesOk, LeavesDrained, Published, AccountsOk, ExamOk, ProducersOk;
    var s' := Step(c, s, WorkerStep(w, flag));
    var v := ViewOf(s, w);
    WorkerStepOk(c, v, s.clock, s.shutdown, s.table, flag);
    WorkerStepFrame(c, v, s.clock, s.shutdown, s.table, flag);
    WorkerDrain(c, v, s.clock, s.shutdown, s.table, flag);
    assert ViewOf(s', w) == StepWorker(c, v, s.clock, s.shutdown, s.table, flag);
    assert forall u :: 0 <= u < c.W && u != w ==> ViewOf(s', u) == ViewOf(s, u);
  }

  lemma WorkerStepPasses(c: Config, s: State, w: nat, flag: bool)
    requires Inv(c, s) && w < c.W
    ensures var s' := Step(c, s, WorkerStep(w, flag)); InShape(c, s') && PassesOk(c, s')
  {
    hide StepWorker, PassOk, Published, Pow2, AccountsOk, ExamOk, ProducersOk, RingsOk, WorkersOk;
    var s' := Step(c, s, WorkerStep(w, flag));
    WorkerStepViews(c, s, w, flag);
    CountersNonNegative(c, s);
    PublishedLow(c, s, w);
    forall u | 0 <= u < c.W ensures PassOk(s'.workers[u].pc, s'.clock, s'.table) {
      if u == w { OwnPassKept(c, ViewOf(s, w), s.clock, s.shutdown, s.table, flag); }
      PassSurvives(s'.workers[u].pc, s.clock, s.table, s'.table);
    }
  }

  lemma WorkerStepKeepsInv(c: Config, s: State, w: nat, flag: bool)
    requires Inv(c, s) && w < c.W
    ensures Inv(c, Step(c, s, WorkerStep(w, flag)))
  {
    hide StepWorker, Published, RingsOk, WorkersOk, PassesOk, DrainOk, QueuedFor, DropsFor, DropsIn, DispatchedTo, DescribedAs;
    WorkerStepViews(c, s, w, flag);
    WorkerStepPasses(c, s, w, flag);
  }

  // ---- generator steps ----

  /** A producer-side access: the consumer's side and what it holds are untouched. */
  lemma LenTouch(ring: Ring<ConnDesc>, fifo: Fifo<ConnDesc>)
    requires Stands(ring, fifo) && (ring.producer.ProducerIdle? || ring.producer.LenTail?)
    ensures var (ring', fifo', e) := Touch(ring, fifo, NextLen(ring.producer));
            && ring'.consumer == ring.consumer && fifo' == fifo
            && (ring.producer.ProducerIdle? ==> e.Internal? && ring'.producer.LenTail?)
            && (ring.producer.LenTail? ==> e.LenReturned? && e.n == Length(fifo) <= |ring.slots| && ring'.producer.ProducerIdle?)
  {
    TouchRefines(ring, fifo, NextLen(ring.producer));
  }

  lemma PushTouch(ring: Ring<ConnDesc>, fifo: Fifo<ConnDesc>, d: ConnDesc)
    requires Stands(ring, fifo) && !ring.producer.LenTail?
    requires !ring.producer.ProducerIdle? ==> ring.producer.desc == d
    ensures var (ring', fifo', e) := Touch(ring, fifo, NextPush(ring.producer, d));
            && ring'.consumer == ring.consumer && fifo' == After(fifo, e)
            && (e.Internal? || e == Accepted(d) || e == Rejected(d))
            && (e.Internal? ==> !ring'.producer.ProducerIdle? && !ring'.producer.LenTail? && ring'.producer.desc == d)
            && (!e.Internal? ==> ring'.producer.ProducerIdle?)
            && (e.Rejected? ==> Length(fifo) == |ring.slots|)
  {
    TouchRefines(ring, fifo, NextPush(ring.producer, d));
  }

  /** The worker's view may gain newly accepted connections without losing its invariant. */
  lemma AcceptedOk(c: Config, v: View, v': View, clock: int, d: ConnDesc)
    requires WorkerOk(c, v, clock) && d.arrivalNs <= clock
    requires v'.me == v.me && v'.slot == v.slot && v'.ring.consumer == v.ring.consumer
    requires v'.fifo == v.fifo || v'.fifo == v.fifo.(accepted := v.fifo.accepted + [d])
    ensures WorkerOk(c, v', clock)
  {
  }

  lemma PickInRange(c: Config, s: State)
    requires ValidConfig(c)
    ensures PickHermes(c, s) < c.W && PickReuseport(c, s.gen) < c.W
  {
    hide HashStream.ConnHash;
    Dispatcher.DispatchInRange(s.msel, GenHash(c, s.gen), c.W);
    Dispatcher.DispatchInRange(0, GenHash(c, s.gen), c.W);
  }

  predicate GenLocal(pc: GenPc) { !pc.LifoIdle? && !pc.LifoLen? && !pc.Push? }

  /** A step that touches no ring leaves rings, workers and table as they were. */
  lemma LocalGenStepKeepsInv(c: Config, s: State, service: nat)
    requires Inv(c, s) && GenLocal(s.gen.pc)
    ensures Inv(c, Step(c, s, GenStep(service)))
  {
    hide Stands, WorkerOk, PassOk, GenHash, PickHermes, PickReuseport, HashOf, QueuedFor, DropsFor, DropsIn, DispatchedTo, DescribedAs, Pow2;
    var s' := StepGen(c, s, service);
    assert forall u :: 0 <= u < c.W ==> ViewOf(s', u) == ViewOf(s, u);
    LocalGenAccounts(c, s, service);
    LocalGenPush(c, s, service);
    if s.gen.pc.Choose? { PickInRange(c, s); }
  }

  lemma LocalGenPush(c: Config, s: State, service: nat)
    requires Inv(c, s) && GenLocal(s.gen.pc)
    ensures PushOk(c, StepGen(c, s, service))
  {
    hide RingsOk, WorkersOk, PassesOk, AccountsOk, ExamOk, PickHermes, HashStream.ConnHash, Dispatcher.ReuseportHash;
  }

  lemma LocalGenAccounts(c: Config, s: State, service: nat)
    requires Inv(c, s) && GenLocal(s.gen.pc)
    ensures var s' := StepGen(c, s, service);
            InShape(c, s') && AccountsOk(c, s') && PacingOk(c, s'.gen)
  {
    hide RingsOk, WorkersOk, PassesOk, ExamOk, DrainOk, PacingOk, GenHash, PickHermes, PickReuseport, QueuedFor, DropsFor,
         DropsIn, DispatchedTo, DescribedAs;
    LocalGenPacing(c, s, service);
  }

  lemma LocalGenPacing(c: Config, s: State, service: nat)
    requires Inv(c, s) && GenLocal(s.gen.pc)
    ensures PacingOk(c, StepGen(c, s, service).gen)
  {
    hide RingsOk, WorkersOk, PassesOk, ExamOk, DrainOk, AccountsOk, PushOk, GenHash, PickHermes, PickReuseport;
    NextOffset(s.gen.generated, c.interval);
  }

  lemma NextOffset(n: nat, interval: nat)
    ensures (n + 1) * interval == n * interval + interval
  {
  }

  /** The length scan keeps its running best the shortest, the later of equals. */
  lemma BetterIsShortest(lens: seq<nat>, best: nat, n: nat)
    requires lens != [] ==> IsShortest(lens, best)
    ensures IsShortest(lens + [n], Better(lens, best, n))
  {
  }

  lemma LenStepViews(c: Config, s: State, i: nat)
    requires Inv(c, s) && i < c.W
    requires (s.gen.pc.LifoIdle? && i == s.gen.pc.i) || (s.gen.pc.LifoLen? && i == |s.gen.pc.lens|)
    ensures var s' := StepLen(s, i); InShape(c, s') && WorkersOk(c, s') && RingsOk(c, s')
  {
    hide Stands, WorkerOk, PassesOk, AccountsOk, ExamOk, DrainOk, Touch, Better;
    var s' := StepLen(s, i);
    LenTouch(s.rings[i], s.fifos[i]);
    TouchRefines(s.rings[i], s.fifos[i], NextLen(s.rings[i].producer));
    forall u | 0 <= u < c.W ensures WorkerOk(c, ViewOf(s', u), s.clock) {
      AcceptedOk(c, ViewOf(s, u), ViewOf(s', u), s.clock, ZERO_DESC);
    }
  }

  lemma LenStepKeepsInv(c: Config, s: State, i: nat)
    requires Inv(c, s) && i < c.W
    requires (s.gen.pc.LifoIdle? && i == s.gen.pc.i) || (s.gen.pc.LifoLen? && i == |s.gen.pc.lens|)
    ensures Inv(c, StepLen(s, i))
  {
    hide WorkersOk, RingsOk, ExamOk, TargetInRange, AccountsOk, PacingOk, PushOk, Stands, PassOk, QueuedFor, DropsFor, DropsIn, DispatchedTo, DescribedAs, Touch, Pow2, Better;
    var s' := StepLen(s, i);
    assert Stands(s.rings[i], s.fifos[i]) && |s.rings[i].slots| == c.cap by { RingStands(c, s, i); }
    LenTouch(s.rings[i], s.fifos[i]);
    LenStepViews(c, s, i);
    LenStepExam(c, s, i);
    LenStepAccounts(c, s, i);
  }

  lemma LenStepAccounts(c: Config, s: State, i: nat)
    requires Inv(c, s) && i < c.W
    requires (s.gen.pc.LifoIdle? && i == s.gen.pc.i) || (s.gen.pc.LifoLen? && i == |s.gen.pc.lens|)
    ensures var s' := StepLen(s, i);
            InShape(c, s') && AccountsOk(c, s') && PacingOk(c, s'.gen) && PushOk(c, s')
  {
    hide Stands, WorkersOk, PassesOk, DrainOk, ExamOk, Touch, Better, QueuedFor, DropsFor, DropsIn, DispatchedTo,
         DescribedAs, PickReuseport;
    LenTouch(s.rings[i], s.fifos[i]);
    assert StepLen(s, i).fifos == s.fifos;
  }

  lemma LenStepExam(c: Config, s: State, i: nat)
    requires Inv(c, s) && i < c.W
    requires (s.gen.pc.LifoIdle? && i == s.gen.pc.i) || (s.gen.pc.LifoLen? && i == |s.gen.pc.lens|)
    ensures var s' := StepLen(s, i); InShape(c, s') && ExamOk(c, s') && TargetInRange(c, s'.gen.pc)
  {
    hide Stands, WorkersOk, PassesOk, AccountsOk, DrainOk, Touch, Better;
    LenTouch(s.rings[i], s.fifos[i]);
    if s.gen.pc.LifoLen? {
      var e := Touch(s.rings[i], s.fifos[i], NextLen(s.rings[i].producer)).2;
      if e.LenReturned? { BetterIsShortest(s.gen.pc.lens, s.gen.pc.best, e.n); }
    }
  }

  lemma RingStands(c: Config, s: State, i: nat)
    requires InShape(c, s) && RingsOk(c, s) && i < c.W
    ensures Stands(s.rings[i], s.fifos[i]) && |s.rings[i].slots| == c.cap
  {
  }

  lemma PushStepViews(c: Config, s: State)
    requires Inv(c, s) && s.gen.pc.Push?
    ensures var s' := StepPush(s, s.gen.pc.target); InShape(c, s') && WorkersOk(c, s') && RingsOk(c, s')
  {
    hide Stands, WorkerOk, PassesOk, AccountsOk, ExamOk, DrainOk, Touch;
    var Push(target, d, exam) := s.gen.pc;
    var s' := StepPush(s, target);
    PushTouch(s.rings[target], s.fifos[target], d);
    TouchRefines(s.rings[target], s.fifos[target], NextPush(s.rings[target].producer, d));
    forall u | 0 <= u < c.W ensures WorkerOk(c, ViewOf(s', u), s.clock) {
      AcceptedOk(c, ViewOf(s, u), ViewOf(s', u), s.clock, d);
    }
  }

  lemma PushStepKeepsInv(c: Config, s: State)
    requires Inv(c, s) && s.gen.pc.Push?
    ensures Inv(c, StepPush(s, s.gen.pc.target))
  {
    hide WorkersOk, RingsOk, AccountsOk, Stands, PassOk, DescribedAs, Touch, Pow2;
    var Push(target, d, exam) := s.gen.pc;
    assert Stands(s.rings[target], s.fifos[target]) && |s.rings[target].slots| == c.cap by { RingStands(c, s, target); }
    PushStepViews(c, s);
    PushStepAccounts(c, s);
    PushTouch(s.rings[target], s.fifos[target], d);
  }

  lemma PushStepAccounts(c: Config, s: State)
    requires Inv(c, s) && s.gen.pc.Push?
    ensures var s' := StepPush(s, s.gen.pc.target); InShape(c, s') && AccountsOk(c, s')
  {
    hide WorkersOk, PassesOk, DrainOk, ExamOk, Stands, QueuedFor, DropsFor, DropsIn, DispatchedTo, DescribedAs, Touch, Pow2;
    var Push(target, d, exam) := s.gen.pc;
    PushTouch(s.rings[target], s.fifos[target], d);
    forall u: nat ensures
      QueuedFor(s.fate + [Queued(d, target)], u) == QueuedFor(s.fate, u) + (if u == target then [d] else [])
      && DropsFor(s.fate + [Queued(d, target)], u) == DropsFor(s.fate, u)
      && DropsFor(s.fate + [Dropped(d, target)], u) == DropsFor(s.fate, u) + (if u == target then 1 else 0)
      && QueuedFor(s.fate + [Dropped(d, target)], u) == QueuedFor(s.fate, u)
      && DispatchedTo(s.fate + [Queued(d, target)], u) == DispatchedTo(s.fate, u) + (if u == target then 1 else 0)
      && DispatchedTo(s.fate + [Dropped(d, target)], u) == DispatchedTo(s.fate, u) + (if u == target then 1 else 0)
    {
      FateGrows(s.fate, Queued(d, target), u);
      FateGrows(s.fate, Dropped(d, target), u);
    }
    FateGrows(s.fate, Queued(d, target), target);
    FateGrows(s.fate, Dropped(d, target), target);
  }

  lemma GenStepKeepsInv(c: Config, s: State, service: nat)
    requires Inv(c, s)
    ensures Inv(c, Step(c, s, GenStep(service)))
  {
    hide RingsOk, WorkersOk, ProducersOk, AccountsOk, DrainOk, PassesOk, ExamOk, PushOk, PacingOk;
    if GenLocal(s.gen.pc) {
      LocalGenStepKeepsInv(c, s, service);
    } else if s.gen.pc.Push? {
      PushStepKeepsInv(c, s);
    } else {
      LenStepKeepsInv(c, s, if s.gen.pc.LifoIdle? then s.gen.pc.i else |s.gen.pc.lens|);
    }
  }

  /** Every step of every process keeps the invariant. */
  lemma StepKeepsInv(c: Config, s: State, a: Action)
    requires Inv(c, s)
    ensures Inv(c, Step(c, s, a))
  {
    hide Inv;
    InvShape(c, s);
    match a
    case Advance(dt) => AdvanceOk(c, s, dt);
    case GenStep(service) => GenStepKeepsInv(c, s, service);
    case WorkerStep(w, flag) => if w < c.W { WorkerStepKeepsInv(c, s, w, flag); }
  }

  lemma InvShape(c: Config, s: State)
    requires Inv(c, s)
    ensures 0 < c.W <= 64 && InShape(c, s)
  {
  }

  /** The invariant holds after any schedule. */
  lemma {:induction false} RunKeepsInv(c: Config, s: State, schedule: seq<Action>)
    requires c.W > 0 && Inv(c, s)
    ensures Inv(c, Run(c, s, schedule))
    decreases |schedule|
  {
    hide Inv, Step;
    if schedule != [] {
      StepKeepsInv(c, s, schedule[0]);
      RunKeepsInv(c, Step(c, s, schedule[0]), schedule[1..]);
    }
  }
}
