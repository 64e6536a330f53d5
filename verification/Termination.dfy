/** Every fair run ends: the generator stops after its paced arrivals, and once shutdown is
    signalled each worker drains its backlog and its ring and leaves. */
module Termination {
  import opened Words
  import opened SpscRing
  import opened Scheduler
  import opened Simulation
  import opened WorkerInvariant
  import opened SystemInvariant
  import opened Guarantees
  import Dispatcher

  // ---- how far a worker is from leaving ----

  /** Hang still to come, burst still to come, connections still to serve, whether the current
      lap must still come round, and the distance to the end of the lap; in that order. */
  datatype Measure = Measure(hang: nat, burst: nat, work: nat, lap: nat, rank: nat)

  predicate Smaller(a: Measure, b: Measure) {
    a.hang < b.hang || (a.hang == b.hang && (
    a.burst < b.burst || (a.burst == b.burst && (
    a.work < b.work || (a.work == b.work && (
    a.lap < b.lap || (a.lap == b.lap && a.rank < b.rank)))))))
  }

  function Work(v: View): nat {
    |v.me.backlog| + (if Length(v.fifo) > 0 then Length(v.fifo) else 0)
  }

  /** From the top of the loop to the first event of the lap. */
  predicate BeforeWork(pc: WorkerPc) {
    pc.StampRead? || pc.StampStore? || pc.HangCheck? || pc.ExpiryRead? || pc.Expire? || pc.BurstCheck? || pc.Branch?
    || (pc.Poll? && pc.batch == [])
  }

  /** With work left the lap after it counts as one more; without, the lap up to the poll does. */
  function Lap(v: View): nat {
    if v.me.pc.Exited? then 0
    else if Work(v) > 0 then (if BeforeWork(v.me.pc) then 0 else 1)
    else (if BeforeWork(v.me.pc) then 1 else 0)
  }

  function PopRank(p: Consumer<ConnDesc>): nat {
    match p
    case ConsumerIdle => 4
    case HeadLoaded(_) => 3
    case DataSeen(_) => 2
    case SlotRead(_, _) => 1
    case OwnLenTail(_) => 0
  }

  function PassTop(W: nat): nat { 3 * W + 6 }

  function AcceptTop(W: nat): nat { PassTop(W) + 10 }

  function Left(a: nat, b: nat): nat { if b <= a then a - b else 0 }

  function Rank(W: nat, v: View): nat {
    var open := |v.me.open|;
    match v.me.pc
    case StampRead => open + 20
    case StampStore(_) => open + 19
    case HangCheck => open + 18
    case ExpiryRead => open + 17
    case Expire(_, i) => Left(open, i) + 10
    case BurstCheck => 9
    case Branch => 8
    case Poll(batch) => (if batch == [] then 0 else 5 * |batch| + AcceptTop(W)) + PopRank(v.ring.consumer)
    case PollCheck(batch) => 5 * |batch| + AcceptTop(W)
    case BatchCount(batch) => 5 * |batch| + AcceptTop(W) - 1
    case AcceptNext(batch) => 5 * |batch| + AcceptTop(W) - 2
    case AcceptRead(batch) => 5 * |batch| + AcceptTop(W) - 3
    case AcceptServe(batch, _) => 5 * |batch| + AcceptTop(W) - 4
    case AcceptDone(batch, _, _) => 5 * |batch| + AcceptTop(W) - 5
    case BurstNext(ids) => 3 * |ids| + PassTop(W) + 1
    case BurstServe(ids, _) => 3 * |ids| + PassTop(W)
    case BurstDone(ids, _, _) => 3 * |ids| + PassTop(W) - 1
    case PassRead => PassTop(W)
    case SnapStamp(_, got) => 3 * Left(W, |got|) + 5
    case SnapPending(_, got, _) => 3 * Left(W, |got|) + 4
    case SnapConns(_, got, _, _) => 3 * Left(W, |got|) + 3
    case Publish(_, _) => 4
    case ExitFlag => 3
    case ExitLen => if v.ring.consumer.OwnLenTail? then 1 else 2
    case Exited => 0
  }

  function Distance(W: nat, v: View): Measure {
    Measure(if v.me.hangPending then 1 else 0, if v.me.burstPending then 1 else 0, Work(v), Lap(v), Rank(W, v))
  }

  // ---- each step after shutdown comes closer ----

  lemma LoopCloser(c: Config, v: View, clock: int, table: seq<Snapshot>, flag: bool)
    requires WorkerOk(c, v, clock) && AtLoop(v.me.pc) && !v.me.pc.Exited?
    ensures Smaller(Distance(c.W, StepWorker(c, v, clock, true, table, flag)), Distance(c.W, v))
  {
    hide Smaller, Distance, StepWorker, WorkerOk;
    if BeforeWork(v.me.pc) {
      EarlyLoopCloser(c, v, clock, table, flag);
    } else {
      LateLoopCloser(c, v, clock, table, flag);
    }
  }

  lemma EarlyLoopCloser(c: Config, v: View, clock: int, table: seq<Snapshot>, flag: bool)
    requires WorkerOk(c, v, clock) && AtLoop(v.me.pc) && BeforeWork(v.me.pc)
    ensures Smaller(Distance(c.W, StepWorker(c, v, clock, true, table, flag)), Distance(c.W, v))
  {
    hide StepBranch, StepBurst, StepPoll, StepAccept, StepSnap, StepExit, LogExact, Timely;
  }

  lemma LateLoopCloser(c: Config, v: View, clock: int, table: seq<Snapshot>, flag: bool)
    requires WorkerOk(c, v, clock) && AtLoop(v.me.pc) && !BeforeWork(v.me.pc) && !v.me.pc.Exited?
    ensures Smaller(Distance(c.W, StepWorker(c, v, clock, true, table, flag)), Distance(c.W, v))
  {
    hide StepBranch, StepBurst, StepPoll, StepAccept, StepSnap, StepExit, LogExact, Timely;
  }

  lemma ExpireCloser(c: Config, v: View, clock: int, table: seq<Snapshot>, flag: bool)
    requires WorkerOk(c, v, clock) && v.me.pc.Expire?
    ensures Smaller(Distance(c.W, StepWorker(c, v, clock, true, table, flag)), Distance(c.W, v))
  {
    hide StepBranch, StepBurst, StepPoll, StepAccept, StepSnap, StepExit, LogExact, Timely;
  }

  lemma BranchCloser(c: Config, v: View, clock: int)
    requires WorkerOk(c, v, clock) && v.me.pc.Branch?
    ensures Smaller(Distance(c.W, StepBranch(v)), Distance(c.W, v))
  {
    hide LogExact, Timely;
  }

  lemma BurstCloser(c: Config, v: View, clock: int)
    requires WorkerOk(c, v, clock) && InBurst(v.me.pc)
    ensures Smaller(Distance(c.W, StepBurst(c, v, clock)), Distance(c.W, v))
  {
    hide LogExact, Timely;
  }

  lemma AcceptCloser(c: Config, v: View, clock: int)
    requires WorkerOk(c, v, clock) && InAccept(v.me.pc)
    ensures Smaller(Distance(c.W, StepAccept(v, clock)), Distance(c.W, v))
  {
    hide LogExact, Timely;
  }

  lemma SnapCloser(c: Config, v: View, clock: int, table: seq<Snapshot>)
    requires WorkerOk(c, v, clock) && InSnap(v.me.pc) && PassOk(v.me.pc, clock, table) && |table| == c.W
    ensures Smaller(Distance(c.W, v.(me := v.me.(pc := StepSnap(v.me.pc, table)))), Distance(c.W, v))
  {
    hide LogExact, Timely;
  }

  lemma PollCloser(c: Config, v: View, clock: int)
    requires Stands(v.ring, v.fifo) && WorkerOk(c, v, clock) && v.me.pc.Poll?
    ensures Smaller(Distance(c.W, StepPoll(v)), Distance(c.W, v))
  {
    hide LogExact, Timely, Touch, Stands;
    PopTouch(v.ring, v.fifo);
    PopAdvances(v.ring, v.fifo);
  }

  /** An unfinished pop moves its side one access on. */
  lemma PopAdvances(ring: Ring<ConnDesc>, fifo: Fifo<ConnDesc>)
    requires Stands(ring, fifo) && !ring.consumer.OwnLenTail?
    ensures var (ring', fifo', e) := Touch(ring, fifo, NextPop(ring.consumer));
            e.Internal? ==> PopRank(ring'.consumer) < PopRank(ring.consumer)
  {
  }

  lemma ExitCloser(c: Config, v: View, clock: int)
    requires Stands(v.ring, v.fifo) && WorkerOk(c, v, clock) && v.me.pc.ExitLen?
    requires LeavesDrained(v.me, v.ring, v.fifo, true) && Length(v.fifo) >= 0
    ensures Smaller(Distance(c.W, StepExit(v)), Distance(c.W, v))
  {
    hide LogExact, Timely, Touch, Stands;
    OwnLenTouch(v.ring, v.fifo);
  }

  /** After shutdown, whatever the timers say, each step of a worker brings it closer to leaving. */
  lemma WorkerCloser(c: Config, v: View, clock: int, table: seq<Snapshot>, flag: bool)
    requires Stands(v.ring, v.fifo) && WorkerOk(c, v, clock) && LeavesDrained(v.me, v.ring, v.fifo, true)
    requires PassOk(v.me.pc, clock, table) && |table| == c.W && !v.me.pc.Exited?
    ensures Smaller(Distance(c.W, StepWorker(c, v, clock, true, table, flag)), Distance(c.W, v))
  {
    hide WorkerOk, LeavesDrained, PassOk, Smaller, Distance, StepBranch, StepBurst, StepPoll, StepAccept, StepSnap, StepExit;
    var pc := v.me.pc;
    if AtLoop(pc) {
      LoopCloser(c, v, clock, table, flag);
    } else if pc.Expire? {
      ExpireCloser(c, v, clock, table, flag);
    } else if pc.Branch? {
      BranchCloser(c, v, clock);
    } else if InBurst(pc) {
      BurstCloser(c, v, clock);
    } else if InAccept(pc) {
      AcceptCloser(c, v, clock);
    } else if InSnap(pc) {
      SnapCloser(c, v, clock, table);
    } else if pc.Poll? {
      PollCloser(c, v, clock);
    } else {
      ExitCloser(c, v, clock);
    }
  }

  // ---- how far the generator is from done ----

  function LenRank(p: Producer<ConnDesc>): nat { if p.LenTail? then 1 else 2 }

  function PushRank(p: Producer<ConnDesc>): nat {
    match p
    case ProducerIdle => 14
    case TailLoaded(_, _) => 13
    case RoomChecked(_, _) => 12
    case SlotWritten(_, _) => 11
    case LenTail(_) => 11
  }

  function ScanTop(W: nat): nat { 25 + 2 * W }

  function GenRank(W: nat, pc: GenPc, rings: seq<Ring<ConnDesc>>): nat {
    match pc
    case Pace => ScanTop(W) + 3 * W + 6
    case Choose => ScanTop(W) + 3 * W + 5
    case LifoIdle(i, _) => ScanTop(W) + 3 * i + (if i < |rings| then LenRank(rings[i].producer) else 2)
    case LifoPending(i, _) => ScanTop(W) + 3 * i
    case LifoLen(_, lens, _) =>
      20 + 2 * Left(W, |lens|) + (if |lens| < |rings| then LenRank(rings[|lens|].producer) - 1 else 0)
    case Arrive(_, _) => 15
    case Push(target, _, _) => if target < |rings| then PushRank(rings[target].producer) else 11
    case CountDrop(_, _) => 10
    case Count => 9
    case SignalShutdown => 1
    case GenDone => 0
  }

  /** Time left to generate, then the distance to the end of the current connection. */
  function GenLeft(c: Config, s: State): nat { Left(c.duration, s.gen.offset) }

  function GenDistance(c: Config, s: State): nat { GenRank(c.W, s.gen.pc, s.rings) }

  predicate GenSmaller(a: nat, x: nat, b: nat, y: nat) { a < b || (a == b && x < y) }

  lemma LocalGenCloser(c: Config, s: State, service: nat)
    requires Inv(c, s) && GenLocal(s.gen.pc) && !s.gen.pc.GenDone?
    ensures var s' := StepGen(c, s, service);
            GenSmaller(GenLeft(c, s'), GenDistance(c, s'), GenLeft(c, s), GenDistance(c, s))
  {
    hide RingsOk, WorkersOk, AccountsOk, PassesOk, DrainOk, GenHash, PickHermes, PickReuseport;
  }

  lemma PushGenCloser(c: Config, s: State)
    requires Inv(c, s) && s.gen.pc.Push?
    ensures var s' := StepPush(s, s.gen.pc.target);
            GenSmaller(GenLeft(c, s'), GenDistance(c, s'), GenLeft(c, s), GenDistance(c, s))
  {
    hide Stands, WorkersOk, AccountsOk, PassesOk, DrainOk, Touch;
    var Push(target, d, exam) := s.gen.pc;
    PushTouch(s.rings[target], s.fifos[target], d);
    PushAdvances(s.rings[target], s.fifos[target], d);
  }

  lemma LenGenCloser(c: Config, s: State, i: nat)
    requires Inv(c, s) && i < c.W
    requires (s.gen.pc.LifoIdle? && i == s.gen.pc.i) || (s.gen.pc.LifoLen? && i == |s.gen.pc.lens|)
    ensures var s' := StepLen(s, i);
            GenSmaller(GenLeft(c, s'), GenDistance(c, s'), GenLeft(c, s), GenDistance(c, s))
  {
    hide Stands, WorkersOk, AccountsOk, PassesOk, DrainOk, Touch, Better;
    LenTouch(s.rings[i], s.fifos[i]);
  }

  lemma PushAdvances(ring: Ring<ConnDesc>, fifo: Fifo<ConnDesc>, d: ConnDesc)
    requires Stands(ring, fifo) && !ring.producer.LenTail?
    ensures var (ring', fifo', e) := Touch(ring, fifo, NextPush(ring.producer, d));
            e.Internal? ==> PushRank(ring'.producer) < PushRank(ring.producer)
  {
  }

  // ---- infinite schedules ----

  /** The state after the first n actions of an infinite schedule. */
  function At(c: Config, s: State, schedule: nat -> Action, n: nat): State
    requires c.W > 0
  {
    if n == 0 then s else Step(c, At(c, s, schedule, n - 1), schedule(n - 1))
  }

  predicate WorkerActs(a: Action, w: nat) { a.WorkerStep? && a.w == w }

  ghost predicate GenActsFrom(schedule: nat -> Action, n: nat) {
    exists m: nat :: m >= n && schedule(m).GenStep?
  }

  ghost predicate WorkerActsFrom(schedule: nat -> Action, n: nat, w: nat) {
    exists m: nat :: m >= n && WorkerActs(schedule(m), w)
  }

  /** The generator and every worker are scheduled again and again. */
  ghost predicate Fair(W: nat, schedule: nat -> Action) {
    && (forall n: nat :: GenActsFrom(schedule, n))
    && (forall n: nat, w: nat :: w < W ==> WorkerActsFrom(schedule, n, w))
  }

  lemma {:induction false} AtKeepsInv(c: Config, s: State, schedule: nat -> Action, n: nat)
    requires c.W > 0 && Inv(c, s)
    ensures Inv(c, At(c, s, schedule, n))
  {
    hide Inv, Step;
    if n > 0 {
      AtKeepsInv(c, s, schedule, n - 1);
      StepKeepsInv(c, At(c, s, schedule, n - 1), schedule(n - 1));
    }
  }

  // ---- what the others' steps leave alone ----

  lemma OthersKeepGenDistance(c: Config, s: State, a: Action)
    requires Inv(c, s) && !a.GenStep?
    ensures var s' := Step(c, s, a);
            s'.gen == s.gen && s'.shutdown == s.shutdown && GenDistance(c, s') == GenDistance(c, s)
  {
    hide StepWorker, Published, Stands, WorkerOk;
    if a.WorkerStep? && a.w < c.W {
      WorkerStepOk(c, ViewOf(s, a.w), s.clock, s.shutdown, s.table, a.flag);
    }
  }

  lemma DoneGeneratorRests(c: Config, s: State, service: nat)
    requires c.W > 0 && s.gen.pc.GenDone?
    ensures Step(c, s, GenStep(service)) == s
  {
  }

  /** After shutdown nobody else moves worker w. */
  lemma OthersKeepView(c: Config, s: State, a: Action, w: nat)
    requires Inv(c, s) && s.shutdown && w < c.W && !WorkerActs(a, w)
    ensures InShape(c, Step(c, s, a)) && ViewOf(Step(c, s, a), w).me == s.workers[w]
    ensures Distance(c.W, ViewOf(Step(c, s, a), w)) == Distance(c.W, ViewOf(s, w))
    ensures Step(c, s, a).shutdown
  {
    hide StepWorker, Published, Distance;
    StepKeepsInv(c, s, a);
    match a
    case Advance(_) =>
      assert ViewOf(Step(c, s, a), w) == ViewOf(s, w);
    case GenStep(service) => DoneGeneratorRests(c, s, service);
    case WorkerStep(v, flag) =>
      assert ViewOf(Step(c, s, a), w) == ViewOf(s, w);
  }

  lemma OwnStepCloser(c: Config, s: State, a: Action, w: nat)
    requires Inv(c, s) && s.shutdown && w < c.W && WorkerActs(a, w) && !s.workers[w].pc.Exited?
    ensures InShape(c, Step(c, s, a)) && Step(c, s, a).shutdown
    ensures Smaller(Distance(c.W, ViewOf(Step(c, s, a), w)), Distance(c.W, ViewOf(s, w)))
  {
    hide StepWorker, Published, Distance, Smaller, WorkerOk, Stands, LeavesDrained, PassOk;
    var v := StepWorker(c, ViewOf(s, w), s.clock, s.shutdown, s.table, a.flag);
    assert LeavesDrained(s.workers[w], s.rings[w], s.fifos[w], s.shutdown);
    assert PassOk(s.workers[w].pc, s.clock, s.table);
    WorkerCloser(c, ViewOf(s, w), s.clock, s.table, a.flag);
    StepKeepsInv(c, s, a);
    assert ViewOf(Step(c, s, a), w) == v;
  }

  // ---- waiting for one's turn ----

  lemma {:induction false} GenWaits(c: Config, s: State, schedule: nat -> Action, n: nat, m: nat)
    requires c.W > 0 && Inv(c, s) && n <= m && forall k :: n <= k < m ==> !schedule(k).GenStep?
    ensures At(c, s, schedule, m).gen == At(c, s, schedule, n).gen
    ensures GenDistance(c, At(c, s, schedule, m)) == GenDistance(c, At(c, s, schedule, n))
    decreases m - n
  {
    hide Inv, Step, GenDistance;
    if n < m {
      GenWaits(c, s, schedule, n, m - 1);
      AtKeepsInv(c, s, schedule, m - 1);
      OthersKeepGenDistance(c, At(c, s, schedule, m - 1), schedule(m - 1));
    }
  }

  lemma {:induction false} WorkerWaits(c: Config, s: State, schedule: nat -> Action, n: nat, m: nat, w: nat)
    requires c.W > 0 && Inv(c, s) && n <= m && w < c.W && At(c, s, schedule, n).shutdown
    requires forall k :: n <= k < m ==> !WorkerActs(schedule(k), w)
    ensures var s0, s1 := At(c, s, schedule, n), At(c, s, schedule, m);
            && InShape(c, s0) && InShape(c, s1) && s1.shutdown
            && s1.workers[w] == s0.workers[w]
            && Distance(c.W, ViewOf(s1, w)) == Distance(c.W, ViewOf(s0, w))
    decreases m - n
  {
    hide Inv, Step, Distance;
    AtKeepsInv(c, s, schedule, n);
    InvShape(c, At(c, s, schedule, n));
    if n < m {
      WorkerWaits(c, s, schedule, n, m - 1, w);
      AtKeepsInv(c, s, schedule, m - 1);
      OthersKeepView(c, At(c, s, schedule, m - 1), schedule(m - 1), w);
    }
  }

  /** The first position at or after n that satisfies a test met at `last`. */
  lemma {:induction false} FirstGenTurn(schedule: nat -> Action, n: nat, last: nat) returns (m: nat)
    requires n <= last && schedule(last).GenStep?
    ensures n <= m <= last && schedule(m).GenStep? && forall k :: n <= k < m ==> !schedule(k).GenStep?
    decreases last - n
  {
    if schedule(n).GenStep? {
      m := n;
    } else {
      m := FirstGenTurn(schedule, n + 1, last);
    }
  }

  lemma {:induction false} FirstWorkerTurn(schedule: nat -> Action, n: nat, last: nat, w: nat) returns (m: nat)
    requires n <= last && WorkerActs(schedule(last), w)
    ensures n <= m <= last && WorkerActs(schedule(m), w) && forall k :: n <= k < m ==> !WorkerActs(schedule(k), w)
    decreases last - n
  {
    if WorkerActs(schedule(n), w) {
      m := n;
    } else {
      m := FirstWorkerTurn(schedule, n + 1, last, w);
    }
  }

  // ---- everybody finishes ----

  lemma {:induction false} GeneratorFinishes(c: Config, s: State, schedule: nat -> Action, n: nat) returns (m: nat)
    requires c.W > 0 && Inv(c, s) && Fair(c.W, schedule)
    ensures m >= n && At(c, s, schedule, m).gen.pc.GenDone?
    decreases GenLeft(c, At(c, s, schedule, n)), GenDistance(c, At(c, s, schedule, n))
  {
    hide Inv, Step, GenDistance;
    if At(c, s, schedule, n).gen.pc.GenDone? {
      m := n;
    } else {
      assert GenActsFrom(schedule, n);
      var last: nat :| last >= n && schedule(last).GenStep?;
      var turn := FirstGenTurn(schedule, n, last);
      GenWaits(c, s, schedule, n, turn);
      AtKeepsInv(c, s, schedule, turn);
      GenTurnCloser(c, At(c, s, schedule, turn), schedule(turn));
      m := GeneratorFinishes(c, s, schedule, turn + 1);
    }
  }

  lemma RingStepOf(c: Config, s: State, service: nat)
    requires c.W > 0 && !GenLocal(s.gen.pc)
    ensures StepGen(c, s, service) ==
            match s.gen.pc
            case Push(target, _, _) => StepPush(s, target)
            case LifoIdle(i, _) => StepLen(s, i)
            case LifoLen(_, lens, _) => StepLen(s, |lens|)
            case _ => s
  {
    hide StepPush, StepLen;
  }

  lemma GenTurnCloser(c: Config, s: State, a: Action)
    requires Inv(c, s) && a.GenStep? && !s.gen.pc.GenDone?
    ensures var s' := Step(c, s, a); GenSmaller(GenLeft(c, s'), GenDistance(c, s'), GenLeft(c, s), GenDistance(c, s))
  {
    hide GenDistance, StepGen;
    if GenLocal(s.gen.pc) {
      LocalGenCloser(c, s, a.service);
    } else {
      RingStepOf(c, s, a.service);
      if s.gen.pc.Push? {
        PushGenCloser(c, s);
      } else {
        LenGenCloser(c, s, if s.gen.pc.LifoIdle? then s.gen.pc.i else |s.gen.pc.lens|);
      }
    }
  }

  lemma {:induction false} WorkerFinishes(c: Config, s: State, schedule: nat -> Action, n: nat, w: nat, d: Measure)
    returns (m: nat)
    requires c.W > 0 && Inv(c, s) && Fair(c.W, schedule) && w < c.W && At(c, s, schedule, n).shutdown
    requires InShape(c, At(c, s, schedule, n)) && d == Distance(c.W, ViewOf(At(c, s, schedule, n), w))
    ensures m >= n && InShape(c, At(c, s, schedule, m)) && At(c, s, schedule, m).workers[w].pc.Exited?
    decreases d.hang, d.burst, d.work, d.lap, d.rank
  {
    hide Inv, Step, Distance;
    if At(c, s, schedule, n).workers[w].pc.Exited? {
      m := n;
    } else {
      assert WorkerActsFrom(schedule, n, w);
      var last: nat :| last >= n && WorkerActs(schedule(last), w);
      var turn := FirstWorkerTurn(schedule, n, last, w);
      WorkerWaits(c, s, schedule, n, turn, w);
      AtKeepsInv(c, s, schedule, turn);
      OwnStepCloser(c, At(c, s, schedule, turn), schedule(turn), w);
      m := WorkerFinishes(c, s, schedule, turn + 1, w, Distance(c.W, ViewOf(At(c, s, schedule, turn + 1), w)));
    }
  }

  /** Whoever has left stays away. */
  lemma ExitedStays(c: Config, s: State, a: Action, w: nat)
    requires Inv(c, s) && s.shutdown && w < c.W && s.workers[w].pc.Exited?
    ensures var s' := Step(c, s, a); InShape(c, s') && s'.shutdown && s'.workers[w].pc.Exited?
  {
    if WorkerActs(a, w) {
      StepKeepsInv(c, s, a);
    } else {
      hide Step;
      OthersKeepView(c, s, a, w);
    }
  }

  lemma {:induction false} ExitedStaysLong(c: Config, s: State, schedule: nat -> Action, n: nat, m: nat, w: nat)
    requires c.W > 0 && Inv(c, s) && n <= m && w < c.W && At(c, s, schedule, n).shutdown
    requires InShape(c, At(c, s, schedule, n)) && At(c, s, schedule, n).workers[w].pc.Exited?
    ensures InShape(c, At(c, s, schedule, m)) && At(c, s, schedule, m).shutdown
    ensures At(c, s, schedule, m).workers[w].pc.Exited?
    decreases m - n
  {
    hide Inv, Step;
    if n < m {
      ExitedStaysLong(c, s, schedule, n, m - 1, w);
      AtKeepsInv(c, s, schedule, m - 1);
      ExitedStays(c, At(c, s, schedule, m - 1), schedule(m - 1), w);
    }
  }

  /** The first k workers all leave. */
  lemma {:induction false} WorkersFinish(c: Config, s: State, schedule: nat -> Action, n: nat, k: nat)
    returns (m: nat)
    requires c.W > 0 && Inv(c, s) && Fair(c.W, schedule) && k <= c.W && At(c, s, schedule, n).shutdown
    ensures m >= n && InShape(c, At(c, s, schedule, m)) && At(c, s, schedule, m).shutdown
    ensures forall w :: 0 <= w < k ==> At(c, s, schedule, m).workers[w].pc.Exited?
    decreases k
  {
    hide Inv, Step, Distance, Fair;
    AtKeepsInv(c, s, schedule, n);
    InvShape(c, At(c, s, schedule, n));
    m := n;
    if k > 0 {
      var mid := WorkersFinish(c, s, schedule, n, k - 1);
      m := WorkerFinishes(c, s, schedule, mid, k - 1, Distance(c.W, ViewOf(At(c, s, schedule, mid), k - 1)));
      forall w | 0 <= w < k - 1 ensures At(c, s, schedule, m).workers[w].pc.Exited? {
        ExitedStaysLong(c, s, schedule, mid, m, w);
      }
      ShutdownStays(c, s, schedule, mid, m);
    }
  }

  lemma {:induction false} ShutdownStays(c: Config, s: State, schedule: nat -> Action, n: nat, m: nat)
    requires c.W > 0 && n <= m && At(c, s, schedule, n).shutdown
    ensures At(c, s, schedule, m).shutdown
    decreases m - n
  {
    hide Step;
    if n < m {
      ShutdownStays(c, s, schedule, n, m - 1);
      ShutdownKept(c, At(c, s, schedule, m - 1), schedule(m - 1));
    }
  }

  lemma ShutdownKept(c: Config, s: State, a: Action)
    requires c.W > 0 && s.shutdown
    ensures Step(c, s, a).shutdown
  {
    hide StepWorker, Published, Touch, PickHermes, PickReuseport, GenHash;
  }

  lemma DoneMeansShutdown(c: Config, s: State)
    requires Inv(c, s) && s.gen.pc.GenDone?
    ensures s.shutdown
  {
  }

  /** Termination and conservation together: from the zeroed mapping, every fair schedule reaches
      a state in which the generator is done and every worker has exited, and there every
      generated connection is accounted for as an "accept" line or a drop. */
  lemma EveryFairRunEnds(c: Config, clock: nat, schedule: nat -> Action) returns (n: nat)
    requires ValidConfig(c) && Fair(c.W, schedule)
    ensures var s := At(c, Init(c, clock), schedule, n);
            && s.gen.pc.GenDone? && |s.workers| == c.W && AllExited(s)
            && s.gen.generated == Dispatcher.CeilDiv(c.duration, c.interval)
            && s.gen.generated == AcceptRowsIn(s.workers) + s.gen.dropped
  {
    hide Inv, Init, Step, Fair;
    var s0 := Init(c, clock);
    InitOk(c, clock);
    var done := GeneratorFinishes(c, s0, schedule, 0);
    AtKeepsInv(c, s0, schedule, done);
    DoneMeansShutdown(c, At(c, s0, schedule, done));
    n := WorkersFinish(c, s0, schedule, done, c.W);
    AtKeepsInv(c, s0, schedule, n);
    AllExitedConserves(c, At(c, s0, schedule, n));
    ShutdownMeansDone(c, At(c, s0, schedule, n));
  }

  lemma ShutdownMeansDone(c: Config, s: State)
    requires Inv(c, s) && s.shutdown
    ensures s.gen.pc.GenDone?
  {
  }

  // ---- fair schedules, and so finished runs, exist ----

  /** Everybody in turn, with every timer run out. */
  function RoundRobin(W: nat): nat -> Action {
    (n: nat) => if n % (W + 1) == W then GenStep(0) else WorkerStep(n % (W + 1), true)
  }

  lemma RoundRobinIsFair(W: nat)
    ensures Fair(W, RoundRobin(W))
  {
    var schedule := RoundRobin(W);
    forall n: nat ensures GenActsFrom(schedule, n) {
      TurnComes(W, n, W);
      assert schedule(n * (W + 1) + W).GenStep?;
    }
    forall n: nat, w: nat | w < W ensures WorkerActsFrom(schedule, n, w) {
      TurnComes(W, n, w);
      assert WorkerActs(schedule(n * (W + 1) + w), w);
    }
  }

  lemma TurnComes(W: nat, n: nat, w: nat)
    requires w <= W
    ensures n * (W + 1) + w >= n && (n * (W + 1) + w) % (W + 1) == w
  {
    DivUnique(n * (W + 1) + w, W + 1, n, w);
    assert n * (W + 1) == n * W + n && n * W >= 0;
  }

  function Prefix(schedule: nat -> Action, n: nat): (s: seq<Action>)
    ensures |s| == n
  {
    if n == 0 then [] else Prefix(schedule, n - 1) + [schedule(n - 1)]
  }

  /** The first n actions of an infinite schedule are a run. */
  lemma {:induction false} AtIsRun(c: Config, s: State, schedule: nat -> Action, n: nat)
    requires c.W > 0
    ensures At(c, s, schedule, n) == Run(c, s, Prefix(schedule, n))
  {
    hide Step;
    if n > 0 {
      AtIsRun(c, s, schedule, n - 1);
      RunConcat(c, s, Prefix(schedule, n - 1), [schedule(n - 1)]);
      RunOnce(c, Run(c, s, Prefix(schedule, n - 1)), schedule(n - 1));
    }
  }

  /** For every configuration there is a finite run in which all exit, so the statements about
      exited workers are about something. */
  lemma SomeRunEnds(c: Config, clock: nat) returns (schedule: seq<Action>)
    requires ValidConfig(c)
    ensures var s := Run(c, Init(c, clock), schedule); |s.workers| == c.W && AllExited(s) && s.gen.pc.GenDone?
  {
    hide Run, Init, Fair, RoundRobin;
    RoundRobinIsFair(c.W);
    var n := EveryFairRunEnds(c, clock, RoundRobin(c.W));
    AtIsRun(c, Init(c, clock), RoundRobin(c.W), n);
    schedule := Prefix(RoundRobin(c.W), n);
  }
}
